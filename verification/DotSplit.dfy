/** The dotted-key parser of featureutil. `.` separates segments, `\.` is a dot
    inside a segment. The printer below is not in the repository: it is the
    reference that says what the parser is for. */
module DotSplit {
  import opened Basics

  type Path = seq<string>

  datatype SplitError = EndsWithDot | StartsWithDot | InvalidDot(position: nat)

  type SplitResult = Result<Path, SplitError>

  // ----- The parser -----

  method SmartDotSplit(s: string) returns (r: SplitResult)
    ensures r == Split(s)
  {
    if |s| > 0 && s[|s| - 1] == '.' {
      return Err(EndsWithDot);
    }
    if |s| > 0 && s[0] == '.' {
      return Err(StartsWithDot);
    }
    var str: string := "";
    var ret: Path := [];
    for i := 0 to |s|
      invariant i > 0 && s[i - 1] == '\\' ==> str != "" && str[|str| - 1] == '\\'
      invariant Split(s) == Scan(s, i, ret, str)
    {
      var ch := s[i];
      if ch == '.' {
        if |str| == 0 || i == 0 {
          return Err(InvalidDot(i));
        }
        if s[i - 1] == '\\' {
          str := str[..|str| - 1];
          str := str + ".";
        } else {
          ret := ret + [str];
          str := "";
        }
      } else {
        str := str + [ch];
      }
    }
    return Ok(ret + [str]);
  }

  function Split(s: string): SplitResult {
    if |s| > 0 && s[|s| - 1] == '.' then Err(EndsWithDot)
    else if |s| > 0 && s[0] == '.' then Err(StartsWithDot)
    else Scan(s, 0, [], "")
  }

  /** What the loop does from position i on. */
  function Scan(s: string, i: nat, ret: Path, str: string): SplitResult
    requires i <= |s|
    decreases |s| - i
  {
    if i == |s| then Ok(ret + [str])
    else if s[i] != '.' then Scan(s, i + 1, ret, str + [s[i]])
    else if |str| == 0 || i == 0 then Err(InvalidDot(i))
    else if s[i - 1] == '\\' then Scan(s, i + 1, ret, str[..|str| - 1] + ".")
    else Scan(s, i + 1, ret + [str], "")
  }

  // ----- The printer -----

  function Escape(seg: string): string {
    if seg == "" then ""
    else (if seg[0] == '.' then "\\." else [seg[0]]) + Escape(seg[1..])
  }

  function Print(p: Path): string {
    if p == [] then ""
    else if |p| == 1 then Escape(p[0])
    else Escape(p[0]) + "." + Print(p[1..])
  }

  /** The printed segments, each followed by a separator. */
  function PrintOpen(p: Path): string {
    if p == [] then "" else PrintOpen(p[..|p| - 1]) + Escape(p[|p| - 1]) + "."
  }

  predicate InnerSegment(seg: string) {
    seg != "" && seg[|seg| - 1] != '\\'
  }

  predicate LastSegment(seg: string) {
    seg != "" && seg[|seg| - 1] != '.'
  }

  /** The paths a key can denote. */
  predicate WellFormed(p: Path) {
    p == [""] ||
    (p != [] && LastSegment(p[|p| - 1]) && forall k :: 0 <= k < |p| - 1 ==> InnerSegment(p[k]))
  }

  // ----- Printing, piece by piece -----

  lemma {:induction false} EscapeAppend(a: string, b: string)
    ensures Escape(a + b) == Escape(a) + Escape(b)
  {
    if a == "" {
      assert a + b == b;
    } else {
      assert (a + b)[1..] == a[1..] + b;
      EscapeAppend(a[1..], b);
    }
  }

  lemma {:induction false} EscapeChar(a: string, c: char)
    ensures Escape(a + [c]) == Escape(a) + (if c == '.' then "\\." else [c])
  {
    EscapeAppend(a, [c]);
    assert Escape([c]) == (if c == '.' then "\\." else [c]) + Escape([c][1..]);
  }

  lemma {:induction false} EscapeLast(seg: string)
    requires seg != ""
    ensures Escape(seg) != ""
    ensures Escape(seg)[|Escape(seg)| - 1] == seg[|seg| - 1]
    ensures Escape(seg)[0] != '.'
  {
    var n := |seg| - 1;
    EscapeChar(seg[..n], seg[n]);
    assert seg == seg[..n] + [seg[n]];
  }

  lemma {:induction false} PrintOpenCons(p: Path)
    requires p != []
    ensures PrintOpen(p) == Escape(p[0]) + "." + PrintOpen(p[1..])
  {
    if |p| > 1 {
      var q := p[..|p| - 1];
      PrintOpenCons(q);
      assert q[1..] == p[1..][..|p| - 2];
    }
  }

  lemma {:induction false} PrintSnoc(p: Path, seg: string)
    ensures Print(p + [seg]) == PrintOpen(p) + Escape(seg)
  {
    if p == [] {
      assert p + [seg] == [seg];
    } else {
      assert (p + [seg])[1..] == p[1..] + [seg];
      PrintSnoc(p[1..], seg);
      PrintOpenCons(p);
    }
  }

  // ----- Parsing inverts printing -----

  /** The scanner eats one escaped segment and has collected exactly that segment. */
  lemma {:induction false} ScanSegment(s: string, i: nat, ret: Path, str: string, seg: string)
    requires i + |Escape(seg)| <= |s| && s[i..i + |Escape(seg)|] == Escape(seg)
    ensures Scan(s, i, ret, str) == Scan(s, i + |Escape(seg)|, ret, str + seg)
    decreases |seg|
  {
    if seg == "" {
      assert str + seg == str;
    } else {
      var e := Escape(seg);
      var h := if seg[0] == '.' then 2 else 1;
      assert e[h..] == Escape(seg[1..]);
      assert s[i] == s[i..i + |e|][0] == e[0];
      if h == 2 {
        assert s[i + 1] == s[i..i + |e|][1] == e[1];
        assert (str + ['\\'])[..|str|] == str;
        assert Scan(s, i, ret, str) == Scan(s, i + 2, ret, str + ".");
      }
      assert s[i + h..i + |e|] == s[i..i + |e|][h..];
      ScanSegment(s, i + h, ret, str + [seg[0]], seg[1..]);
      assert str + [seg[0]] + seg[1..] == str + seg;
    }
  }

  lemma {:induction false} ScanPrinted(s: string, i: nat, ret: Path, p: Path)
    requires p != [] && (forall k :: 0 <= k < |p| - 1 ==> InnerSegment(p[k]))
    requires i <= |s| && s[i..] == Print(p)
    ensures Scan(s, i, ret, "") == Ok(ret + p)
    decreases |p|
  {
    var e := Escape(p[0]);
    assert s[i..i + |e|] == s[i..][..|e|] == e;
    ScanSegment(s, i, ret, "", p[0]);
    assert "" + p[0] == p[0];
    if |p| == 1 {
      assert p == [p[0]];
    } else {
      var j := i + |e|;
      EscapeLast(p[0]);
      assert s[j] == s[i..][|e|] == '.';
      assert s[j - 1] == s[i..][|e| - 1] == e[|e| - 1];
      assert s[j + 1..] == s[i..][|e| + 1..] == Print(p[1..]);
      ScanPrinted(s, j + 1, ret + [p[0]], p[1..]);
      assert ret + [p[0]] + p[1..] == ret + p;
    }
  }

  lemma {:induction false} SplitPrint(p: Path)
    requires WellFormed(p)
    ensures Split(Print(p)) == Ok(p)
  {
    var s := Print(p);
    if p != [""] {
      var n := |p| - 1;
      EscapeLast(p[0]);
      EscapeLast(p[n]);
      assert p == p[..n] + [p[n]];
      PrintSnoc(p[..n], p[n]);
      assert s[0] == Escape(p[0])[0];
    }
    assert s[0..] == s;
    ScanPrinted(s, 0, [], p);
    assert [] + p == p;
  }

  // ----- Printing inverts parsing -----

  /** What the scanner knows at position i: how the text read so far prints back. */
  ghost predicate Scanned(s: string, i: nat, ret: Path, str: string) {
    && i <= |s|
    && s[..i] == PrintOpen(ret) + Escape(str)
    && (forall k :: 0 <= k < |ret| ==> InnerSegment(ret[k]))
    && (i > 0 ==> s[i - 1] == if str == "" then '.' else str[|str| - 1])
  }

  lemma {:induction false} ScannedChar(s: string, i: nat, ret: Path, str: string)
    requires Scanned(s, i, ret, str) && i < |s| && s[i] != '.'
    ensures Scanned(s, i + 1, ret, str + [s[i]])
  {
    EscapeChar(str, s[i]);
    assert s[..i + 1] == s[..i] + [s[i]];
  }

  lemma {:induction false} ScannedEscape(s: string, i: nat, ret: Path, str: string)
    requires Scanned(s, i, ret, str) && 0 < i < |s| && s[i] == '.' && s[i - 1] == '\\'
    ensures str != "" && Scanned(s, i + 1, ret, str[..|str| - 1] + ".")
  {
    var cut := str[..|str| - 1];
    assert str == cut + ['\\'];
    EscapeChar(cut, '\\');
    EscapeChar(cut, '.');
    assert s[..i + 1] == s[..i] + [s[i]];
  }

  lemma {:induction false} ScannedSeparator(s: string, i: nat, ret: Path, str: string)
    requires Scanned(s, i, ret, str) && 0 < i < |s| && s[i] == '.' && s[i - 1] != '\\' && str != ""
    ensures Scanned(s, i + 1, ret + [str], "")
  {
    assert (ret + [str])[..|ret|] == ret;
    assert s[..i + 1] == s[..i] + [s[i]];
  }

  lemma {:induction false} ScannedEnd(s: string, ret: Path, str: string)
    requires Scanned(s, |s|, ret, str)
    ensures var p := ret + [str]; Scanned(s, |s|, p[..|p| - 1], p[|p| - 1])
  {
    assert (ret + [str])[..|ret|] == ret;
  }

  lemma {:induction false} ScanSound(s: string, i: nat, ret: Path, str: string)
    requires Scanned(s, i, ret, str) && Scan(s, i, ret, str).Ok?
    ensures var p := Scan(s, i, ret, str).value;
            p != [] && Scanned(s, |s|, p[..|p| - 1], p[|p| - 1])
    decreases |s| - i
  {
    if i == |s| {
      ScannedEnd(s, ret, str);
    } else if s[i] != '.' {
      ScannedChar(s, i, ret, str);
      ScanSound(s, i + 1, ret, str + [s[i]]);
    } else if s[i - 1] == '\\' {
      ScannedEscape(s, i, ret, str);
      ScanSound(s, i + 1, ret, str[..|str| - 1] + ".");
    } else {
      ScannedSeparator(s, i, ret, str);
      ScanSound(s, i + 1, ret + [str], "");
    }
  }

  lemma {:induction false} PrintSplit(s: string)
    requires Split(s).Ok?
    ensures WellFormed(Split(s).value) && Print(Split(s).value) == s
  {
    ScanSound(s, 0, [], "");
    var p := Split(s).value;
    var n := |p| - 1;
    assert s[..|s|] == s && p == p[..n] + [p[n]];
    PrintSnoc(p[..n], p[n]);
    forall k | 0 <= k < n ensures InnerSegment(p[k]) {
      assert p[k] == p[..n][k];
    }
  }

  // ----- Main results -----

  /** The parser accepts exactly the printed well-formed paths and returns the one
      path that prints to its input. */
  lemma {:induction false} SplitExact(s: string, p: Path)
    ensures Split(s) == Ok(p) <==> WellFormed(p) && Print(p) == s
  {
    if Split(s) == Ok(p) {
      PrintSplit(s);
    }
    if WellFormed(p) && Print(p) == s {
      SplitPrint(p);
    }
  }

  lemma {:induction false} SplitFails(s: string)
    ensures Split(s).Err? <==> forall p :: WellFormed(p) ==> Print(p) != s
  {
    if Split(s).Err? {
      forall p | WellFormed(p) ensures Print(p) != s {
        SplitExact(s, p);
      }
    } else {
      PrintSplit(s);
    }
  }

  /** At position `i` a segment would be empty: a dot right after a dot that separates. */
  predicate EmptySegmentAt(s: string, i: nat) {
    2 <= i < |s| && s[i] == '.' && s[i - 1] == '.' && s[i - 2] != '\\'
  }

  /** What the scanner knows about the segment it is in at position i. */
  predicate InSegment(s: string, i: nat, str: string) {
    && i <= |s| && (|s| > 0 ==> s[0] != '.')
    && (str == "" <==> i == 0 || (2 <= i && s[i - 1] == '.' && s[i - 2] != '\\'))
  }

  lemma {:induction false} ScanErrs(s: string, i: nat, ret: Path, str: string)
    requires InSegment(s, i, str) && forall j: nat :: j < i ==> !EmptySegmentAt(s, j)
    ensures match Scan(s, i, ret, str)
            case Ok(_) => forall j: nat :: !EmptySegmentAt(s, j)
            case Err(e) => e.InvalidDot? && EmptySegmentAt(s, e.position) &&
                           forall j: nat :: j < e.position ==> !EmptySegmentAt(s, j)
    decreases |s| - i
  {
    if i < |s| {
      if s[i] != '.' {
        ScanErrs(s, i + 1, ret, str + [s[i]]);
      } else if str != "" {
        if s[i - 1] == '\\' {
          ScanErrs(s, i + 1, ret, str[..|str| - 1] + ".");
        } else {
          ScanErrs(s, i + 1, ret + [str], "");
        }
      }
    }
  }

  /** Which error is reported: a dot at the end, else one at the start, else the first
      position at which a segment is empty; and none where there is nothing of the kind. */
  lemma {:induction false} SplitErrs(s: string)
    ensures Split(s) == Err(EndsWithDot) <==> |s| > 0 && s[|s| - 1] == '.'
    ensures Split(s) == Err(StartsWithDot) <==> |s| > 0 && s[0] == '.' && s[|s| - 1] != '.'
    ensures forall i: nat :: Split(s) == Err(InvalidDot(i)) <==>
              && s != "" && s[0] != '.' && s[|s| - 1] != '.'
              && EmptySegmentAt(s, i) && forall j: nat :: j < i ==> !EmptySegmentAt(s, j)
  {
    if s == "" || (s[0] != '.' && s[|s| - 1] != '.') {
      ScanErrs(s, 0, [], "");
    }
  }

  /** Two different keys never denote the same path. */
  lemma {:induction false} SplitInjective(s: string, t: string)
    requires Split(s).Ok? && Split(s) == Split(t)
    ensures s == t
  {
    PrintSplit(s);
    PrintSplit(t);
  }

  lemma {:induction false} SplitNonEmpty(s: string)
    ensures Split(s).Ok? ==> Split(s).value != []
  {
    if Split(s).Ok? {
      PrintSplit(s);
    }
  }
}
