/** MakeHelmConfigMap: a nested object from configuration rows with dotted keys. */
module ConfigTree {
  import opened Basics
  import opened DotSplit
  import opened ConfigMerge
  import opened Tree

  datatype TreeError = Malformed(error: SplitError) | NotNestable(prefix: string)

  /** `Panicked` is Go's failed type assertion `e.(map[string]any)`. */
  datatype TreeResult = Built(tree: Object) | Failed(error: TreeError) | Panicked

  /** strings.Join(segments, "."), which does not escape. */
  function Join(p: Path): string {
    if p == [] then "" else if |p| == 1 then p[0] else p[0] + "." + Join(p[1..])
  }

  function PathOf(row: MergedRow): Path
    requires Split(row.key).Ok?
  {
    Split(row.key).value
  }

  // ----- The implementation -----

  method MakeHelmConfigMap(vals: seq<MergedRow>) returns (r: TreeResult)
    ensures r == HelmConfigMap(vals)
  {
    var leaves: set<string> := {};
    for n := 0 to |vals|
      invariant forall k :: k in leaves <==> exists j :: 0 <= j < n && vals[j].key == k
    {
      leaves := leaves + {vals[n].key};
    }
    assert forall k :: k in leaves <==> IsKey(vals, k);
    for n := 0 to |vals|
      invariant FirstConflict(vals, 0) == FirstConflict(vals, n)
    {
      var split := SmartDotSplit(vals[n].key);
      if split.Err? {
        return Failed(Malformed(split.error));
      }
      var keys := split.value;
      SplitNonEmpty(vals[n].key);
      for i := 1 to |keys|
        invariant HitFrom(vals, keys, 1) == HitFrom(vals, keys, i)
      {
        var prefix := Join(keys[..i]);
        if prefix in leaves {
          return Failed(NotNestable(prefix));
        }
      }
    }
    NoConflict(vals, 0);
    var val: Object := map[];
    for n := 0 to |vals|
      invariant BuildFirst(Entries(vals), n) == Built(val)
    {
      var keys := Split(vals[n].key).value;
      SplitNonEmpty(vals[n].key);
      var put := Put(val, keys, vals[n].value);
      if put.None? {
        PanicStays(Entries(vals), n + 1, |vals|);
        return Panicked;
      }
      val := put.value;
    }
    return Built(val);
  }

  /** Descend from `o` along `keys`, creating objects on the way, and store the row's
      value at the end. None is the failed type assertion. */
  function Put(o: Object, keys: Path, json: string): Option<Object>
    requires keys != []
    decreases |keys|
  {
    var k := keys[0];
    if |keys| == 1 then Some(o[k := Raw(json)])
    else if k !in o then
      match Put(map[], keys[1..], json)
      case None => None
      case Some(sub) => Some(o[k := Dict(sub)])
    else if !o[k].Dict? then None
    else
      match Put(o[k].entries, keys[1..], json)
      case None => None
      case Some(sub) => Some(o[k := Dict(sub)])
  }

  // ----- The same as a function of the rows -----

  ghost predicate IsKey(rows: seq<MergedRow>, k: string) {
    exists j :: 0 <= j < |rows| && rows[j].key == k
  }

  ghost function HitFrom(rows: seq<MergedRow>, keys: Path, i: nat): Option<TreeError>
    decreases |keys| - i
  {
    if i >= |keys| then None
    else if IsKey(rows, Join(keys[..i])) then Some(NotNestable(Join(keys[..i])))
    else HitFrom(rows, keys, i + 1)
  }

  ghost function FirstConflict(rows: seq<MergedRow>, n: nat): Option<TreeError>
    decreases |rows| - n
  {
    if n >= |rows| then None
    else match Split(rows[n].key)
      case Err(e) => Some(Malformed(e))
      case Ok(keys) => if HitFrom(rows, keys, 1).Some? then HitFrom(rows, keys, 1) else FirstConflict(rows, n + 1)
  }

  ghost predicate AllSplit(rows: seq<MergedRow>) {
    forall n :: 0 <= n < |rows| ==> Split(rows[n].key).Ok?
  }

  /** A row with its key parsed. */
  datatype Entry = Entry(path: Path, json: string)

  ghost function Entries(rows: seq<MergedRow>): (es: seq<Entry>)
    requires AllSplit(rows)
    ensures forall i :: 0 <= i < |es| ==> es[i].path != []
  {
    assert forall i :: 0 <= i < |rows| ==> PathOf(rows[i]) != [] by {
      forall i | 0 <= i < |rows| ensures PathOf(rows[i]) != [] {
        SplitNonEmpty(rows[i].key);
      }
    }
    seq(|rows|, i requires 0 <= i < |rows| => Entry(PathOf(rows[i]), rows[i].value))
  }

  ghost predicate Proper(es: seq<Entry>) {
    forall i :: 0 <= i < |es| ==> es[i].path != []
  }

  /** The object after the first n entries. */
  ghost function BuildFirst(es: seq<Entry>, n: nat): TreeResult
    requires Proper(es) && n <= |es|
  {
    if n == 0 then Built(map[])
    else
      var before := BuildFirst(es, n - 1);
      if !before.Built? then before
      else
        match Put(before.tree, es[n - 1].path, es[n - 1].json)
        case None => Panicked
        case Some(o) => Built(o)
  }

  ghost function HelmConfigMap(rows: seq<MergedRow>): TreeResult {
    if FirstConflict(rows, 0).Some? then Failed(FirstConflict(rows, 0).value)
    else
      NoConflict(rows, 0);
      BuildFirst(Entries(rows), |rows|)
  }

  lemma {:induction false} PanicStays(es: seq<Entry>, n: nat, m: nat)
    requires Proper(es) && n <= m <= |es| && BuildFirst(es, n) == Panicked
    ensures BuildFirst(es, m) == Panicked
  {
    if n < m {
      PanicStays(es, n, m - 1);
    }
  }

  lemma {:induction false} NoConflict(rows: seq<MergedRow>, n: nat)
    requires FirstConflict(rows, n).None?
    ensures forall j :: n <= j < |rows| ==> Split(rows[j].key).Ok?
    decreases |rows| - n
  {
    if n < |rows| {
      NoConflict(rows, n + 1);
    }
  }

  // ----- What storing one value does to the object -----

  lemma {:induction false} PutShape(o: Object, keys: Path, json: string, p: Path)
    requires keys != [] && Put(o, keys, json).Some?
    ensures ShapeAt(Dict(Put(o, keys, json).value), p) ==
            if p == keys then Leaf(Raw(json))
            else if p < keys then Inner
            else if keys < p then Absent
            else ShapeAt(Dict(o), p)
    decreases |keys|
  {
    var k := keys[0];
    assert keys == [k] + keys[1..];
    if p != [] {
      PrefixStep(p, keys);
      PrefixStep(keys, p);
      var after := Put(o, keys, json).value;
      if p[0] != k {
        assert p[0] in after <==> p[0] in o;
      } else if |keys| == 1 {
        assert p[1..] == [] || keys[1..] < p[1..];
        assert p[1..] != [] ==> ShapeAt(Raw(json), p[1..]) == Absent;
        assert after[k] == Raw(json);
        assert ShapeAt(Dict(after), p) == ShapeAt(Raw(json), p[1..]);
        if p[1..] == [] {
          assert p == keys;
          assert ShapeAt(Dict(after), p) == Leaf(Raw(json));
        } else {
          assert ShapeAt(Dict(after), p) == Absent;
          assert keys < p;
          assert p != keys && !(p < keys);
        }
      } else {
        var sub := if k in o then o[k].entries else map[];
        PutShape(sub, keys[1..], json, p[1..]);
        assert after[k] == Dict(Put(sub, keys[1..], json).value);
        if k !in o {
          assert p[1..] != [] ==> ShapeAt(Dict(map[]), p[1..]) == Absent;
        } else {
          assert ShapeAt(Dict(o), p) == ShapeAt(o[k], p[1..]);
        }
      }
    }
  }

  /** The type assertion fails exactly where a leaf lies on the way. */
  lemma {:induction false} PutPanics(o: Object, keys: Path, json: string)
    requires keys != []
    ensures Put(o, keys, json).None? <==> exists q :: [] < q < keys && ShapeAt(Dict(o), q).Leaf?
    decreases |keys|
  {
    var k := keys[0];
    var rest := keys[1..];
    if |keys| > 1 {
      var sub := if k in o && o[k].Dict? then o[k].entries else map[];
      PutPanics(sub, rest, json);
      AtKey(Dict(o), k, []);
      if k in o && !o[k].Dict? {
        assert [] < [k] + [] < keys && ShapeAt(Dict(o), [k] + []).Leaf?;
      } else {
        if Put(sub, rest, json).None? {
          var q :| [] < q < rest && ShapeAt(Dict(sub), q).Leaf?;
          AtKey(Dict(o), k, q);
          assert [] < [k] + q < keys && ShapeAt(Dict(o), [k] + q).Leaf?;
        }
        forall q | [] < q < keys && ShapeAt(Dict(o), q).Leaf?
          ensures Put(sub, rest, json).None?
        {
          assert q == [k] + q[1..];
          AtKey(Dict(o), k, q[1..]);
          assert [] < q[1..] < rest && ShapeAt(Dict(sub), q[1..]).Leaf?;
        }
      }
    }
  }

  // ----- The object built from a whole list of entries -----

  ghost predicate LeafAt(tree: Object, p: Path) {
    ShapeAt(Dict(tree), p).Leaf?
  }

  ghost predicate LeafAlong(tree: Object, p: Path) {
    exists q :: [] < q <= p && LeafAt(tree, q)
  }

  ghost predicate IsPath(es: seq<Entry>, n: nat, p: Path)
    requires n <= |es|
  {
    exists i :: 0 <= i < n && es[i].path == p
  }

  ghost predicate LeadsToPath(es: seq<Entry>, n: nat, p: Path)
    requires n <= |es|
  {
    exists i :: 0 <= i < n && p < es[i].path
  }

  ghost predicate PrefixFree(es: seq<Entry>) {
    forall i, j :: 0 <= i < |es| && 0 <= j < |es| ==> !(es[i].path < es[j].path)
  }

  ghost predicate DistinctPaths(es: seq<Entry>) {
    forall i, j :: 0 <= i < j < |es| ==> es[i].path != es[j].path
  }

  /** Among the first n entries, one path leads through an earlier entry's leaf. */
  ghost predicate LeafInTheWay(es: seq<Entry>, n: nat)
    requires n <= |es|
  {
    exists i, j :: 0 <= i < j < n && es[i].path < es[j].path
  }

  /** The object holds every entry's value at its path and nothing else: its other
      nodes are the objects on the way to an entry. */
  ghost predicate Exact(tree: Object, es: seq<Entry>, n: nat)
    requires n <= |es|
  {
    && (forall i :: 0 <= i < n ==> ShapeAt(Dict(tree), es[i].path) == Leaf(Raw(es[i].json)))
    && (forall p :: LeafAt(tree, p) ==> IsPath(es, n, p))
    && (forall p :: ShapeAt(Dict(tree), p).Inner? <==> p == [] || LeadsToPath(es, n, p))
  }

  /** Every entry leaves a leaf at or above its path, and every leaf is some entry's. */
  ghost predicate Covered(tree: Object, es: seq<Entry>, n: nat)
    requires n <= |es|
  {
    && (forall i :: 0 <= i < n ==> LeafAlong(tree, es[i].path))
    && (forall p :: LeafAt(tree, p) ==> IsPath(es, n, p))
  }

  lemma {:induction false} StillOnTheWay(tree: Object, keys: Path, json: string, p: Path)
    requires keys != [] && Put(tree, keys, json).Some?
    requires LeafAlong(tree, p)
    ensures LeafAlong(Put(tree, keys, json).value, p)
  {
    var q :| [] < q <= p && LeafAt(tree, q);
    PutShape(tree, keys, json, q);
    PutShape(tree, keys, json, keys);
    PutPanics(tree, keys, json);
    var after := Put(tree, keys, json).value;
    if keys <= q {
      assert [] < keys <= p && LeafAt(after, keys);
    } else {
      assert [] < q <= p && LeafAt(after, q);
    }
  }

  lemma {:induction false} CoveredStep(tree: Object, es: seq<Entry>, n: nat)
    requires Proper(es) && n < |es| && Covered(tree, es, n)
    requires Put(tree, es[n].path, es[n].json).Some?
    ensures Covered(Put(tree, es[n].path, es[n].json).value, es, n + 1)
  {
    var keys, json := es[n].path, es[n].json;
    var after := Put(tree, keys, json).value;
    forall i | 0 <= i < n + 1 ensures LeafAlong(after, es[i].path) {
      if i < n {
        StillOnTheWay(tree, keys, json, es[i].path);
      } else {
        PutShape(tree, keys, json, keys);
        assert [] < keys <= keys && LeafAt(after, keys);
      }
    }
    forall p | LeafAt(after, p) ensures IsPath(es, n + 1, p) {
      PutShape(tree, keys, json, p);
      if p != keys {
        assert IsPath(es, n, p);
      }
    }
  }

  ghost predicate OutcomeAfter(r: TreeResult, es: seq<Entry>, n: nat)
    requires n <= |es|
  {
    match r
    case Panicked => LeafInTheWay(es, n)
    case Built(tree) => !LeafInTheWay(es, n) && Covered(tree, es, n)
    case Failed(_) => false
  }

  lemma {:induction false} BuildOutcome(es: seq<Entry>, n: nat)
    requires Proper(es) && n <= |es|
    ensures OutcomeAfter(BuildFirst(es, n), es, n)
  {
    if n == 0 {
      forall p ensures !LeafAt(map[], p) {
        EmptyObject(p);
      }
    } else {
      BuildOutcome(es, n - 1);
      LeafInTheWayStep(es, n - 1);
      var before := BuildFirst(es, n - 1);
      if before.Built? {
        PutOutcome(before.tree, es, n - 1);
        if Put(before.tree, es[n - 1].path, es[n - 1].json).Some? {
          CoveredStep(before.tree, es, n - 1);
        }
      }
    }
  }

  lemma {:induction false} LeafInTheWayStep(es: seq<Entry>, n: nat)
    requires n < |es|
    ensures LeafInTheWay(es, n + 1) <==> LeafInTheWay(es, n) || exists i :: 0 <= i < n && es[i].path < es[n].path
  {
    if LeafInTheWay(es, n + 1) {
      var i, j :| 0 <= i < j < n + 1 && es[i].path < es[j].path;
      assert j == n || LeafInTheWay(es, n);
    }
  }

  lemma {:induction false} PutOutcome(tree: Object, es: seq<Entry>, n: nat)
    requires Proper(es) && n < |es| && Covered(tree, es, n)
    ensures Put(tree, es[n].path, es[n].json).None? <==> exists i :: 0 <= i < n && es[i].path < es[n].path
  {
    var keys := es[n].path;
    PutPanics(tree, keys, es[n].json);
    if Put(tree, keys, es[n].json).None? {
      var q :| [] < q < keys && ShapeAt(Dict(tree), q).Leaf?;
      assert LeafAt(tree, q);
    }
    forall i | 0 <= i < n && es[i].path < keys ensures Put(tree, keys, es[n].json).None? {
      assert LeafAlong(tree, es[i].path);
      var q :| [] < q <= es[i].path && LeafAt(tree, q);
      assert [] < q < keys && ShapeAt(Dict(tree), q).Leaf?;
    }
  }

  lemma {:induction false} EmptyExact(es: seq<Entry>)
    ensures Exact(map[], es, 0)
  {
    forall p: Path ensures ShapeAt(Dict(map[]), p) == if p == [] then Inner else Absent {
      EmptyObject(p);
    }
  }

  lemma {:induction false} BuildExact(es: seq<Entry>, n: nat)
    requires Proper(es) && n <= |es| && DistinctPaths(es) && PrefixFree(es)
    ensures BuildFirst(es, n).Built? && Exact(BuildFirst(es, n).tree, es, n)
  {
    BuildOutcome(es, n);
    if n == 0 {
      EmptyExact(es);
    } else {
      BuildExact(es, n - 1);
      ExactStep(BuildFirst(es, n - 1).tree, es, n - 1);
    }
  }

  lemma {:induction false} ExactStep(tree: Object, es: seq<Entry>, n: nat)
    requires Proper(es) && n < |es| && DistinctPaths(es) && PrefixFree(es)
    requires Exact(tree, es, n) && Put(tree, es[n].path, es[n].json).Some?
    ensures Exact(Put(tree, es[n].path, es[n].json).value, es, n + 1)
  {
    var keys, json := es[n].path, es[n].json;
    var after := Put(tree, keys, json).value;
    forall i | 0 <= i < n + 1 ensures ShapeAt(Dict(after), es[i].path) == Leaf(Raw(es[i].json)) {
      PutShape(tree, keys, json, es[i].path);
    }
    forall p
      ensures LeafAt(after, p) ==> IsPath(es, n + 1, p)
      ensures ShapeAt(Dict(after), p).Inner? <==> p == [] || LeadsToPath(es, n + 1, p)
    {
      PutShape(tree, keys, json, p);
      assert LeafAt(tree, p) ==> IsPath(es, n, p);
      assert LeadsToPath(es, n + 1, p) <==> LeadsToPath(es, n, p) || p < keys;
      if keys <= p {
        forall i | 0 <= i < n ensures !(p < es[i].path) {
          assert !(es[n].path < es[i].path);
        }
      }
    }
  }

  // ----- Main results -----

  ghost predicate DistinctKeys(rows: seq<MergedRow>) {
    forall i, j :: 0 <= i < j < |rows| ==> rows[i].key != rows[j].key
  }

  /** The pre-scan: a raw key equals the unescaped join of another key's prefix. */
  ghost predicate RawHit(rows: seq<MergedRow>)
    requires AllSplit(rows)
  {
    exists n, i :: 0 <= n < |rows| && 1 <= i < |PathOf(rows[n])| && IsKey(rows, Join(PathOf(rows[n])[..i]))
  }

  lemma {:induction false} HitFromMeaning(rows: seq<MergedRow>, keys: Path, i: nat)
    requires 1 <= i
    ensures HitFrom(rows, keys, i).Some? <==> exists j :: i <= j < |keys| && IsKey(rows, Join(keys[..j]))
    decreases |keys| - i
  {
    if i < |keys| {
      HitFromMeaning(rows, keys, i + 1);
    }
  }

  lemma {:induction false} FirstConflictMeaning(rows: seq<MergedRow>, n: nat)
    requires AllSplit(rows)
    ensures FirstConflict(rows, n).Some? <==>
            exists m, i :: n <= m < |rows| && 1 <= i < |PathOf(rows[m])| && IsKey(rows, Join(PathOf(rows[m])[..i]))
    decreases |rows| - n
  {
    if n < |rows| {
      HitFromMeaning(rows, PathOf(rows[n]), 1);
      FirstConflictMeaning(rows, n + 1);
    }
  }

  lemma {:induction false} MalformedConflict(rows: seq<MergedRow>, n: nat, m: nat)
    requires n <= m < |rows| && Split(rows[m].key).Err?
    ensures FirstConflict(rows, n).Some?
    decreases m - n
  {
    if n < m {
      MalformedConflict(rows, n + 1, m);
    }
  }

  lemma {:induction false} JoinJoined(p: Path, q: Path)
    requires p != [] && q != []
    ensures Join(p + q) == Join(p) + "." + Join(q)
  {
    if |p| == 1 {
      assert (p + q)[1..] == q;
    } else {
      assert (p + q)[1..] == p[1..] + q;
      JoinJoined(p[1..], q);
    }
  }

  /** The first i segments of the row's path, joined, are some row's key. */
  ghost predicate HitsAt(rows: seq<MergedRow>, n: nat, i: nat)
    requires n < |rows| && Split(rows[n].key).Ok?
  {
    1 <= i < |Split(rows[n].key).value| && exists row :: row in rows && row.key == Join(Split(rows[n].key).value[..i])
  }

  ghost predicate Passes(rows: seq<MergedRow>, n: nat)
    requires n < |rows|
  {
    Split(rows[n].key).Ok? && forall i: nat :: !HitsAt(rows, n, i)
  }

  /** The row ends the pre-scan with the error. */
  ghost predicate Reports(rows: seq<MergedRow>, n: nat, error: TreeError)
    requires n < |rows|
  {
    match Split(rows[n].key)
    case Err(e) => error == Malformed(e)
    case Ok(path) => exists i: nat ::
      HitsAt(rows, n, i) && error == NotNestable(Join(path[..i])) && forall j: nat :: j < i ==> !HitsAt(rows, n, j)
  }

  /** And no earlier row does. */
  ghost predicate ReportsFirst(rows: seq<MergedRow>, n: nat, error: TreeError) {
    n < |rows| && Reports(rows, n, error) && forall m: nat :: m < n ==> Passes(rows, m)
  }

  lemma {:induction false} KeyOfRow(rows: seq<MergedRow>, key: string)
    ensures IsKey(rows, key) <==> exists row :: row in rows && row.key == key
  {
    if row :| row in rows && row.key == key {
      var j :| 0 <= j < |rows| && rows[j] == row;
    }
  }

  lemma {:induction false} HitFromFirst(rows: seq<MergedRow>, n: nat, i: nat)
    requires n < |rows| && Split(rows[n].key).Ok? && 1 <= i
    requires forall j: nat :: j < i ==> !HitsAt(rows, n, j)
    ensures match HitFrom(rows, Split(rows[n].key).value, i)
            case None => Passes(rows, n)
            case Some(error) => !Passes(rows, n) && Reports(rows, n, error)
    decreases |Split(rows[n].key).value| - i
  {
    var path := Split(rows[n].key).value;
    if i < |path| {
      KeyOfRow(rows, Join(path[..i]));
      if !IsKey(rows, Join(path[..i])) {
        HitFromFirst(rows, n, i + 1);
      } else {
        assert HitsAt(rows, n, i);
      }
    }
  }

  lemma {:induction false} FirstConflictFirst(rows: seq<MergedRow>, n: nat)
    requires n <= |rows| && forall m: nat :: m < n ==> Passes(rows, m)
    ensures FirstConflict(rows, n).None? ==> forall m: nat :: m < |rows| ==> Passes(rows, m)
    ensures FirstConflict(rows, n).Some? ==> exists k: nat :: ReportsFirst(rows, k, FirstConflict(rows, n).value)
    decreases |rows| - n
  {
    if n < |rows| {
      if Split(rows[n].key).Ok? {
        HitFromFirst(rows, n, 1);
      }
      if Passes(rows, n) {
        FirstConflictFirst(rows, n + 1);
      } else {
        assert ReportsFirst(rows, n, FirstConflict(rows, n).value);
      }
    }
  }

  /** Which error is reported: that of the first row that is malformed or has the joined
      beginning of its path as a key, and of these beginnings the shortest. */
  lemma {:induction false} ErrorExactly(rows: seq<MergedRow>)
    ensures HelmConfigMap(rows).Failed? ==> exists k: nat :: ReportsFirst(rows, k, HelmConfigMap(rows).error)
    ensures !HelmConfigMap(rows).Failed? ==> forall m: nat :: m < |rows| ==> Passes(rows, m)
  {
    FirstConflictFirst(rows, 0);
    if FirstConflict(rows, 0).None? {
      NoConflict(rows, 0);
      BuildOutcome(Entries(rows), |rows|);
    }
  }

  /** What MakeHelmConfigMap does on any rows: it reports an error iff a key is
      malformed or the pre-scan hits; otherwise it panics iff some row's path runs
      through an earlier row's; otherwise it builds an object, and for rows with
      distinct keys that object is exact iff no path is a prefix of another. */
  lemma {:induction false} MakeHelmConfigMapExact(rows: seq<MergedRow>)
    ensures HelmConfigMap(rows).Failed? <==> !AllSplit(rows) || RawHit(rows)
    ensures AllSplit(rows) && !RawHit(rows) ==> (HelmConfigMap(rows).Panicked? <==> LeafInTheWay(Entries(rows), |rows|))
    ensures HelmConfigMap(rows).Built? ==> AllSplit(rows)
    ensures HelmConfigMap(rows).Built? && DistinctKeys(rows) ==>
              (Exact(HelmConfigMap(rows).tree, Entries(rows), |rows|) <==> PrefixFree(Entries(rows)))
  {
    if !AllSplit(rows) {
      var m :| 0 <= m < |rows| && Split(rows[m].key).Err?;
      MalformedConflict(rows, 0, m);
    } else {
      FirstConflictMeaning(rows, 0);
      BuildOutcome(Entries(rows), |rows|);
      if HelmConfigMap(rows).Built? && DistinctKeys(rows) {
        ExactIffPrefixFree(rows, HelmConfigMap(rows).tree);
      }
    }
  }

  lemma {:induction false} ExactIffPrefixFree(rows: seq<MergedRow>, tree: Object)
    requires AllSplit(rows) && DistinctKeys(rows) && BuildFirst(Entries(rows), |rows|) == Built(tree)
    ensures Exact(tree, Entries(rows), |rows|) <==> PrefixFree(Entries(rows))
  {
    var es := Entries(rows);
    if PrefixFree(es) {
      forall i, j | 0 <= i < j < |es| ensures es[i].path != es[j].path {
        if es[i].path == es[j].path {
          SplitInjective(rows[i].key, rows[j].key);
        }
      }
      BuildExact(es, |es|);
    } else {
      var i, j :| 0 <= i < |es| && 0 <= j < |es| && es[i].path < es[j].path;
      if ShapeAt(Dict(tree), es[i].path).Leaf? {
        BelowLeaf(Dict(tree), es[i].path, es[j].path);
      }
    }
  }

  lemma {:induction false} PrintPrefix(p: Path, q: Path)
    requires p != [] && p < q
    ensures Print(p) < Print(q)
  {
    if |p| > 1 {
      PrintPrefix(p[1..], q[1..]);
      assert Escape(p[0]) + "." + Print(p[1..]) < Escape(q[0]) + "." + Print(q[1..]);
    } else {
      assert Print(q) == Escape(p[0]) + ("." + Print(q[1..]));
    }
  }

  /** Sorting by key puts a path before the paths that it is a prefix of. */
  lemma {:induction false} PrefixSortsFirst(rows: seq<MergedRow>, i: nat, j: nat)
    requires StrictlyKeySorted(rows) && i < |rows| && j < |rows|
    requires Split(rows[i].key).Ok? && Split(rows[j].key).Ok? && PathOf(rows[i]) < PathOf(rows[j])
    ensures i < j
  {
    var a, b := rows[i].key, rows[j].key;
    PrintSplit(a);
    PrintSplit(b);
    SplitNonEmpty(a);
    PrintPrefix(PathOf(rows[i]), PathOf(rows[j]));
    StrictPrefixIsLess(a, b);
    StrLessIrreflexive(a);
    if j < i {
      StrLessTransitive(a, b, a);
    }
  }

  lemma {:induction false} SortedKeysAreDistinct(rows: seq<MergedRow>)
    requires StrictlyKeySorted(rows)
    ensures DistinctKeys(rows)
  {
    forall i, j | 0 <= i < j < |rows| ensures rows[i].key != rows[j].key {
      StrLessIrreflexive(rows[i].key);
    }
  }

  /** On rows sorted by key, which is what merging gives, no row is ever overwritten: an
      error iff a key is malformed or the pre-scan hits; otherwise a panic iff one path is
      a prefix of another; otherwise exactly the rows. */
  lemma {:induction false} MergedRowsExact(rows: seq<MergedRow>)
    requires StrictlyKeySorted(rows)
    ensures HelmConfigMap(rows).Failed? <==> !AllSplit(rows) || RawHit(rows)
    ensures AllSplit(rows) && !RawHit(rows) ==> (HelmConfigMap(rows).Panicked? <==> !PrefixFree(Entries(rows)))
    ensures HelmConfigMap(rows).Built? ==> AllSplit(rows) && Exact(HelmConfigMap(rows).tree, Entries(rows), |rows|)
  {
    MakeHelmConfigMapExact(rows);
    SortedKeysAreDistinct(rows);
    if AllSplit(rows) && !RawHit(rows) {
      SortedConflictsPanic(rows);
    }
  }

  lemma {:induction false} SortedConflictsPanic(rows: seq<MergedRow>)
    requires StrictlyKeySorted(rows) && AllSplit(rows)
    ensures LeafInTheWay(Entries(rows), |rows|) <==> !PrefixFree(Entries(rows))
  {
    var es := Entries(rows);
    forall i, j | 0 <= i < |es| && 0 <= j < |es| && es[i].path < es[j].path ensures i < j {
      PrefixSortsFirst(rows, i, j);
    }
  }

  predicate BackslashFree(s: string) {
    '\\' !in s
  }

  lemma {:induction false} ScanWithoutBackslash(s: string, i: nat, ret: Path, str: string)
    requires i <= |s| && BackslashFree(s) && Scan(s, i, ret, str).Ok?
    requires forall k :: 0 <= k < |ret| ==> '.' !in ret[k]
    requires '.' !in str
    ensures forall k :: 0 <= k < |Scan(s, i, ret, str).value| ==> '.' !in Scan(s, i, ret, str).value[k]
    decreases |s| - i
  {
    if i < |s| {
      if s[i] != '.' {
        ScanWithoutBackslash(s, i + 1, ret, str + [s[i]]);
      } else {
        ScanWithoutBackslash(s, i + 1, ret + [str], "");
      }
    }
  }

  lemma {:induction false} EscapePlain(seg: string)
    requires '.' !in seg
    ensures Escape(seg) == seg
  {
    if seg != "" {
      EscapePlain(seg[1..]);
      assert seg == [seg[0]] + seg[1..];
    }
  }

  lemma {:induction false} JoinIsPrint(p: Path)
    requires forall k :: 0 <= k < |p| ==> '.' !in p[k]
    ensures Join(p) == Print(p)
  {
    if p != [] {
      EscapePlain(p[0]);
      JoinIsPrint(p[1..]);
    }
  }

  /** Without backslashes the textual pre-scan sees exactly the path prefixes. */
  lemma {:induction false} PrefixIsRawHit(rows: seq<MergedRow>, n: nat, i: nat)
    requires AllSplit(rows) && n < |rows| && BackslashFree(rows[n].key)
    requires 1 <= i < |PathOf(rows[n])|
    ensures IsKey(rows, Join(PathOf(rows[n])[..i])) <==>
            exists m :: 0 <= m < |rows| && PathOf(rows[m]) == PathOf(rows[n])[..i]
  {
    var q := PathOf(rows[n])[..i];
    ScanWithoutBackslash(rows[n].key, 0, [], "");
    JoinIsPrint(q);
    PrintSplit(rows[n].key);
    assert q[i - 1] == PathOf(rows[n])[i - 1];
    SegmentsPlain(rows[n].key, i - 1);
    assert WellFormed(q);
    SplitPrint(q);
    if IsKey(rows, Join(q)) {
      var m :| 0 <= m < |rows| && rows[m].key == Join(q);
      assert PathOf(rows[m]) == q;
    }
    forall m | 0 <= m < |rows| && PathOf(rows[m]) == q ensures IsKey(rows, Join(q)) {
      PrintSplit(rows[m].key);
    }
  }

  lemma {:induction false} SegmentsPlain(s: string, k: nat)
    requires BackslashFree(s) && Split(s).Ok? && k < |Split(s).value| - 1
    ensures InnerSegment(Split(s).value[k]) && LastSegment(Split(s).value[k])
  {
    PrintSplit(s);
    ScanWithoutBackslash(s, 0, [], "");
    var seg := Split(s).value[k];
    assert seg[|seg| - 1] in seg;
  }

  lemma {:induction false} RawHitBreaksPrefixFree(rows: seq<MergedRow>)
    requires DistinctKeys(rows) && AllSplit(rows)
    requires forall n :: 0 <= n < |rows| ==> BackslashFree(rows[n].key)
    ensures RawHit(rows) ==> !PrefixFree(Entries(rows))
  {
    if RawHit(rows) {
      var n, i :| 0 <= n < |rows| && 1 <= i < |PathOf(rows[n])| && IsKey(rows, Join(PathOf(rows[n])[..i]));
      PrefixIsRawHit(rows, n, i);
      var m :| 0 <= m < |rows| && PathOf(rows[m]) == PathOf(rows[n])[..i];
      assert Entries(rows)[m].path < Entries(rows)[n].path;
    }
  }

  lemma {:induction false} PrefixesHitRaw(rows: seq<MergedRow>)
    requires DistinctKeys(rows) && AllSplit(rows)
    requires forall n :: 0 <= n < |rows| ==> BackslashFree(rows[n].key)
    ensures !PrefixFree(Entries(rows)) ==> RawHit(rows)
  {
    var es := Entries(rows);
    forall m, n | 0 <= m < |es| && 0 <= n < |es| && es[m].path < es[n].path ensures RawHit(rows) {
      var i := |PathOf(rows[m])|;
      SplitNonEmpty(rows[m].key);
      assert PathOf(rows[n])[..i] == PathOf(rows[m]);
      PrefixIsRawHit(rows, n, i);
    }
  }

  /** For distinct keys without backslashes: an error iff a key is malformed or a
      strict dotted prefix of another; never a panic; otherwise the exact object. */
  lemma {:induction false} PlainKeysExact(rows: seq<MergedRow>)
    requires DistinctKeys(rows)
    requires forall n :: 0 <= n < |rows| ==> BackslashFree(rows[n].key)
    ensures HelmConfigMap(rows).Failed? <==> !AllSplit(rows) || !PrefixFree(Entries(rows))
    ensures !HelmConfigMap(rows).Panicked?
    ensures HelmConfigMap(rows).Built? ==> AllSplit(rows) && Exact(HelmConfigMap(rows).tree, Entries(rows), |rows|)
  {
    MakeHelmConfigMapExact(rows);
    if AllSplit(rows) {
      RawHitBreaksPrefixFree(rows);
      PrefixesHitRaw(rows);
    }
  }

  /** With escaped dots the textual pre-scan errs both ways. `a\.b` and `a\.b.c`
      conflict, but are not caught: the build panics. `a.b` and `a\.b.c` do not
      conflict, but are rejected. */
  lemma {:induction false} EscapedKeysEscapeThePreScan(row: MergedRow)
    ensures HelmConfigMap([row.(key := "a\\.b"), row.(key := "a\\.b.c")]).Panicked?
    ensures HelmConfigMap([row.(key := "a.b"), row.(key := "a\\.b.c")]) == Failed(NotNestable("a.b"))
  {
    var x, y, z := row.(key := "a\\.b"), row.(key := "a\\.b.c"), row.(key := "a.b");
    ConcreteKeys();
    var bad := [x, y];
    MakeHelmConfigMapExact(bad);
    assert Entries(bad)[0].path < Entries(bad)[1].path;
    assert LeafInTheWay(Entries(bad), 2);
    assert ["a.b", "c"][..1] == ["a.b"];
    assert !RawHit(bad);
    var strict := [z, y];
    assert strict[0].key == Join(PathOf(y)[..1]);
    assert IsKey(strict, "a.b");
    assert HitFrom(strict, PathOf(z), 1).None? by {
      assert ["a", "b"][..1] == ["a"];
      assert !IsKey(strict, "a");
    }
    assert FirstConflict(strict, 0) == FirstConflict(strict, 1) == HitFrom(strict, PathOf(y), 1);
  }

  lemma {:induction false} ConcreteKeys()
    ensures Split("a\\.b") == Ok(["a.b"])
    ensures Split("a\\.b.c") == Ok(["a.b", "c"])
    ensures Split("a.b") == Ok(["a", "b"])
  {
    assert Escape("a.b") == "a\\.b" by {
      assert "a.b"[1..] == ".b" && ".b"[1..] == "b" && "b"[1..] == "";
    }
    EscapePlain("a");
    EscapePlain("b");
    EscapePlain("c");
    assert Print(["a.b"]) == "a\\.b";
    assert ["a.b", "c"][1..] == ["c"] && ["a", "b"][1..] == ["b"];
    assert Print(["a.b", "c"]) == "a\\.b.c" && Print(["a", "b"]) == "a.b";
    SplitPrint(["a.b"]);
    SplitPrint(["a.b", "c"]);
    SplitPrint(["a", "b"]);
  }
}
