/** ValidateFields: which required fields are reported as missing, and which of those that
    are missing it overlooks. */
module RequiredFields {
  import opened Basics
  import opened DotSplit
  import opened ConfigMerge
  import opened Tree
  import opened Computed

  // ----- Required fields -----

  predicate Required(vals: Values, kind: string, field: string) {
    field in vals && vals[field].required && kind !in vals[field].ignoreKinds
  }

  /** The walk of ValidateFields: below a value that is not an object it goes on in the
      same object. */
  predicate Unset(parent: Object, parts: Path)
    decreases |parts|
  {
    if parts == [] then false
    else if parts[0] !in parent || parent[parts[0]] == Null then true
    else if |parts| == 1 then false
    else if parent[parts[0]].Dict? then Unset(parent[parts[0]].entries, parts[1..])
    else Unset(parent, parts[1..])
  }

  /** A required field that no row configures. */
  predicate Needed(vals: Values, kind: string, rows: seq<MergedRow>, field: string) {
    Required(vals, kind, field) && forall i :: 0 <= i < |rows| ==> rows[i].key != field
  }

  predicate Missing(vals: Values, kind: string, rows: seq<MergedRow>, mp: Object, field: string) {
    Needed(vals, kind, rows, field) && Split(field).Ok? && Unset(mp, Split(field).value)
  }

  ghost predicate IsMissingList(fields: seq<string>, vals: Values, kind: string, rows: seq<MergedRow>, mp: Object) {
    StrictlySorted(fields) && forall f :: f in fields <==> Missing(vals, kind, rows, mp, f)
  }

  method ValidateFields(vals: Values, kind: string, rows: seq<MergedRow>, mp: Object) returns (missing: seq<string>)
    ensures IsMissingList(missing, vals, kind, rows, mp)
  {
    var order := RangeKeys(vals.Keys);
    missing := [];
    for n := 0 to |order|
      invariant NoDuplicates(missing)
      invariant forall f :: f in missing <==> f in order[..n] && Missing(vals, kind, rows, mp, f)
    {
      assert order[..n + 1] == order[..n] + [order[n]];
      var field := order[n];
      assert field in vals.Keys;
      if !Required(vals, kind, field) {
        continue;
      }
      var present := false;
      for i := 0 to |rows|
        invariant present <==> exists j :: 0 <= j < i && rows[j].key == field
      {
        if rows[i].key == field {
          present := true;
        }
      }
      if present {
        continue;
      }
      var split := SmartDotSplit(field);
      var unset := false;
      if split.Ok? {
        unset := WalkUnset(mp, split.value);
      }
      if unset {
        assert field !in missing;
        missing := missing + [field];
      }
    }
    assert order[..|order|] == order;
    SortStrings(missing);
    missing := Sort(missing, StrLeq);
  }

  method WalkUnset(mp: Object, parts: Path) returns (unset: bool)
    ensures unset == Unset(mp, parts)
  {
    var parent := mp;
    for i := 0 to |parts|
      invariant Unset(mp, parts) == Unset(parent, parts[i..])
    {
      assert parts[i..][1..] == parts[i + 1..];
      var part := parts[i];
      if part !in parent || parent[part] == Null {
        return true;
      }
      if i == |parts| - 1 {
        return false;
      }
      if !parent[part].Dict? {
        continue;
      }
      parent := parent[part].entries;
    }
    return false;
  }

  // ----- What the walk finds -----

  /** The field has no value: what the walk is for. */
  predicate NoValue(mp: Object, parts: Path) {
    Lookup(mp, parts) == None || Lookup(mp, parts) == Some(Null)
  }

  /** A value that is neither an object nor nil; the walk does not stop at it. */
  predicate ScalarAt(mp: Object, p: Path) {
    ShapeAt(Dict(mp), p).Leaf? && ShapeAt(Dict(mp), p) != Leaf(Null)
  }

  /** What is reported has no value, in every object. */
  lemma {:induction false} ReportedHasNoValue(mp: Object, parts: Path)
    requires Unset(mp, parts)
    ensures NoValue(mp, parts)
    decreases |parts|
  {
    AtStep(mp, parts);
    if |parts| > 1 && parts[0] in mp && mp[parts[0]].Dict? {
      ReportedHasNoValue(mp[parts[0]].entries, parts[1..]);
    }
  }

  lemma {:induction false} ScalarStep(mp: Object, p: Path)
    requires p != [] && p[0] in mp && mp[p[0]].Dict?
    ensures ScalarAt(mp, p) <==> p[1..] != [] && ScalarAt(mp[p[0]].entries, p[1..])
  {
    AtStep(mp, p);
  }

  /** The segments from n on are looked up in the object that holds the scalar at n. */
  ghost predicate Misled(mp: Object, parts: Path, n: nat) {
    && 0 < n < |parts| && ScalarAt(mp, parts[..n])
    && Lookup(mp, parts[..n - 1]).Some? && Lookup(mp, parts[..n - 1]).value.Dict?
    && !Unset(Lookup(mp, parts[..n - 1]).value.entries, parts[n..])
  }

  lemma {:induction false} MisledStep(mp: Object, parts: Path, n: nat)
    requires 1 < n && |parts| > 1 && parts[0] in mp && mp[parts[0]].Dict?
    ensures Misled(mp, parts, n) <==> Misled(mp[parts[0]].entries, parts[1..], n - 1)
  {
    if n < |parts| {
      var sub := mp[parts[0]].entries;
      assert parts[..n][1..] == parts[1..][..n - 1];
      assert parts[..n - 1][1..] == parts[1..][..n - 2];
      assert parts[n..] == parts[1..][n - 1..];
      ScalarStep(mp, parts[..n]);
      AtStep(mp, parts[..n - 1]);
    }
  }

  lemma {:induction false} MisledAtOnce(mp: Object, parts: Path)
    requires |parts| > 1
    ensures Misled(mp, parts, 1) <==>
            parts[0] in mp && mp[parts[0]] != Null && !mp[parts[0]].Dict? && !Unset(mp, parts[1..])
  {
    assert parts[..1][1..] == [];
    AtStep(mp, parts[..1]);
    assert parts[..0] == [];
  }

  ghost predicate IsMisled(mp: Object, parts: Path) {
    exists n :: Misled(mp, parts, n)
  }

  lemma {:induction false} MisledBelow(mp: Object, parts: Path)
    requires |parts| > 1 && parts[0] in mp && mp[parts[0]].Dict?
    ensures IsMisled(mp, parts) <==> IsMisled(mp[parts[0]].entries, parts[1..])
  {
    MisledAtOnce(mp, parts);
    if n: nat :| Misled(mp, parts, n) {
      MisledStep(mp, parts, n);
    }
    if n: nat :| Misled(mp[parts[0]].entries, parts[1..], n) {
      MisledStep(mp, parts, n + 1);
    }
  }

  lemma {:induction false} NothingBelow(mp: Object, parts: Path, n: nat)
    requires 1 < n <= |parts| && !(parts[0] in mp && mp[parts[0]].Dict?)
    ensures !ScalarAt(mp, parts[..n])
  {
    AtStep(mp, parts[..n]);
    assert parts[..n][1..] != [];
  }

  /** A field without a value is overlooked exactly if a scalar lies on the way to it, and
      the walk, going on in the object that holds the scalar, finds the remaining segments
      there. */
  lemma {:induction false} OverlookedExactly(mp: Object, parts: Path)
    requires parts != []
    ensures NoValue(mp, parts) && !Unset(mp, parts) <==> IsMisled(mp, parts)
    decreases |parts|
  {
    AtStep(mp, parts);
    if |parts| > 1 {
      MisledAtOnce(mp, parts);
      if parts[0] in mp && mp[parts[0]].Dict? {
        OverlookedExactly(mp[parts[0]].entries, parts[1..]);
        MisledBelow(mp, parts);
      } else {
        forall n: nat | 1 < n < |parts| ensures !ScalarAt(mp, parts[..n]) {
          NothingBelow(mp, parts, n);
        }
      }
    }
  }

  /** Where no scalar is on the way, the walk reports a field iff it has no value. */
  lemma {:induction false} UnsetMeaning(mp: Object, parts: Path)
    requires parts != []
    requires forall q :: [] < q < parts ==> !ScalarAt(mp, q)
    ensures Unset(mp, parts) <==> NoValue(mp, parts)
  {
    OverlookedExactly(mp, parts);
    if Unset(mp, parts) {
      ReportedHasNoValue(mp, parts);
    }
    forall n: nat | 0 < n < |parts| ensures !ScalarAt(mp, parts[..n]) {
      assert [] < parts[..n] < parts;
    }
  }

  lemma {:induction false} OverlooksRepeated(mp: Object, p: Path)
    requires p != [] && ScalarAt(mp, p)
    ensures NoValue(mp, p + [p[|p| - 1]]) && !Unset(mp, p + [p[|p| - 1]])
    decreases |p|
  {
    var parts := p + [p[|p| - 1]];
    AtStep(mp, p);
    AtStep(mp, parts);
    assert parts[1..] == p[1..] + [p[|p| - 1]];
    if |p| > 1 {
      ScalarStep(mp, p);
      OverlooksRepeated(mp[p[0]].entries, p[1..]);
    }
  }

  ghost predicate ReportsExactly(mp: Object) {
    forall parts: Path :: parts != [] ==> (Unset(mp, parts) <==> NoValue(mp, parts))
  }

  /** The walk is right for all fields of an object exactly if the object holds no scalar:
      one at a path is overlooked at that path with its last segment repeated. */
  lemma {:induction false} RightForAllFields(mp: Object)
    ensures ReportsExactly(mp) <==> forall p: Path :: p != [] ==> !ScalarAt(mp, p)
  {
    if ReportsExactly(mp) {
      forall p: Path | p != [] ensures !ScalarAt(mp, p) {
        if ScalarAt(mp, p) {
          OverlooksRepeated(mp, p);
        }
      }
    }
    if forall p: Path :: p != [] ==> !ScalarAt(mp, p) {
      forall parts: Path | parts != [] ensures Unset(mp, parts) <==> NoValue(mp, parts) {
        UnsetMeaning(mp, parts);
      }
    }
  }

  /** The field has to be set: it is required, not ignored for the kind, and no row
      configures it. */
  predicate HasToBeSet(vals: Values, kind: string, rows: seq<MergedRow>, f: string) {
    && f in vals && vals[f].required && kind !in vals[f].ignoreKinds
    && forall row :: row in rows ==> row.key != f
  }

  /** The list has every field that has to be set and has no value, in order, and no other. */
  ghost predicate ListsAllMissing(fields: seq<string>, vals: Values, kind: string, rows: seq<MergedRow>, mp: Object) {
    && (forall f :: f in fields <==> HasToBeSet(vals, kind, rows, f) && (Split(f).Ok? ==> NoValue(mp, Split(f).value)))
    && (forall i, j :: 0 <= i < j < |fields| ==> StrLess(fields[i], fields[j]))
  }

  /** What ValidateFields returns is that list exactly if every field that has to be set is
      well formed and the walk is not misled on the way to it. */
  lemma {:induction false} ListExactly(fields: seq<string>, vals: Values, kind: string, rows: seq<MergedRow>,
                                       mp: Object)
    requires IsMissingList(fields, vals, kind, rows, mp)
    ensures ListsAllMissing(fields, vals, kind, rows, mp) <==>
            forall f :: HasToBeSet(vals, kind, rows, f) ==> Split(f).Ok? && !IsMisled(mp, Split(f).value)
  {
    forall f
      ensures (f in fields <==> HasToBeSet(vals, kind, rows, f) && (Split(f).Ok? ==> NoValue(mp, Split(f).value))) <==>
              (HasToBeSet(vals, kind, rows, f) ==> Split(f).Ok? && !IsMisled(mp, Split(f).value))
    {
      FieldExactly(fields, vals, kind, rows, mp, f);
    }
  }

  lemma {:induction false} FieldExactly(fields: seq<string>, vals: Values, kind: string, rows: seq<MergedRow>,
                                        mp: Object, f: string)
    requires IsMissingList(fields, vals, kind, rows, mp)
    ensures (f in fields <==> HasToBeSet(vals, kind, rows, f) && (Split(f).Ok? ==> NoValue(mp, Split(f).value))) <==>
            (HasToBeSet(vals, kind, rows, f) ==> Split(f).Ok? && !IsMisled(mp, Split(f).value))
  {
    assert f in fields <==> Missing(vals, kind, rows, mp, f);
    assert HasToBeSet(vals, kind, rows, f) <==> Needed(vals, kind, rows, f);
    if Split(f).Ok? {
      SplitNonEmpty(f);
      OverlookedExactly(mp, Split(f).value);
      if Unset(mp, Split(f).value) {
        ReportedHasNoValue(mp, Split(f).value);
      }
    }
  }

  /** An object without the field `a.b` for which it is not reported. */
  lemma {:induction false} WalkPassesThroughLeaves()
    ensures var mp: Object := map["a" := Text("x"), "b" := Text("y")];
            !Unset(mp, ["a", "b"]) && Lookup(mp, ["a", "b"]) == None
  {
    assert ["a", "b"][1..] == ["b"];
  }
}
