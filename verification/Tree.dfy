/** The nested `map[string]any` values that Helm receives, addressed by paths. */
module Tree {
  import opened Basics
  import opened DotSplit

  /** `Null` is Go's nil, `Text` a string, `Scalar` a number or boolean, `Raw` a stored JSON
      document, `Strings` a map[string]string, which Go does not take for an object. */
  datatype Any =
    | Null
    | Text(text: string)
    | Scalar(literal: string)
    | Raw(json: string)
    | Strings(strings: map<string, string>)
    | Dict(entries: Object)

  type Object = map<string, Any>

  function At(v: Any, p: Path): Option<Any>
    decreases |p|
  {
    if p == [] then Some(v)
    else if v.Dict? && p[0] in v.entries then At(v.entries[p[0]], p[1..])
    else None
  }

  function Lookup(o: Object, p: Path): Option<Any> {
    At(Dict(o), p)
  }

  /** What a path shows without descending: nothing, an object, or a leaf. */
  datatype Shape = Absent | Inner | Leaf(value: Any)

  function ShapeAt(v: Any, p: Path): Shape {
    match At(v, p)
    case None => Absent
    case Some(Dict(_)) => Inner
    case Some(leaf) => Leaf(leaf)
  }

  lemma {:induction false} AtKey(v: Any, k: string, p: Path)
    ensures At(v, [k] + p) == if v.Dict? && k in v.entries then At(v.entries[k], p) else None
  {
    assert ([k] + p)[1..] == p;
  }

  /** A value is determined by the shapes along all paths. */
  lemma {:induction false} SameShapeSameValue(a: Any, b: Any)
    requires forall p :: ShapeAt(a, p) == ShapeAt(b, p)
    ensures a == b
  {
    assert ShapeAt(a, []) == ShapeAt(b, []);
    if a.Dict? {
      forall k ensures k in a.entries <==> k in b.entries {
        AtKey(a, k, []);
        AtKey(b, k, []);
        assert ShapeAt(a, [k] + []) == ShapeAt(b, [k] + []);
      }
      forall k | k in a.entries ensures a.entries[k] == b.entries[k] {
        forall p ensures ShapeAt(a.entries[k], p) == ShapeAt(b.entries[k], p) {
          AtKey(a, k, p);
          AtKey(b, k, p);
          assert ShapeAt(a, [k] + p) == ShapeAt(b, [k] + p);
        }
        SameShapeSameValue(a.entries[k], b.entries[k]);
      }
      assert a.entries == b.entries;
    }
  }

  /** Nothing lies below a leaf or an absent path. */
  lemma {:induction false} BelowLeaf(v: Any, p: Path, q: Path)
    requires p < q && !ShapeAt(v, p).Inner?
    ensures ShapeAt(v, q) == Absent
  {
    if p != [] && v.Dict? && p[0] in v.entries {
      assert p[0] == q[0];
      BelowLeaf(v.entries[p[0]], p[1..], q[1..]);
    }
  }

  lemma {:induction false} AtStep(o: Object, p: Path)
    requires p != []
    ensures At(Dict(o), p) == if p[0] in o then At(o[p[0]], p[1..]) else None
  {}

  lemma {:induction false} EmptyObject(p: Path)
    ensures ShapeAt(Dict(map[]), p) == if p == [] then Inner else Absent
  {}

  lemma {:induction false} PrefixStep(p: Path, q: Path)
    requires p != [] && q != []
    ensures p == q <==> p[0] == q[0] && p[1..] == q[1..]
    ensures p < q <==> p[0] == q[0] && p[1..] < q[1..]
    ensures p <= q <==> p[0] == q[0] && p[1..] <= q[1..]
  {
    assert p == [p[0]] + p[1..] && q == [q[0]] + q[1..];
    if p[0] == q[0] && p[1..] <= q[1..] {
      forall i | 0 <= i < |p| ensures p[i] == q[i] {
        if i > 0 {
          assert p[1..][i - 1] == q[1..][i - 1];
        }
      }
    }
  }

  lemma {:induction false} AtCompose(v: Any, p: Path, q: Path)
    requires p <= q && At(v, p).Some?
    ensures At(v, q) == At(At(v, p).value, q[|p|..])
    decreases |p|
  {
    if p != [] {
      PrefixStep(p, q);
      AtCompose(v.entries[p[0]], p[1..], q[1..]);
      assert q[1..][|p| - 1..] == q[|p|..];
    } else {
      assert q[0..] == q;
    }
  }
}
