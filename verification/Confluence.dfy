/** When the result of GenerateWith does not depend on Go's map order, exactly. */
module Confluence {
  import opened Basics
  import opened DotSplit
  import opened Tree
  import opened Computed

  /** Whatever the configuration and templates, all iteration orders agree, unless a failing
      and a panicking template are there side by side. */
  ghost predicate Confluent(vals: Values, kind: string) {
    forall target, render :: !Mixed(vals, kind, target, render) ==> OrdersAgree(vals, kind, target, render)
  }

  /** The key fails in every order: it is malformed or its template is empty. */
  predicate Refused(vals: Values, k: string)
    requires k in vals && vals[k].computed.Some?
  {
    Split(k).Err? || vals[k].computed.value == ""
  }

  ghost predicate NoneRefused(vals: Values, kind: string) {
    forall k :: Active(vals, kind, k) ==> !Refused(vals, k)
  }

  /** Every template renders to something that is not an object. */
  ghost predicate RendersLeaves(vals: Values, kind: string, render: Renderer) {
    forall k :: Active(vals, kind, k) ==>
      var v := ResultOf(vals, map[], render, k);
      v.Yields? && !v.value.Dict?
  }

  // ----- Longest paths first -----

  function Depth(k: string): nat {
    match Split(k)
    case Ok(p) => |p|
    case Err(_) => 0
  }

  predicate DeeperFirst(k: string, l: string) {
    Depth(k) >= Depth(l)
  }

  lemma {:induction false} DeepestFirstExists(vals: Values) returns (order: seq<string>)
    ensures Enumerates(order, vals) && SortedBy(order, DeeperFirst)
  {
    var keys := RangeKeysExist(vals.Keys);
    order := Sort(keys, DeeperFirst);
    SortSorted(keys, DeeperFirst);
    PermutationNoDuplicates(keys, order);
    forall k ensures k in order <==> k in vals {
      assert k in order <==> k in multiset(order);
      assert k in keys <==> k in multiset(keys);
    }
  }

  /** Leaves are only where a visited key put one. */
  ghost predicate LeavesFrom(o: Object, vals: Values, kind: string, order: seq<string>, i: nat)
    requires i <= |order|
  {
    forall p :: ShapeAt(Dict(o), p).Leaf? ==> LeafFrom(vals, kind, order, i, p)
  }

  ghost predicate LeafFrom(vals: Values, kind: string, order: seq<string>, i: nat, p: Path)
    requires i <= |order|
  {
    exists j :: 0 <= j < i && Active(vals, kind, order[j]) && Split(order[j]) == Ok(p)
  }

  lemma {:induction false} AddedLeaves(o: Object, key: Path, v: Any, p: Path)
    requires key != [] && !v.Dict? && AddToMap(o, key, Yields(v)).Ok?
    ensures ShapeAt(Dict(AddToMap(o, key, Yields(v)).value), p).Leaf? ==> ShapeAt(Dict(o), p).Leaf? || p == key
  {
    AddShape(o, key, v, p);
    if key < p && ShapeAt(Dict(o), key) == Absent {
      AddValue(o, key, v);
      BelowLeaf(Dict(AddToMap(o, key, Yields(v)).value), key, p);
    }
  }

  lemma {:induction false} EmptyHasNoLeaves(p: Path)
    ensures !ShapeAt(Dict(map[]), p).Leaf?
  {
    EmptyObject(p);
  }

  ghost function ResultAt(vals: Values, kind: string, render: Renderer, order: seq<string>, i: nat): Result<Object,
      GenerateError>
    requires i <= |order|
  {
    Step(Ok(map[]), vals, kind, map[], render, order, i)
  }

  lemma {:induction false} EarlierIsDeeper(vals: Values, kind: string, order: seq<string>, i: nat, p: Path)
    requires i < |order| && SortedBy(order, DeeperFirst) && LeafFrom(vals, kind, order, i, p)
    ensures |p| >= Depth(order[i])
  {
    var j :| 0 <= j < i && Active(vals, kind, order[j]) && Split(order[j]) == Ok(p);
    assert DeeperFirst(order[j], order[i]);
  }

  /** Visiting deeper keys first, no key finds a leaf in its way. */
  lemma {:induction false} DeepestFirstStep(vals: Values, kind: string, render: Renderer, order: seq<string>, i: nat)
    requires NoneRefused(vals, kind) && RendersLeaves(vals, kind, render) && SortedBy(order, DeeperFirst)
    requires i < |order| && ResultAt(vals, kind, render, order, i).Ok?
    requires LeavesFrom(ResultAt(vals, kind, render, order, i).value, vals, kind, order, i)
    ensures ResultAt(vals, kind, render, order, i + 1).Ok?
    ensures LeavesFrom(ResultAt(vals, kind, render, order, i + 1).value, vals, kind, order, i + 1)
  {
    var o, k := ResultAt(vals, kind, render, order, i).value, order[i];
    if Active(vals, kind, k) {
      SplitNonEmpty(k);
      var key, v := Split(k).value, ValueOf(vals, map[], render, k);
      forall q | [] < q < key ensures !ShapeAt(Dict(o), q).Leaf? {
        if ShapeAt(Dict(o), q).Leaf? {
          EarlierIsDeeper(vals, kind, order, i, q);
        }
      }
      AddFails(o, key, Yields(v));
      var after := AddToMap(o, key, Yields(v)).value;
      assert ResultAt(vals, kind, render, order, i + 1) == Ok(after);
      forall p | ShapeAt(Dict(after), p).Leaf? ensures LeafFrom(vals, kind, order, i + 1, p) {
        AddedLeaves(o, key, v, p);
        if p != key {
          LeafFromLater(vals, kind, order, i, p);
        }
      }
    } else {
      forall p | ShapeAt(Dict(o), p).Leaf? ensures LeafFrom(vals, kind, order, i + 1, p) {
        LeafFromLater(vals, kind, order, i, p);
      }
    }
  }

  lemma {:induction false} LeafFromLater(vals: Values, kind: string, order: seq<string>, i: nat, p: Path)
    requires i < |order| && LeafFrom(vals, kind, order, i, p)
    ensures LeafFrom(vals, kind, order, i + 1, p)
  {}

  lemma {:induction false} DeepestFirstSucceeds(vals: Values, kind: string, render: Renderer, order: seq<string>,
                                                i: nat)
    requires NoneRefused(vals, kind) && RendersLeaves(vals, kind, render) && SortedBy(order, DeeperFirst) &&
             i <= |order|
    ensures ResultAt(vals, kind, render, order, i).Ok?
    ensures LeavesFrom(ResultAt(vals, kind, render, order, i).value, vals, kind, order, i)
  {
    if i == 0 {
      forall p ensures !ShapeAt(Dict(map[]), p).Leaf? {
        EmptyHasNoLeaves(p);
      }
    } else {
      DeepestFirstSucceeds(vals, kind, render, order, i - 1);
      DeepestFirstStep(vals, kind, render, order, i - 1);
    }
  }

  // ----- The outer key first -----

  lemma {:induction false} FillEmpty(path: Path, v: Any)
    requires path != []
    ensures var r := AddToMap(map[], path, Yields(v));
            r.Ok? && At(Dict(r.value), path) == Some(v)
  {
    AddFails(map[], path, Yields(v));
    forall q: Path ensures ShapeAt(Dict(map[]), q) == if q == [] then Inner else Absent {
      EmptyObject(q);
    }
    assert !LeafOnTheWay(map[], path);
    AddValue(map[], path, v);
  }

  lemma {:induction false} OuterFirstFails(vals: Values, kind: string, render: Renderer, order: seq<string>)
    requires RendersLeaves(vals, kind, render) && |order| >= 2
    requires Active(vals, kind, order[0]) && Active(vals, kind, order[1]) && Split(order[0]).Ok? && Split(order[1]).Ok?
    requires Split(order[0]).value < Split(order[1]).value
    ensures Generated(vals, kind, map[], render, order).Err?
  {
    var p, q := Split(order[0]).value, Split(order[1]).value;
    SplitNonEmpty(order[0]);
    var v, w := ResultOf(vals, map[], render, order[0]), ResultOf(vals, map[], render, order[1]);
    FillEmpty(p, v.value);
    var first := AddToMap(map[], p, v).value;
    assert ResultAt(vals, kind, render, order, 0) == Ok(map[]);
    assert ResultAt(vals, kind, render, order, 1) == Ok(first);
    assert ShapeAt(Dict(first), p).Leaf?;
    AddFails(first, q, w);
    assert ResultAt(vals, kind, render, order, 2).Err?;
    StepErr(Ok(map[]), vals, kind, map[], render, order, 2);
  }

  lemma {:induction false} StartingWith(vals: Values, k: string, l: string) returns (order: seq<string>)
    requires k in vals && l in vals && k != l
    ensures Enumerates(order, vals) && |order| >= 2 && order[0] == k && order[1] == l
  {
    var rest := RangeKeysExist(vals.Keys - {k, l});
    order := [k, l] + rest;
  }

  // ----- Main results -----

  /** With one computed key inside another the order shows, whatever else is computed:
      from an empty configuration, and templates that do not render objects, visiting the
      outer key and then the inner one fails, visiting deeper keys first succeeds. */
  lemma {:induction false} NestedKeysDependOnOrder(vals: Values, kind: string, render: Renderer, outer: string,
                                                   inner: string)
    returns (failing: seq<string>, succeeding: seq<string>)
    requires NoneRefused(vals, kind) && RendersLeaves(vals, kind, render)
    requires Active(vals, kind, outer) && Active(vals, kind, inner) && Split(outer).value < Split(inner).value
    ensures Enumerates(failing, vals) && Generated(vals, kind, map[], render, failing).Err?
    ensures Enumerates(succeeding, vals) && Generated(vals, kind, map[], render, succeeding).Ok?
  {
    failing := StartingWith(vals, outer, inner);
    OuterFirstFails(vals, kind, render, failing);
    succeeding := DeepestFirstExists(vals);
    DeepestFirstSucceeds(vals, kind, render, succeeding, |succeeding|);
  }

  /** The result is independent of the map order, for every configuration and all
      templates, exactly if no computed key lies inside another; or if one is malformed or
      has an empty template, which fails every order. */
  lemma {:induction false} ConfluentExactly(vals: Values, kind: string)
    ensures Confluent(vals, kind) <==> NoneNested(vals, kind) || !NoneRefused(vals, kind)
  {
    if NoneNested(vals, kind) {
      forall target, render | !Mixed(vals, kind, target, render) ensures OrdersAgree(vals, kind, target, render) {
        GenerateConfluent(vals, kind, target, render);
      }
    } else if NoneRefused(vals, kind) {
      var k, l :| Active(vals, kind, k) && Active(vals, kind, l) && Split(k).value < Split(l).value;
      NestedIsNotConfluent(vals, kind, k, l);
    } else {
      forall target, render, order |
        Enumerates(order, vals) && !Mixed(vals, kind, target, render)
        ensures var r := Generated(vals, kind, target, render, order); r.Err? && !r.error.TemplatePanic?
      {
        RefusedFails(vals, kind, target, render, order);
      }
    }
  }

  lemma {:induction false} NestedIsNotConfluent(vals: Values, kind: string, outer: string, inner: string)
    requires NoneRefused(vals, kind)
    requires Active(vals, kind, outer) && Active(vals, kind, inner) && Split(outer).value < Split(inner).value
    ensures !Confluent(vals, kind)
  {
    var render: Renderer := (o, t) => Yields(Text(""));
    var failing, succeeding := NestedKeysDependOnOrder(vals, kind, render, outer, inner);
    assert !SameOutcome(Generated(vals, kind, map[], render, failing),
                        Generated(vals, kind, map[], render, succeeding));
    assert !OrdersAgree(vals, kind, map[], render);
    assert !SomePanics(vals, kind, map[], render);
  }

  /** A refused key fails every order, and with an error unless some template panics. */
  lemma {:induction false} RefusedFails(vals: Values, kind: string, target: Object, render: Renderer,
                                        order: seq<string>)
    requires !NoneRefused(vals, kind) && Enumerates(order, vals)
    ensures Generated(vals, kind, target, render, order).Err?
    ensures SomeFails(vals, kind, target, render)
    ensures Generated(vals, kind, target, render, order) == Err(TemplatePanic) ==> Mixed(vals, kind, target, render)
  {
    var k :| Active(vals, kind, k) && Refused(vals, k);
    assert Fails(vals, target, render, k);
    var i :| 0 <= i < |order| && order[i] == k;
    StuckFails(vals, kind, target, render, order, i);
    if Generated(vals, kind, target, render, order) == Err(TemplatePanic) {
      PanicHasCause(vals, kind, target, render, order, |order|);
    }
  }
}
