/** GenerateWith: filling the computed values into the configuration object, in the
    order in which Go happens to iterate over the feature's values. Rendering a template
    depends on nothing but the configuration and the template. */
module Computed {
  import opened Basics
  import opened DotSplit
  import opened Tree

  /** A declared value of a feature. */
  datatype ValueSpec = ValueSpec(config: bool, computed: Option<string>, ignoreKinds: seq<string>, required: bool)

  type Values = map<string, ValueSpec>

  /** How rendering one template ends: with a value, with an error, or with a panic, where
      repairMapAny meets a mapping key that is not a string. */
  datatype TemplateResult = Yields(value: Any) | Errs | Crashes

  /** Executing a template that is not empty, decoding its output and repairing the maps. */
  type Renderer = (Object, string) -> TemplateResult

  /** What ends the generation early: an error, or the panic of a template. */
  datatype GenerateError = BadKey(error: SplitError) | NotNestable(key: string) | RenderFailed | TemplatePanic

  // ----- The implementation -----

  /** renderTemplate: an empty template is refused before anything is executed. */
  function RenderTemplate(render: Renderer, configs: Object, template: string): TemplateResult {
    if template == "" then Errs else render(configs, template)
  }

  function AddToMap(target: Object, key: Path, rendered: TemplateResult): Result<Object, GenerateError>
    requires key != []
    decreases |key|
  {
    var k := key[0];
    if |key| > 1 then
      var t := if k in target then target[k] else Dict(map[]);
      if !t.Dict? then Err(NotNestable(k))
      else
        match AddToMap(t.entries, key[1..], rendered)
        case Err(e) => Err(e)
        case Ok(sub) => Ok(target[k := Dict(sub)])
    else if rendered.Errs? then Err(RenderFailed)
    else if rendered.Crashes? then Err(TemplatePanic)
    else if k in target then Ok(target)
    else Ok(target[k := rendered.value])
  }

  predicate Active(vals: Values, kind: string, k: string) {
    k in vals && vals[k].computed.Some? && kind !in vals[k].ignoreKinds
  }

  // ----- The loop as a function of the iteration order -----

  /** The object after visiting the first i keys of an iteration order. */
  ghost function Step(start: Result<Object, GenerateError>, vals: Values, kind: string, configs: Object,
                      render: Renderer, order: seq<string>, i: nat): Result<Object, GenerateError>
    requires i <= |order|
  {
    if i == 0 then start
    else
      var before := Step(start, vals, kind, configs, render, order, i - 1);
      var k := order[i - 1];
      if before.Err? || !Active(vals, kind, k) then before
      else match Split(k)
        case Err(e) => Err(BadKey(e))
        case Ok(keys) =>
          SplitNonEmpty(k);
          AddToMap(before.value, keys, RenderTemplate(render, configs, vals[k].computed.value))
  }

  ghost function Generated(vals: Values, kind: string, target: Object, render: Renderer,
                           order: seq<string>): Result<Object, GenerateError> {
    Step(Ok(target), vals, kind, target, render, order, |order|)
  }

  lemma {:induction false} StepErr(start: Result<Object, GenerateError>, vals: Values, kind: string, configs: Object,
                                   render: Renderer, order: seq<string>, i: nat)
    requires i <= |order| && Step(start, vals, kind, configs, render, order, i).Err?
    ensures Step(start, vals, kind, configs, render, order, |order|) ==
            Step(start, vals, kind, configs, render, order, i)
    decreases |order| - i
  {
    if i < |order| {
      StepErr(start, vals, kind, configs, render, order, i + 1);
    }
  }

  // ----- What the loop is for -----

  ghost predicate LeafOnTheWay(o: Object, p: Path) {
    exists q :: [] < q < p && ShapeAt(Dict(o), q).Leaf?
  }

  /** What the key's template gives on the configuration. */
  function ResultOf(vals: Values, target: Object, render: Renderer, k: string): TemplateResult
    requires k in vals && vals[k].computed.Some?
  {
    RenderTemplate(render, target, vals[k].computed.value)
  }

  /** The key's template is reached: its path can be walked in the configuration. */
  ghost predicate Reached(target: Object, k: string) {
    Split(k).Ok? && !LeafOnTheWay(target, Split(k).value)
  }

  /** The key ends the generation with an error, whatever else is. */
  ghost predicate Fails(vals: Values, target: Object, render: Renderer, k: string)
    requires k in vals && vals[k].computed.Some?
  {
    !Reached(target, k) || ResultOf(vals, target, render, k).Errs?
  }

  /** The key ends the generation with a panic. */
  ghost predicate Panics(vals: Values, target: Object, render: Renderer, k: string)
    requires k in vals && vals[k].computed.Some?
  {
    Reached(target, k) && ResultOf(vals, target, render, k).Crashes?
  }

  /** The key cannot be filled in, whatever else is. */
  ghost predicate Stuck(vals: Values, target: Object, render: Renderer, k: string)
    requires k in vals && vals[k].computed.Some?
  {
    Fails(vals, target, render, k) || Panics(vals, target, render, k)
  }

  ghost predicate SomeFails(vals: Values, kind: string, target: Object, render: Renderer) {
    exists k :: Active(vals, kind, k) && Fails(vals, target, render, k)
  }

  ghost predicate SomePanics(vals: Values, kind: string, target: Object, render: Renderer) {
    exists k :: Active(vals, kind, k) && Panics(vals, target, render, k)
  }

  /** One key ends the generation with an error and another with a panic, so that the first
      to be visited decides. */
  ghost predicate Mixed(vals: Values, kind: string, target: Object, render: Renderer) {
    SomeFails(vals, kind, target, render) && SomePanics(vals, kind, target, render)
  }

  /** No computed key lies inside another one. */
  ghost predicate NoneNested(vals: Values, kind: string) {
    forall k, l :: Active(vals, kind, k) && Active(vals, kind, l) && Split(k).Ok? && Split(l).Ok? ==>
      !(Split(k).value < Split(l).value)
  }

  /** Keys that are to be filled in and can be. */
  ghost predicate Fillable(vals: Values, kind: string, target: Object, render: Renderer, k: string) {
    Active(vals, kind, k) && !Stuck(vals, target, render, k)
  }

  ghost function ValueOf(vals: Values, target: Object, render: Renderer, k: string): Any
    requires k in vals && vals[k].computed.Some? && ResultOf(vals, target, render, k).Yields?
  {
    ResultOf(vals, target, render, k).value
  }

  ghost predicate CanFill(vals: Values, kind: string, target: Object, render: Renderer, done: set<string>) {
    forall k :: k in done ==> Fillable(vals, kind, target, render, k)
  }

  /** The rendered value of key k, placed at its path, covers path p. */
  ghost predicate Covers(target: Object, k: string, p: Path)
    requires Split(k).Ok?
  {
    Split(k).value <= p && ShapeAt(Dict(target), Split(k).value) == Absent
  }

  /** Everything that was there is unchanged; every other path of a key in `done` holds
      its whole rendered value; and the only other nodes are objects on the way there. */
  ghost predicate Filled(result: Object, vals: Values, kind: string, target: Object, render: Renderer,
                         done: set<string>)
    requires CanFill(vals, kind, target, render, done)
  {
    && (forall p :: ShapeAt(Dict(target), p) != Absent ==> ShapeAt(Dict(result), p) == ShapeAt(Dict(target), p))
    && (forall k :: k in done && ShapeAt(Dict(target), Split(k).value) == Absent ==>
          At(Dict(result), Split(k).value) == Some(ValueOf(vals, target, render, k)))
    && (forall p :: ShapeAt(Dict(target), p) == Absent && (forall k :: k in done ==> !Covers(target, k, p)) ==>
          ShapeAt(Dict(result), p) == if exists k :: k in done && p < Split(k).value then Inner else Absent)
  }

  // ----- Filling in one key -----

  lemma {:induction false} AddShape(o: Object, key: Path, v: Any, p: Path)
    requires key != [] && AddToMap(o, key, Yields(v)).Ok?
    ensures ShapeAt(Dict(o), p) != Absent ==> ShapeAt(Dict(AddToMap(o, key, Yields(v)).value), p) == ShapeAt(Dict(o), p)
    ensures ShapeAt(Dict(o), p) == Absent && p < key ==> ShapeAt(Dict(AddToMap(o, key, Yields(v)).value), p) == Inner
    ensures ShapeAt(Dict(o), p) == Absent && !(p < key) && !(key <= p && ShapeAt(Dict(o), key) == Absent) ==>
              ShapeAt(Dict(AddToMap(o, key, Yields(v)).value), p) == Absent
    decreases |key|
  {
    var k := key[0];
    var after := AddToMap(o, key, Yields(v)).value;
    if p != [] {
      PrefixStep(p, key);
      PrefixStep(key, p);
      AtStep(o, p);
      AtStep(after, p);
      AtStep(o, key);
      if p[0] != k {
        assert p[0] in after <==> p[0] in o;
      } else if |key| == 1 {
        assert key[1..] == [] && key[1..] <= p[1..];
      } else {
        var sub := if k in o then o[k].entries else map[];
        AddShape(sub, key[1..], v, p[1..]);
        EmptyObject(p[1..]);
        EmptyObject(key[1..]);
      }
    }
  }

  lemma {:induction false} AddValue(o: Object, key: Path, v: Any)
    requires key != [] && AddToMap(o, key, Yields(v)).Ok? && ShapeAt(Dict(o), key) == Absent
    ensures At(Dict(AddToMap(o, key, Yields(v)).value), key) == Some(v)
    decreases |key|
  {
    AtStep(o, key);
    AtStep(AddToMap(o, key, Yields(v)).value, key);
    if |key| > 1 {
      EmptyObject(key[1..]);
      AddValue(if key[0] in o then o[key[0]].entries else map[], key[1..], v);
    } else {
      assert key[1..] == [];
    }
  }

  lemma {:induction false} AddFails(o: Object, key: Path, rendered: TemplateResult)
    requires key != []
    ensures AddToMap(o, key, rendered).Err? <==> !rendered.Yields? || LeafOnTheWay(o, key)
    ensures AddToMap(o, key, rendered) == Err(TemplatePanic) <==> rendered.Crashes? && !LeafOnTheWay(o, key)
    decreases |key|
  {
    var k := key[0];
    if |key| > 1 {
      var t := if k in o then o[k] else Dict(map[]);
      if !t.Dict? {
        AtStep(o, [k]);
        assert [] < [k] < key && ShapeAt(Dict(o), [k]).Leaf?;
      } else {
        AddFails(t.entries, key[1..], rendered);
        if LeafOnTheWay(t.entries, key[1..]) {
          var q :| [] < q < key[1..] && ShapeAt(t, q).Leaf?;
          EmptyObject(q);
          AtKey(Dict(o), k, q);
          assert [] < [k] + q < key && ShapeAt(Dict(o), [k] + q).Leaf?;
        }
        if LeafOnTheWay(o, key) {
          var q :| [] < q < key && ShapeAt(Dict(o), q).Leaf?;
          AtStep(o, q);
          AtStep(o, [k]);
          PrefixStep(q, key);
          assert q == [k] || q[1..] != [];
          assert [] < q[1..] < key[1..] && ShapeAt(t, q[1..]).Leaf?;
        }
      }
    }
  }

  // ----- Filling in all keys, in any order -----

  ghost predicate Keeps(result: Object, target: Object) {
    forall p :: ShapeAt(Dict(target), p) != Absent ==> ShapeAt(Dict(result), p) == ShapeAt(Dict(target), p)
  }

  lemma {:induction false} StepKeeps(vals: Values, kind: string, target: Object, render: Renderer, order: seq<string>,
                                     i: nat)
    requires i <= |order| && Step(Ok(target), vals, kind, target, render, order, i).Ok?
    ensures Keeps(Step(Ok(target), vals, kind, target, render, order, i).value, target)
  {
    if i > 0 {
      StepKeeps(vals, kind, target, render, order, i - 1);
      var k := order[i - 1];
      if Active(vals, kind, k) {
        SplitNonEmpty(k);
        var before := Step(Ok(target), vals, kind, target, render, order, i - 1).value;
        var rendered := ResultOf(vals, target, render, k);
        AddFails(before, Split(k).value, rendered);
        forall p | ShapeAt(Dict(target), p) != Absent {
          AddShape(before, Split(k).value, rendered.value, p);
        }
      }
    }
  }

  lemma {:induction false} StuckStops(vals: Values, kind: string, target: Object, render: Renderer, order: seq<string>,
                                      i: nat)
    requires i < |order| && Active(vals, kind, order[i]) && Stuck(vals, target, render, order[i])
    ensures Step(Ok(target), vals, kind, target, render, order, i + 1).Err?
  {
    var before := Step(Ok(target), vals, kind, target, render, order, i);
    var k := order[i];
    if before.Ok? && Split(k).Ok? {
      SplitNonEmpty(k);
      StepKeeps(vals, kind, target, render, order, i);
      AddFails(before.value, Split(k).value, ResultOf(vals, target, render, k));
      if LeafOnTheWay(target, Split(k).value) {
        var q :| [] < q < Split(k).value && ShapeAt(Dict(target), q).Leaf?;
        assert ShapeAt(Dict(before.value), q).Leaf?;
      }
    }
  }

  /** A stuck key makes every iteration order fail or panic. */
  lemma {:induction false} StuckFails(vals: Values, kind: string, target: Object, render: Renderer, order: seq<string>,
                                      i: nat)
    requires i < |order| && Active(vals, kind, order[i]) && Stuck(vals, target, render, order[i])
    ensures Generated(vals, kind, target, render, order).Err?
  {
    StuckStops(vals, kind, target, render, order, i);
    StepErr(Ok(target), vals, kind, target, render, order, i + 1);
  }

  lemma {:induction false} StepErrLater(vals: Values, kind: string, target: Object, render: Renderer,
                                        order: seq<string>, i: nat, j: nat)
    requires i <= j <= |order| && Step(Ok(target), vals, kind, target, render, order, i).Err?
    ensures Step(Ok(target), vals, kind, target, render, order, j).Err?
  {
    if i < j {
      StepErrLater(vals, kind, target, render, order, i, j - 1);
    }
  }

  ghost function Done(vals: Values, kind: string, order: seq<string>, i: nat): set<string>
    requires i <= |order|
  {
    set k | k in order[..i] && Active(vals, kind, k)
  }

  lemma {:induction false} FillStep(result: Object, vals: Values, kind: string, target: Object, render: Renderer,
                                    done: set<string>, k: string)
    requires NoneNested(vals, kind) && k !in done
    requires CanFill(vals, kind, target, render, done) && CanFill(vals, kind, target, render, done + {k})
    requires Filled(result, vals, kind, target, render, done)
    requires Split(k).value != []
    ensures var r := AddToMap(result, Split(k).value, Yields(ValueOf(vals, target, render, k)));
            r.Ok? && Filled(r.value, vals, kind, target, render, done + {k})
  {
    assert k in done + {k};
    var key, v := Split(k).value, ValueOf(vals, target, render, k);
    AddFails(result, key, Yields(v));
    OthersApart(vals, kind, done, k);
    ApartUntouched(result, vals, kind, target, render, done, key);
    WayUntouched(result, vals, kind, target, render, done, key);
    var after := AddToMap(result, key, Yields(v)).value;
    forall p | ShapeAt(Dict(target), p) != Absent ensures ShapeAt(Dict(after), p) == ShapeAt(Dict(target), p) {
      AddShape(result, key, v, p);
    }
    forall l | l in done + {k} && ShapeAt(Dict(target), Split(l).value) == Absent
      ensures At(Dict(after), Split(l).value) == Some(ValueOf(vals, target, render, l))
    {
      if l == k {
        AddValue(result, key, v);
      } else {
        FilledKeyStays(result, after, vals, kind, v, k, l);
      }
    }
    forall p | ShapeAt(Dict(target), p) == Absent && (forall l :: l in done + {k} ==> !Covers(target, l, p))
      ensures ShapeAt(Dict(after), p) == if exists l :: l in done + {k} && p < Split(l).value then Inner else Absent
    {
      AddShape(result, key, v, p);
      assert !Covers(target, k, p);
    }
  }

  /** No key of `done` lies at, above or below the path. */
  ghost predicate Apart(done: set<string>, path: Path) {
    forall l :: l in done ==> Split(l).Ok? && !(Split(l).value <= path) && !(path < Split(l).value)
  }

  lemma {:induction false} OthersApart(vals: Values, kind: string, done: set<string>, k: string)
    requires NoneNested(vals, kind) && k !in done && Active(vals, kind, k) && Split(k).Ok?
    requires forall l :: l in done ==> Active(vals, kind, l) && Split(l).Ok?
    ensures Apart(done, Split(k).value)
  {
    forall l | l in done ensures !(Split(l).value <= Split(k).value) && !(Split(k).value < Split(l).value) {
      if Split(l).value == Split(k).value {
        SplitInjective(k, l);
      }
    }
  }

  /** What lies apart from the filled keys is as the target left it. */
  lemma {:induction false} ApartUntouched(result: Object, vals: Values, kind: string, target: Object, render: Renderer,
                                          done: set<string>, path: Path)
    requires CanFill(vals, kind, target, render, done) && Filled(result, vals, kind, target, render, done) &&
             Apart(done, path)
    ensures ShapeAt(Dict(result), path) == ShapeAt(Dict(target), path)
  {
    if ShapeAt(Dict(target), path) == Absent {
      assert forall l :: l in done ==> !Covers(target, l, path);
    }
  }

  lemma {:induction false} PrefixTransitive(a: Path, b: Path, c: Path)
    requires b <= c
    ensures a <= b ==> a <= c
  {}

  /** So is the way there, but for objects on the way to other keys. */
  lemma {:induction false} WayUntouched(result: Object, vals: Values, kind: string, target: Object, render: Renderer,
                                        done: set<string>, path: Path)
    requires CanFill(vals, kind, target, render, done) && Filled(result, vals, kind, target, render, done) &&
             Apart(done, path)
    requires !LeafOnTheWay(target, path)
    ensures !LeafOnTheWay(result, path)
  {
    forall q | [] < q < path ensures !ShapeAt(Dict(result), q).Leaf? {
      if ShapeAt(Dict(target), q) == Absent {
        forall l | l in done ensures !Covers(target, l, q) {
          PrefixTransitive(Split(l).value, q, path);
        }
      }
    }
  }

  lemma {:induction false} FilledKeyStays(result: Object, after: Object, vals: Values, kind: string, v: Any, k: string,
                                          l: string)
    requires NoneNested(vals, kind) && Active(vals, kind, k) && Active(vals, kind, l) && k != l
    requires Split(k).Ok? && Split(l).Ok? && Split(k).value != [] &&
             AddToMap(result, Split(k).value, Yields(v)) == Ok(after)
    ensures At(Dict(after), Split(l).value) == At(Dict(result), Split(l).value)
  {
    if Split(k).value == Split(l).value {
      SplitInjective(k, l);
    }
    Incomparable(result, Split(k).value, v, Split(l).value);
  }

  lemma {:induction false} Incomparable(o: Object, key: Path, v: Any, p: Path)
    requires key != [] && AddToMap(o, key, Yields(v)).Ok? && !(p <= key) && !(key <= p)
    ensures At(Dict(AddToMap(o, key, Yields(v)).value), p) == At(Dict(o), p)
    decreases |key|
  {
    var after := AddToMap(o, key, Yields(v)).value;
    PrefixStep(p, key);
    PrefixStep(key, p);
    AtStep(o, p);
    AtStep(after, p);
    if p[0] == key[0] && |key| > 1 {
      Incomparable(if key[0] in o then o[key[0]].entries else map[], key[1..], v, p[1..]);
      EmptyObject(p[1..]);
    }
  }

  lemma {:induction false} DoneStep(vals: Values, kind: string, order: seq<string>, i: nat)
    requires 0 < i <= |order| && NoDuplicates(order)
    ensures Done(vals, kind, order, i) ==
            Done(vals, kind, order, i - 1) + if Active(vals, kind, order[i - 1]) then {order[i - 1]} else {}
    ensures order[i - 1] !in Done(vals, kind, order, i - 1)
  {
    assert order[..i] == order[..i - 1] + [order[i - 1]];
  }

  ghost predicate StepIsFilled(vals: Values, kind: string, target: Object, render: Renderer, order: seq<string>, i: nat)
    requires i <= |order| && CanFill(vals, kind, target, render, Done(vals, kind, order, i))
  {
    var r := Step(Ok(target), vals, kind, target, render, order, i);
    r.Ok? && Filled(r.value, vals, kind, target, render, Done(vals, kind, order, i))
  }

  lemma {:induction false} StepFilled(vals: Values, kind: string, target: Object, render: Renderer, order: seq<string>,
                                      i: nat)
    requires i <= |order| && NoDuplicates(order) && NoneNested(vals, kind)
    requires CanFill(vals, kind, target, render, Done(vals, kind, order, i))
    ensures StepIsFilled(vals, kind, target, render, order, i)
  {
    if i == 0 {
      assert Done(vals, kind, order, 0) == {};
    } else {
      DoneStep(vals, kind, order, i);
      StepFilled(vals, kind, target, render, order, i - 1);
      StepFilledNext(vals, kind, target, render, order, i);
    }
  }

  lemma {:induction false} StepFilledNext(vals: Values, kind: string, target: Object, render: Renderer,
                                          order: seq<string>, i: nat)
    requires 0 < i <= |order| && NoDuplicates(order) && NoneNested(vals, kind)
    requires CanFill(vals, kind, target, render, Done(vals, kind, order, i))
    requires CanFill(vals, kind, target, render, Done(vals, kind, order, i - 1))
    requires StepIsFilled(vals, kind, target, render, order, i - 1)
    ensures StepIsFilled(vals, kind, target, render, order, i)
  {
    DoneStep(vals, kind, order, i);
    var k, done := order[i - 1], Done(vals, kind, order, i - 1);
    var before := Step(Ok(target), vals, kind, target, render, order, i - 1);
    var after := Step(Ok(target), vals, kind, target, render, order, i);
    if Active(vals, kind, k) {
      assert Fillable(vals, kind, target, render, k) by {
        assert k in Done(vals, kind, order, i);
      }
      SplitNonEmpty(k);
      assert after == AddToMap(before.value, Split(k).value, Yields(ValueOf(vals, target, render, k)));
      FillStep(before.value, vals, kind, target, render, done, k);
    } else {
      assert after == before;
    }
  }

  // ----- Main results -----

  ghost predicate Enumerates(order: seq<string>, vals: Values) {
    NoDuplicates(order) && forall k :: k in order <==> k in vals
  }

  ghost function AllActive(vals: Values, kind: string): set<string> {
    set k | k in vals && Active(vals, kind, k)
  }

  /** Success does not depend on the iteration order, and what success means. */
  lemma {:induction false} GenerateExact(vals: Values, kind: string, target: Object, render: Renderer,
                                         order: seq<string>)
    requires Enumerates(order, vals)
    ensures !CanFill(vals, kind, target, render, AllActive(vals, kind)) ==>
              Generated(vals, kind, target, render, order).Err?
    ensures NoneNested(vals, kind) && CanFill(vals, kind, target, render, AllActive(vals, kind)) ==>
              Generated(vals, kind, target, render, order).Ok? &&
              Filled(Generated(vals, kind, target, render, order).value, vals, kind, target, render,
                     AllActive(vals, kind))
  {
    if !CanFill(vals, kind, target, render, AllActive(vals, kind)) {
      var k :| k in AllActive(vals, kind) && Stuck(vals, target, render, k);
      var i :| 0 <= i < |order| && order[i] == k;
      StuckFails(vals, kind, target, render, order, i);
    } else if NoneNested(vals, kind) {
      assert order[..|order|] == order;
      assert Done(vals, kind, order, |order|) == AllActive(vals, kind);
      StepFilled(vals, kind, target, render, order, |order|);
    }
  }

  /** At most one object is filled in that way. */
  lemma {:induction false} FilledUnique(a: Object, b: Object, vals: Values, kind: string, target: Object,
                                        render: Renderer, done: set<string>)
    requires CanFill(vals, kind, target, render, done)
    requires Filled(a, vals, kind, target, render, done) && Filled(b, vals, kind, target, render, done)
    ensures a == b
  {
    forall p ensures ShapeAt(Dict(a), p) == ShapeAt(Dict(b), p) {
      FilledShape(a, b, vals, kind, target, render, done, p);
    }
    SameShapeSameValue(Dict(a), Dict(b));
  }

  lemma {:induction false} FilledShape(a: Object, b: Object, vals: Values, kind: string, target: Object,
                                       render: Renderer, done: set<string>, p: Path)
    requires CanFill(vals, kind, target, render, done)
    requires Filled(a, vals, kind, target, render, done) && Filled(b, vals, kind, target, render, done)
    ensures ShapeAt(Dict(a), p) == ShapeAt(Dict(b), p)
  {
    if k :| k in done && Covers(target, k, p) {
      CoveredShape(a, vals, kind, target, render, done, k, p);
      CoveredShape(b, vals, kind, target, render, done, k, p);
    }
  }

  lemma {:induction false} CoveredShape(result: Object, vals: Values, kind: string, target: Object, render: Renderer,
                                        done: set<string>, k: string, p: Path)
    requires CanFill(vals, kind, target, render, done) && Filled(result, vals, kind, target, render, done)
    requires k in done && Covers(target, k, p)
    ensures ShapeAt(Dict(result), p) == ShapeAt(ValueOf(vals, target, render, k), p[|Split(k).value|..])
  {
    AtCompose(Dict(result), Split(k).value, p);
  }

  /** Two outcomes a caller cannot tell apart but for which error is reported first. */
  ghost predicate SameOutcome(r: Result<Object, GenerateError>, r': Result<Object, GenerateError>) {
    (r.Err? && r'.Err? && (r.error.TemplatePanic? <==> r'.error.TemplatePanic?)) || (r.Ok? && r == r')
  }

  /** A panic comes from a key whose template is reached and panics. */
  lemma {:induction false} PanicHasCause(vals: Values, kind: string, target: Object, render: Renderer,
                                         order: seq<string>, i: nat)
    requires i <= |order| && Step(Ok(target), vals, kind, target, render, order, i) == Err(TemplatePanic)
    ensures SomePanics(vals, kind, target, render)
  {
    if i > 0 {
      var before := Step(Ok(target), vals, kind, target, render, order, i - 1);
      var k := order[i - 1];
      if before.Err? {
        PanicHasCause(vals, kind, target, render, order, i - 1);
      } else if Active(vals, kind, k) && Split(k).Ok? {
        SplitNonEmpty(k);
        StepKeeps(vals, kind, target, render, order, i - 1);
        AddFails(before.value, Split(k).value, ResultOf(vals, target, render, k));
        NoNewWay(before.value, target, Split(k).value);
        assert Panics(vals, target, render, k);
      }
    }
  }

  lemma {:induction false} NoNewWay(result: Object, target: Object, path: Path)
    requires Keeps(result, target) && !LeafOnTheWay(result, path)
    ensures !LeafOnTheWay(target, path)
  {
    forall q | [] < q < path ensures !ShapeAt(Dict(target), q).Leaf? {
      assert ShapeAt(Dict(target), q) != Absent ==> ShapeAt(Dict(result), q) == ShapeAt(Dict(target), q);
    }
  }

  /** Without nested keys an error comes from a key that fails. */
  lemma {:induction false} ErrorHasCause(vals: Values, kind: string, target: Object, render: Renderer,
                                         order: seq<string>, i: nat)
    requires i <= |order| && NoDuplicates(order) && NoneNested(vals, kind)
    requires var r := Step(Ok(target), vals, kind, target, render, order, i); r.Err? && !r.error.TemplatePanic?
    ensures SomeFails(vals, kind, target, render)
  {
    if i > 0 {
      var before := Step(Ok(target), vals, kind, target, render, order, i - 1);
      if before.Err? {
        ErrorHasCause(vals, kind, target, render, order, i - 1);
      } else {
        FirstError(vals, kind, target, render, order, i);
      }
    }
  }

  lemma {:induction false} FirstError(vals: Values, kind: string, target: Object, render: Renderer,
                                      order: seq<string>, i: nat)
    requires 0 < i <= |order| && NoDuplicates(order) && NoneNested(vals, kind)
    requires Step(Ok(target), vals, kind, target, render, order, i - 1).Ok?
    requires var r := Step(Ok(target), vals, kind, target, render, order, i); r.Err? && !r.error.TemplatePanic?
    ensures Active(vals, kind, order[i - 1]) && Fails(vals, target, render, order[i - 1])
  {
    var before := Step(Ok(target), vals, kind, target, render, order, i - 1).value;
    var k := order[i - 1];
    if Active(vals, kind, k) && Reached(target, k) {
      SplitNonEmpty(k);
      StillReached(vals, kind, target, render, order, i - 1);
      AddFails(before, Split(k).value, ResultOf(vals, target, render, k));
    }
  }

  /** What other keys fill in is not on the way to this one. */
  lemma {:induction false} StillReached(vals: Values, kind: string, target: Object, render: Renderer,
                                        order: seq<string>, i: nat)
    requires i < |order| && NoDuplicates(order) && NoneNested(vals, kind)
    requires Step(Ok(target), vals, kind, target, render, order, i).Ok?
    requires Active(vals, kind, order[i]) && Reached(target, order[i])
    ensures !LeafOnTheWay(Step(Ok(target), vals, kind, target, render, order, i).value, Split(order[i]).value)
  {
    var k, done := order[i], Done(vals, kind, order, i);
    VisitedCanBeFilled(vals, kind, target, render, order, i);
    StepFilled(vals, kind, target, render, order, i);
    DoneStep(vals, kind, order, i + 1);
    OthersApart(vals, kind, done, k);
    WayUntouched(Step(Ok(target), vals, kind, target, render, order, i).value, vals, kind, target, render, done,
                 Split(k).value);
  }

  /** As long as the loop goes on, every key it visited could be filled in. */
  lemma {:induction false} VisitedCanBeFilled(vals: Values, kind: string, target: Object, render: Renderer,
                                              order: seq<string>, i: nat)
    requires i <= |order| && Step(Ok(target), vals, kind, target, render, order, i).Ok?
    ensures CanFill(vals, kind, target, render, Done(vals, kind, order, i))
  {
    forall k | k in Done(vals, kind, order, i) ensures Fillable(vals, kind, target, render, k) {
      if Stuck(vals, target, render, k) {
        var j :| 0 <= j < i && order[j] == k;
        StuckStops(vals, kind, target, render, order, j);
        StepErrLater(vals, kind, target, render, order, j + 1, i);
      }
    }
  }

  /** Visiting a key first shows how it ends the generation. */
  lemma {:induction false} VisitedFirst(vals: Values, kind: string, target: Object, render: Renderer, k: string)
    returns (order: seq<string>)
    requires Active(vals, kind, k)
    ensures Enumerates(order, vals)
    ensures var r := Generated(vals, kind, target, render, order);
            && (Panics(vals, target, render, k) ==> r == Err(TemplatePanic))
            && (Fails(vals, target, render, k) ==> r.Err? && !r.error.TemplatePanic?)
  {
    var rest := RangeKeysExist(vals.Keys - {k});
    order := [k] + rest;
    assert Step(Ok(target), vals, kind, target, render, order, 0) == Ok(target);
    if Split(k).Ok? {
      SplitNonEmpty(k);
      AddFails(target, Split(k).value, ResultOf(vals, target, render, k));
    }
    if Stuck(vals, target, render, k) {
      StepErr(Ok(target), vals, kind, target, render, order, 1);
    }
  }

  /** Some iteration order ends in a panic iff some active key is reached and panics. */
  lemma {:induction false} PanicsInSomeOrderExactly(vals: Values, kind: string, target: Object, render: Renderer)
    ensures SomePanics(vals, kind, target, render) <==>
            exists order :: Enumerates(order, vals) &&
              Generated(vals, kind, target, render, order) == Err(TemplatePanic)
  {
    if SomePanics(vals, kind, target, render) {
      var k :| Active(vals, kind, k) && Panics(vals, target, render, k);
      var order := VisitedFirst(vals, kind, target, render, k);
    }
    if order :| Enumerates(order, vals) && Generated(vals, kind, target, render, order) == Err(TemplatePanic) {
      PanicHasCause(vals, kind, target, render, order, |order|);
    }
  }

  lemma {:induction false} AddErrs(o: Object, key: Path, rendered: TemplateResult)
    requires key != [] && AddToMap(o, key, rendered).Err?
    ensures match AddToMap(o, key, rendered).error
            case BadKey(_) => false
            case NotNestable(segment) => exists j :: 0 <= j < |key| - 1 && key[j] == segment
            case RenderFailed => rendered.Errs?
            case TemplatePanic => rendered.Crashes?
    decreases |key|
  {
    if |key| > 1 {
      var t := if key[0] in o then o[key[0]] else Dict(map[]);
      if t.Dict? {
        AddErrs(t.entries, key[1..], rendered);
        if AddToMap(o, key, rendered).error.NotNestable? {
          var j :| 0 <= j < |key[1..]| - 1 && key[1..][j] == AddToMap(o, key, rendered).error.key;
          assert key[j + 1] == key[1..][j];
        }
      } else {
        assert key[0] == AddToMap(o, key, rendered).error.key;
      }
    }
  }

  /** The key can end the generation as reported: it is malformed; one of its segments but
      the last is named; or its template is empty, or fails, or panics. */
  predicate CanReport(vals: Values, kind: string, target: Object, render: Renderer, k: string, error: GenerateError) {
    && k in vals && vals[k].computed.Some? && kind !in vals[k].ignoreKinds
    && match error
       case BadKey(e) => Split(k) == Err(e)
       case NotNestable(segment) =>
         Split(k).Ok? && exists j :: 0 <= j < |Split(k).value| - 1 && Split(k).value[j] == segment
       case RenderFailed => vals[k].computed.value == "" || render(target, vals[k].computed.value).Errs?
       case TemplatePanic => vals[k].computed.value != "" && render(target, vals[k].computed.value).Crashes?
  }

  /** What is reported comes from a key that is to be computed, the first at which the loop
      cannot go on. */
  lemma {:induction false} ReportsCause(vals: Values, kind: string, target: Object, render: Renderer,
                                        order: seq<string>, i: nat) returns (n: nat)
    requires i <= |order| && Step(Ok(target), vals, kind, target, render, order, i).Err?
    ensures n < i && Step(Ok(target), vals, kind, target, render, order, n).Ok?
    ensures CanReport(vals, kind, target, render, order[n],
                      Step(Ok(target), vals, kind, target, render, order, i).error)
  {
    var before := Step(Ok(target), vals, kind, target, render, order, i - 1);
    if before.Err? {
      n := ReportsCause(vals, kind, target, render, order, i - 1);
    } else {
      n := i - 1;
      if Split(order[n]).Ok? {
        SplitNonEmpty(order[n]);
        AddErrs(before.value, Split(order[n]).value, ResultOf(vals, target, render, order[n]));
      }
    }
  }

  /** All iteration orders give the same object, or all fail, or all panic. */
  ghost predicate OrdersAgree(vals: Values, kind: string, target: Object, render: Renderer) {
    forall order, order' :: Enumerates(order, vals) && Enumerates(order', vals) ==>
      SameOutcome(Generated(vals, kind, target, render, order), Generated(vals, kind, target, render, order'))
  }

  lemma {:induction false} SameInTwoOrders(vals: Values, kind: string, target: Object, render: Renderer,
                                           order: seq<string>, order': seq<string>)
    requires Enumerates(order, vals) && Enumerates(order', vals) && NoneNested(vals, kind)
    requires !Mixed(vals, kind, target, render)
    ensures SameOutcome(Generated(vals, kind, target, render, order), Generated(vals, kind, target, render, order'))
  {
    GenerateExact(vals, kind, target, render, order);
    GenerateExact(vals, kind, target, render, order');
    if CanFill(vals, kind, target, render, AllActive(vals, kind)) {
      FilledUnique(Generated(vals, kind, target, render, order).value,
                   Generated(vals, kind, target, render, order').value,
                   vals, kind, target, render, AllActive(vals, kind));
    } else {
      WhichEnd(vals, kind, target, render, order);
      WhichEnd(vals, kind, target, render, order');
    }
  }

  /** A generation that ends early ends as one of the keys makes it. */
  lemma {:induction false} WhichEnd(vals: Values, kind: string, target: Object, render: Renderer, order: seq<string>)
    requires Enumerates(order, vals) && NoneNested(vals, kind)
    requires Generated(vals, kind, target, render, order).Err?
    ensures if Generated(vals, kind, target, render, order).error.TemplatePanic?
            then SomePanics(vals, kind, target, render) else SomeFails(vals, kind, target, render)
  {
    if Generated(vals, kind, target, render, order).error.TemplatePanic? {
      PanicHasCause(vals, kind, target, render, order, |order|);
    } else {
      ErrorHasCause(vals, kind, target, render, order, |order|);
    }
  }

  /** Where no computed key lies inside another, all iteration orders agree exactly if there
      are not both a key that fails and a key that panics. */
  lemma {:induction false} GenerateConfluent(vals: Values, kind: string, target: Object, render: Renderer)
    requires NoneNested(vals, kind)
    ensures OrdersAgree(vals, kind, target, render) <==> !Mixed(vals, kind, target, render)
  {
    if Mixed(vals, kind, target, render) {
      var k :| Active(vals, kind, k) && Fails(vals, target, render, k);
      var l :| Active(vals, kind, l) && Panics(vals, target, render, l);
      var order := VisitedFirst(vals, kind, target, render, k);
      var order' := VisitedFirst(vals, kind, target, render, l);
      assert !SameOutcome(Generated(vals, kind, target, render, order), Generated(vals, kind, target, render, order'));
    } else {
      forall order, order' | Enumerates(order, vals) && Enumerates(order', vals)
        ensures SameOutcome(Generated(vals, kind, target, render, order), Generated(vals, kind, target, render, order'))
      {
        SameInTwoOrders(vals, kind, target, render, order, order');
      }
    }
  }

  /** GenerateWith, with Go's `range` over the values. */
  method GenerateWith(vals: Values, kind: string, target: Object, render: Renderer)
    returns (r: Result<Object, GenerateError>)
    ensures !CanFill(vals, kind, target, render, AllActive(vals, kind)) ==> r.Err?
    ensures NoneNested(vals, kind) && CanFill(vals, kind, target, render, AllActive(vals, kind)) ==>
              r.Ok? && Filled(r.value, vals, kind, target, render, AllActive(vals, kind))
    ensures exists order :: Enumerates(order, vals) && r == Generated(vals, kind, target, render, order)
  {
    var order := RangeKeys(vals.Keys);
    GenerateExact(vals, kind, target, render, order);
    r := GenerateIn(vals, kind, target, render, order);
    assert Enumerates(order, vals);
  }

  /** The loop, in the order it happens to have. */
  method GenerateIn(vals: Values, kind: string, target: Object, render: Renderer, order: seq<string>)
    returns (r: Result<Object, GenerateError>)
    requires Enumerates(order, vals)
    ensures r == Generated(vals, kind, target, render, order)
  {
    var configs := target;
    var result := target;
    for i := 0 to |order|
      invariant Step(Ok(target), vals, kind, configs, render, order, i) == Ok(result)
    {
      var k := order[i];
      if vals[k].computed.None? {
        continue;
      }
      if kind in vals[k].ignoreKinds {
        continue;
      }
      var keys := SmartDotSplit(k);
      if keys.Err? {
        StepErr(Ok(target), vals, kind, configs, render, order, i + 1);
        return Err(BadKey(keys.error));
      }
      SplitNonEmpty(k);
      var added := AddToMap(result, keys.value, RenderTemplate(render, configs, vals[k].computed.value));
      if added.Err? {
        StepErr(Ok(target), vals, kind, configs, render, order, i + 1);
        return added;
      }
      result := added.value;
    }
    return Ok(result);
  }
}
