/** From configuration rows and template data to Helm values: RenderHelmValues, and the two
    complete paths that end in it. */
module HelmRender {
  import opened Basics
  import opened Model
  import opened ConfigMerge
  import opened Tree
  import opened Computed
  import CT = ConfigTree
  import opened RenderInputs
  import opened RequiredFields
  import opened DotSplit

  /** Rendering a template on an environment's data and the configuration. */
  type Templates = (ComputedValues, Object, string) -> TemplateResult

  /** `RenderPanic` covers the failed type assertions of the build, of the repair of a
      template's output and of the environment's name. */
  datatype RenderResult =
    | Rendered(values: Object)
    | ConfigMapError(tree: CT.TreeError)
    | GenerateFailed(error: GenerateError)
    | MissingFields(fields: seq<string>)
    | RenderPanic

  // ----- Rendering -----

  function RendererFor(templates: Templates, mv: ComputedValues): Renderer {
    (configs, tpl) => templates(mv, configs, tpl)
  }

  function WithFasit(mp: Object, mv: ComputedValues, envName: string, kind: string): Object {
    mp["fasit" := Dict(map[
      "tenant" := Strings(map["name" := mv.tenantName]),
      "env" := Strings(map["name" := envName, "kind" := kind])])]
  }

  predicate NameIsText(mv: ComputedValues) {
    "name" in mv.env && mv.env["name"].Text?
  }

  ghost predicate AnyMissing(f: Feature, kind: string, rows: seq<MergedRow>, full: Object) {
    exists field :: Missing(f.values, kind, rows, full, field)
  }

  /** What becomes of generated values: the panic of a template goes on, the environment's
      name is asserted to be a string, and the required fields are checked. */
  ghost predicate Finished(r: RenderResult, f: Feature, rows: seq<MergedRow>, mv: ComputedValues,
                           g: Result<Object, GenerateError>) {
    match g
    case Err(TemplatePanic) => r == RenderPanic
    case Err(e) => r == GenerateFailed(e)
    case Ok(mp) =>
      if !NameIsText(mv) then r == RenderPanic
      else
        var full := WithFasit(mp, mv, mv.env["name"].text, mv.kind);
        if AnyMissing(f, mv.kind, rows, full)
        then r.MissingFields? && IsMissingList(r.fields, f.values, mv.kind, rows, full)
        else r == Rendered(full)
  }

  /** What rendering `rows` for an environment gives when the values are visited in
      `order`. */
  ghost predicate Outcome(r: RenderResult, f: Feature, rows: seq<MergedRow>, mv: ComputedValues, templates: Templates,
                          order: seq<string>) {
    match CT.HelmConfigMap(rows)
    case Failed(e) => r == ConfigMapError(e)
    case Panicked => r == RenderPanic
    case Built(config) =>
      Finished(r, f, rows, mv, Generated(f.values, mv.kind, config, RendererFor(templates, mv), order))
  }

  method RenderHelmValues(f: Feature, rows: seq<MergedRow>, config: Object, mv: ComputedValues, templates: Templates)
    returns (r: RenderResult)
    requires CT.HelmConfigMap(rows) == CT.Built(config)
    ensures InSomeOrder(r, f, rows, mv, templates)
  {
    var generated := GenerateWith(f.values, mv.kind, config, RendererFor(templates, mv));
    ghost var order :| Enumerates(order, f.values) &&
      generated == Generated(f.values, mv.kind, config, RendererFor(templates, mv), order);
    if generated.Err? {
      r := if generated.error.TemplatePanic? then RenderPanic else GenerateFailed(generated.error);
      assert Outcome(r, f, rows, mv, templates, order);
      return;
    }
    if !("name" in mv.env && mv.env["name"].Text?) {
      r := RenderPanic;
      assert Outcome(r, f, rows, mv, templates, order);
      return;
    }
    var mp := WithFasit(generated.value, mv, mv.env["name"].text, mv.kind);
    var missing := ValidateFields(f.values, mv.kind, rows, mp);
    if |missing| > 0 {
      assert missing[0] in missing;
      r := MissingFields(missing);
    } else {
      r := Rendered(mp);
    }
    assert Outcome(r, f, rows, mv, templates, order);
  }

  // ----- The two paths -----

  /** What a way of gathering the inputs can end in. */
  ghost predicate Possible(r: RenderResult, t: Tables, e: EnvRecord, f: Feature, way: Way, parse: Parser,
                           templates: Templates, audience: string)
    requires e.tenantId in t.tenants
  {
    exists keys, rows :: IsInput(t, e, f, keys, rows) &&
      InSomeOrder(r, f, rows, ValuesFor(t, e, parse, way, audience), templates)
  }

  ghost predicate InSomeOrder(r: RenderResult, f: Feature, rows: seq<MergedRow>, mv: ComputedValues,
                              templates: Templates) {
    exists order :: Enumerates(order, f.values) && Outcome(r, f, rows, mv, templates, order)
  }

  /** The rows a render works on: the overlay for the declared keys, in any order. */
  ghost predicate IsInput(t: Tables, e: EnvRecord, f: Feature, keys: seq<string>, rows: seq<MergedRow>) {
    && (forall k :: k in keys <==> k in IncludeKeys(f.values, e.kind))
    && IsOverlay(rows, GlobalRows(GlobalsOf(t.globals, f.name)), EnvRows(EnvConfigsOf(t.envConfigs, e.id, f.name)),
                 keys)
  }

  /** The rendering part of computeAction, on the bulk-fetched snapshot. */
  method RenderFromSnapshot(t: Tables, env: nat, kind: string, ghost e: EnvRecord, f: Feature,
                            parse: Parser, templates: Templates, audience: string,
                            globalConfig: map<string, seq<MergedRow>>,
                            envConfig: map<nat, map<string, seq<MergedRow>>>,
                            envValues: map<nat, ComputedValues>)
    returns (r: RenderResult)
    requires ValidTables(t) && e in t.envs && e.id == env && e.kind == kind
    requires forall g :: Group(globalConfig, g) == GlobalRows(GlobalsOf(t.globals, g))
    requires forall i, g :: EnvGroup(envConfig, i, g) == EnvRows(EnvConfigsOf(t.envConfigs, i, g))
    requires forall o :: o in t.envs ==>
             o.id in envValues && envValues[o.id] == ValuesFor(t, o, parse, InBulk, audience)
    ensures Possible(r, t, e, f, InBulk, parse, templates, audience)
  {
    var includeKeys := ConfigIncludeKeys(f.values, kind);
    var merged := MergeConfigRows(Group(globalConfig, f.name), EnvGroup(envConfig, env, f.name), includeKeys);
    var config := CT.MakeHelmConfigMap(merged);
    assert IsInput(t, e, f, includeKeys, merged) by {
      assert Group(globalConfig, f.name) == GlobalRows(GlobalsOf(t.globals, f.name));
      assert EnvGroup(envConfig, e.id, f.name) == EnvRows(EnvConfigsOf(t.envConfigs, e.id, f.name));
    }
    var mv := envValues[env];
    ghost var order;
    r, order := RenderBuilt(f, merged, config, mv, templates);
  }

  /** fetchHelmRenderData followed by RenderHelmValues. */
  method RenderForEnvironment(t: Tables, e: EnvRecord, f: Feature, parse: Parser, templates: Templates,
                              audience: string)
    returns (r: RenderResult)
    requires ValidTables(t) && e in t.envs
    ensures Possible(r, t, e, f, ForOne, parse, templates, audience)
  {
    var mv := MappingValuesForEnvironment(t, e, parse, audience);
    var includeKeys := ConfigIncludeKeys(f.values, e.kind);
    var vals := MergeConfigs(GlobalsOf(t.globals, f.name), EnvConfigsOf(t.envConfigs, e.id, f.name), includeKeys);
    var config := CT.MakeHelmConfigMap(vals);
    assert IsInput(t, e, f, includeKeys, vals);
    ghost var order;
    r, order := RenderBuilt(f, vals, config, mv, templates);
  }

  method RenderBuilt(f: Feature, rows: seq<MergedRow>, config: CT.TreeResult, mv: ComputedValues, templates: Templates)
    returns (r: RenderResult, ghost order: seq<string>)
    requires config == CT.HelmConfigMap(rows)
    ensures Enumerates(order, f.values) && Outcome(r, f, rows, mv, templates, order)
  {
    order := RangeKeysExist(f.values.Keys);
    match config
    case Failed(e) =>
      r := ConfigMapError(e);
    case Panicked =>
      r := RenderPanic;
    case Built(tree) =>
      r := RenderHelmValues(f, rows, tree, mv, templates);
      order :| Enumerates(order, f.values) && Outcome(r, f, rows, mv, templates, order);
  }

  // ----- Main results -----

  /** Equal up to which of several errors a failed generation reports. */
  predicate SameResult(a: RenderResult, b: RenderResult) {
    a == b || (a.GenerateFailed? && b.GenerateFailed?)
  }

  lemma {:induction false} FinishedAlike(a: RenderResult, b: RenderResult, f: Feature, rows: seq<MergedRow>,
                                         mv: ComputedValues,
                                         g: Result<Object, GenerateError>, h: Result<Object, GenerateError>)
    requires Finished(a, f, rows, mv, g) && Finished(b, f, rows, mv, h) && SameOutcome(g, h)
    ensures SameResult(a, b)
  {
    if a.MissingFields? && b.MissingFields? {
      SortedListUnique(a.fields, b.fields);
    }
  }

  /** Among the keys to be computed one fails and another one panics. */
  ghost predicate FailuresMix(f: Feature, rows: seq<MergedRow>, mv: ComputedValues, templates: Templates) {
    && CT.HelmConfigMap(rows).Built?
    && Mixed(f.values, mv.kind, CT.HelmConfigMap(rows).tree, RendererFor(templates, mv))
  }

  /** Whatever the iteration order, the render has the same result. */
  ghost predicate OneResult(f: Feature, rows: seq<MergedRow>, mv: ComputedValues, templates: Templates) {
    forall a, b :: InSomeOrder(a, f, rows, mv, templates) && InSomeOrder(b, f, rows, mv, templates) ==>
      SameResult(a, b)
  }

  /** Without nested computed keys the result is independent of the iteration order exactly
      if there are not both a key that fails and a key that panics. */
  lemma {:induction false} OutcomeDeterministic(f: Feature, rows: seq<MergedRow>, mv: ComputedValues,
                                                templates: Templates)
    requires NoneNested(f.values, mv.kind)
    ensures OneResult(f, rows, mv, templates) <==> !FailuresMix(f, rows, mv, templates)
  {
    if FailuresMix(f, rows, mv, templates) {
      var e := MixedShows(f, rows, mv, templates);
    } else {
      forall a, b | InSomeOrder(a, f, rows, mv, templates) && InSomeOrder(b, f, rows, mv, templates)
        ensures SameResult(a, b)
      {
        var order :| Enumerates(order, f.values) && Outcome(a, f, rows, mv, templates, order);
        var order' :| Enumerates(order', f.values) && Outcome(b, f, rows, mv, templates, order');
        SameInBothOrders(a, b, f, rows, mv, templates, order, order');
      }
    }
  }

  lemma {:induction false} SameInBothOrders(a: RenderResult, b: RenderResult, f: Feature, rows: seq<MergedRow>,
                                            mv: ComputedValues, templates: Templates,
                                            order: seq<string>, order': seq<string>)
    requires NoneNested(f.values, mv.kind) && Enumerates(order, f.values) && Enumerates(order', f.values)
    requires Outcome(a, f, rows, mv, templates, order) && Outcome(b, f, rows, mv, templates, order')
    requires !FailuresMix(f, rows, mv, templates)
    ensures SameResult(a, b)
  {
    var tree, render := CT.HelmConfigMap(rows), RendererFor(templates, mv);
    if tree.Built? {
      SameInTwoOrders(f.values, mv.kind, tree.tree, render, order, order');
      FinishedAlike(a, b, f, rows, mv, Generated(f.values, mv.kind, tree.tree, render, order),
                    Generated(f.values, mv.kind, tree.tree, render, order'));
    }
  }

  /** Visited first, the key that fails gives an error and the key that panics a panic. */
  lemma {:induction false} MixedShows(f: Feature, rows: seq<MergedRow>, mv: ComputedValues, templates: Templates)
    returns (e: GenerateError)
    requires FailuresMix(f, rows, mv, templates)
    ensures InSomeOrder(RenderPanic, f, rows, mv, templates)
    ensures InSomeOrder(GenerateFailed(e), f, rows, mv, templates)
  {
    var tree, render := CT.HelmConfigMap(rows).tree, RendererFor(templates, mv);
    var k :| Active(f.values, mv.kind, k) && Fails(f.values, tree, render, k);
    var l :| Active(f.values, mv.kind, l) && Panics(f.values, tree, render, l);
    var order := VisitedFirst(f.values, mv.kind, tree, render, k);
    var order' := VisitedFirst(f.values, mv.kind, tree, render, l);
    assert Outcome(RenderPanic, f, rows, mv, templates, order');
    e := Generated(f.values, mv.kind, tree, render, order).error;
    assert Outcome(GenerateFailed(e), f, rows, mv, templates, order);
  }

  /** The object that RenderHelmValues checks always has a field that the check overlooks:
      `fasit.env` is not an object. */
  lemma {:induction false} FasitMisleads(mp: Object, mv: ComputedValues, envName: string, kind: string)
    ensures var full, field := WithFasit(mp, mv, envName, kind), ["fasit", "env", "env"];
            NoValue(full, field) && !Unset(full, field) && !ReportsExactly(full)
  {
    var full, p := WithFasit(mp, mv, envName, kind), ["fasit", "env"];
    assert p[1..] == ["env"] && ["env"][1..] == [];
    assert At(full["fasit"], ["env"]) == At(full["fasit"].entries["env"], []);
    assert Lookup(full, p) == At(full["fasit"], ["env"]);
    OverlooksRepeated(full, p);
    assert p + [p[1]] == ["fasit", "env", "env"];
    RightForAllFields(full);
  }

  // ----- Panics -----

  /** No stored value replaces the environment's name by something that is not a string. */
  ghost predicate NameStaysText(t: Tables, e: EnvRecord, parse: Parser) {
    var stored := StoredValues(t.values, e.id, parse);
    "name" in stored ==> stored["name"].Text?
  }

  lemma {:induction false} WhenNameIsText(t: Tables, e: EnvRecord, parse: Parser, way: Way, audience: string)
    requires e.tenantId in t.tenants
    ensures NameIsText(ValuesFor(t, e, parse, way, audience)) <==> way == ForOne || NameStaysText(t, e, parse)
  {}

  /** Some iteration order gets through the generation. */
  ghost predicate CanGenerate(f: Feature, rows: seq<MergedRow>, mv: ComputedValues, templates: Templates) {
    && CT.HelmConfigMap(rows).Built?
    && exists order ::
         && Enumerates(order, f.values)
         && Generated(f.values, mv.kind, CT.HelmConfigMap(rows).tree, RendererFor(templates, mv), order).Ok?
  }

  /** Some key to be computed is reached in the configuration, and its template panics. */
  ghost predicate TemplatePanics(f: Feature, rows: seq<MergedRow>, mv: ComputedValues, templates: Templates) {
    && CT.HelmConfigMap(rows).Built?
    && SomePanics(f.values, mv.kind, CT.HelmConfigMap(rows).tree, RendererFor(templates, mv))
  }

  /** When a render can panic: where the configuration's object cannot be built; where the
      repair of some template's output panics; and, in the reconcile loop only, where a
      stored value replaced the environment's name by something that is not a string and
      the generation gets that far. */
  lemma {:induction false} PanicsExactly(t: Tables, e: EnvRecord, f: Feature, way: Way, parse: Parser,
                                         templates: Templates, audience: string,
                                         keys: seq<string>, rows: seq<MergedRow>)
    requires e.tenantId in t.tenants && IsInput(t, e, f, keys, rows)
    ensures var mv := ValuesFor(t, e, parse, way, audience);
            Possible(RenderPanic, t, e, f, way, parse, templates, audience) <==>
            || CT.HelmConfigMap(rows).Panicked?
            || TemplatePanics(f, rows, mv, templates)
            || (way == InBulk && !NameStaysText(t, e, parse) && CanGenerate(f, rows, mv, templates))
  {
    var mv := ValuesFor(t, e, parse, way, audience);
    WhenNameIsText(t, e, parse, way, audience);
    PanicsInSomeOrder(f, rows, mv, templates);
    if Possible(RenderPanic, t, e, f, way, parse, templates, audience) {
      var ls, rows' :| IsInput(t, e, f, ls, rows') && InSomeOrder(RenderPanic, f, rows', mv, templates);
      InputUnique(t, e, f, keys, rows, ls, rows');
    }
  }

  lemma {:induction false} PanicsInSomeOrder(f: Feature, rows: seq<MergedRow>, mv: ComputedValues, templates: Templates)
    ensures InSomeOrder(RenderPanic, f, rows, mv, templates) <==>
            || CT.HelmConfigMap(rows).Panicked?
            || TemplatePanics(f, rows, mv, templates)
            || (!NameIsText(mv) && CanGenerate(f, rows, mv, templates))
  {
    match CT.HelmConfigMap(rows)
    case Failed(_) =>
    case Panicked =>
      var order := RangeKeysExist(f.values.Keys);
      assert Enumerates(order, f.values) && Outcome(RenderPanic, f, rows, mv, templates, order);
    case Built(tree) =>
      PanicsWhenBuilt(f, rows, mv, templates, tree);
  }

  lemma {:induction false} PanicsWhenBuilt(f: Feature, rows: seq<MergedRow>, mv: ComputedValues, templates: Templates,
                                           tree: Object)
    requires CT.HelmConfigMap(rows) == CT.Built(tree)
    ensures InSomeOrder(RenderPanic, f, rows, mv, templates) <==>
            TemplatePanics(f, rows, mv, templates) || (!NameIsText(mv) && CanGenerate(f, rows, mv, templates))
  {
    var render := RendererFor(templates, mv);
    PanicsInSomeOrderExactly(f.values, mv.kind, tree, render);
    forall order | Enumerates(order, f.values)
      ensures Outcome(RenderPanic, f, rows, mv, templates, order) <==>
                var g := Generated(f.values, mv.kind, tree, render, order);
                g == Err(TemplatePanic) || (g.Ok? && !NameIsText(mv))
    {
    }
  }

  lemma {:induction false} InputUnique(t: Tables, e: EnvRecord, f: Feature, ks: seq<string>, rows: seq<MergedRow>,
                                       ls: seq<string>, rows': seq<MergedRow>)
    requires IsInput(t, e, f, ks, rows) && IsInput(t, e, f, ls, rows')
    ensures rows == rows'
  {
    OverlayFilterIsASet(rows, rows', GlobalRows(GlobalsOf(t.globals, f.name)),
                        EnvRows(EnvConfigsOf(t.envConfigs, e.id, f.name)), ks, ls);
  }

  // ----- The two ways -----

  /** The reconcile loop's render and the render shown for the single environment can have
      the same results. */
  ghost predicate WaysAgree(t: Tables, e: EnvRecord, f: Feature, parse: Parser, templates: Templates, audience: string)
    requires e.tenantId in t.tenants
  {
    forall r :: Possible(r, t, e, f, InBulk, parse, templates, audience) <==>
                Possible(r, t, e, f, ForOne, parse, templates, audience)
  }

  /** A template that can tell the data of the two ways apart shows the difference, if there
      is a key for it: the loop then may panic where the single render fails. */
  lemma {:induction false} DifferenceShows(t: Tables, e: EnvRecord, f: Feature, parse: Parser, audience: string,
                                           keys: seq<string>, rows: seq<MergedRow>, k: string)
    returns (templates: Templates)
    requires ValidTables(t) && e in t.envs && IsInput(t, e, f, keys, rows) && CT.HelmConfigMap(rows).Built?
    requires ValuesFor(t, e, parse, InBulk, audience) != ValuesFor(t, e, parse, ForOne, audience)
    requires Active(f.values, e.kind, k) && f.values[k].computed.value != "" && Reached(CT.HelmConfigMap(rows).tree, k)
    ensures !WaysAgree(t, e, f, parse, templates, audience)
  {
    var bulk, one := ValuesFor(t, e, parse, InBulk, audience), ValuesFor(t, e, parse, ForOne, audience);
    templates := (mv, configs, template) => if mv == bulk then Crashes else Errs;
    var tree := CT.HelmConfigMap(rows).tree;
    assert Panics(f.values, tree, RendererFor(templates, bulk), k);
    forall l | Active(f.values, e.kind, l) ensures !Panics(f.values, tree, RendererFor(templates, one), l) {
    }
    PanicsExactly(t, e, f, InBulk, parse, templates, audience, keys, rows);
    PanicsExactly(t, e, f, ForOne, parse, templates, audience, keys, rows);
  }

  const PROBE := "x"

  /** A feature that computes the one key that it declares. */
  const ONE_KEY := Feature("", "", "", [], map[PROBE := ValueSpec(true, Some("t"), [], false)])

  lemma {:induction false} OneKeyIsBuilt(rows: seq<MergedRow>)
    requires StrictlyKeySorted(rows) && forall row :: row in rows ==> row.key == PROBE
    ensures CT.HelmConfigMap(rows).Built? && Reached(CT.HelmConfigMap(rows).tree, PROBE)
  {
    assert Escape(PROBE) == PROBE by {
      assert PROBE[1..] == "";
    }
    assert Print([PROBE]) == PROBE;
    SplitPrint([PROBE]);
    CT.MergedRowsExact(rows);
    forall i | 0 <= i < |rows| ensures rows[i].key == PROBE {
      assert rows[i] in rows;
    }
    assert CT.AllSplit(rows) && !CT.RawHit(rows);
    assert CT.PrefixFree(CT.Entries(rows));
    NothingOnTheWay(CT.HelmConfigMap(rows).tree, [PROBE]);
  }

  lemma {:induction false} NothingOnTheWay(o: Object, p: Path)
    requires |p| == 1
    ensures !LeafOnTheWay(o, p)
  {}

  lemma {:induction false} OneKeyInput(t: Tables, e: EnvRecord) returns (keys: seq<string>, rows: seq<MergedRow>)
    ensures IsInput(t, e, ONE_KEY, keys, rows)
    ensures StrictlyKeySorted(rows) && forall row :: row in rows ==> row.key == PROBE
  {
    keys := [PROBE];
    var global, env := GlobalRows(GlobalsOf(t.globals, "")), EnvRows(EnvConfigsOf(t.envConfigs, e.id, ""));
    var inForce := InForce(global, env, PROBE);
    LastWithKey(global, PROBE);
    LastWithKey(env, PROBE);
    rows := if inForce.Some? then [inForce.value] else [];
  }

  /** The two ways can have the same results, for every feature and all templates, exactly if
      no environment a template can see stores a name or kind other than its own. */
  lemma {:induction false} BulkAndSingleRenderAgree(t: Tables, e: EnvRecord, parse: Parser, audience: string)
    requires ValidTables(t) && e in t.envs
    ensures (forall f, templates :: WaysAgree(t, e, f, parse, templates, audience)) <==>
            forall other :: VisibleFrom(t, e, other) ==> OwnValuesStand(t, other, parse)
  {
    BulkAndSingleAgree(t, e, parse, audience);
    if ValuesFor(t, e, parse, InBulk, audience) != ValuesFor(t, e, parse, ForOne, audience) {
      var keys, rows := OneKeyInput(t, e);
      OneKeyIsBuilt(rows);
      var templates := DifferenceShows(t, e, ONE_KEY, parse, audience, keys, rows, PROBE);
    }
  }

  // ----- From cycle to cycle -----

  /** How rendering twice from the same tables compares where no computed key lies inside
      another: two results that are not panics are the same; a panic comes beside another
      result only where failures mix, and then that result is an error. */
  lemma {:induction false} SameWayRenderAgrees(a: RenderResult, b: RenderResult, t: Tables, e: EnvRecord, f: Feature,
                                               way: Way, parse: Parser, templates: Templates, audience: string,
                                               keys: seq<string>, rows: seq<MergedRow>)
    requires e.tenantId in t.tenants && NoneNested(f.values, e.kind) && IsInput(t, e, f, keys, rows)
    requires Possible(a, t, e, f, way, parse, templates, audience)
    requires Possible(b, t, e, f, way, parse, templates, audience)
    ensures (a.RenderPanic? <==> b.RenderPanic?) ==> SameResult(a, b)
    ensures a.RenderPanic? && !b.RenderPanic? ==>
              b.GenerateFailed? && FailuresMix(f, rows, ValuesFor(t, e, parse, way, audience), templates)
  {
    var mv := ValuesFor(t, e, parse, way, audience);
    var ks, rows1 :| IsInput(t, e, f, ks, rows1) && InSomeOrder(a, f, rows1, mv, templates);
    var ls, rows2 :| IsInput(t, e, f, ls, rows2) && InSomeOrder(b, f, rows2, mv, templates);
    InputUnique(t, e, f, keys, rows, ks, rows1);
    InputUnique(t, e, f, keys, rows, ls, rows2);
    InSomeOrdersCompared(a, b, f, rows, mv, templates);
  }

  lemma {:induction false} InSomeOrdersCompared(a: RenderResult, b: RenderResult, f: Feature, rows: seq<MergedRow>,
                                                mv: ComputedValues, templates: Templates)
    requires NoneNested(f.values, mv.kind)
    requires InSomeOrder(a, f, rows, mv, templates) && InSomeOrder(b, f, rows, mv, templates)
    ensures (a.RenderPanic? <==> b.RenderPanic?) ==> SameResult(a, b)
    ensures a.RenderPanic? && !b.RenderPanic? ==> b.GenerateFailed? && FailuresMix(f, rows, mv, templates)
  {
    OutcomeDeterministic(f, rows, mv, templates);
    if FailuresMix(f, rows, mv, templates) {
      MixedEndsEarly(a, f, rows, mv, templates);
      MixedEndsEarly(b, f, rows, mv, templates);
    }
  }

  lemma {:induction false} MixedEndsEarly(r: RenderResult, f: Feature, rows: seq<MergedRow>, mv: ComputedValues,
                                          templates: Templates)
    requires InSomeOrder(r, f, rows, mv, templates) && FailuresMix(f, rows, mv, templates)
    ensures r.RenderPanic? || r.GenerateFailed?
  {
    var order :| Enumerates(order, f.values) && Outcome(r, f, rows, mv, templates, order);
    var tree, render := CT.HelmConfigMap(rows).tree, RendererFor(templates, mv);
    var k :| Active(f.values, mv.kind, k) && Fails(f.values, tree, render, k);
    assert !CanFill(f.values, mv.kind, tree, render, AllActive(f.values, mv.kind)) by {
      assert k in AllActive(f.values, mv.kind);
    }
    GenerateExact(f.values, mv.kind, tree, render, order);
  }
}
