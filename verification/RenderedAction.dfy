/** What the reconcile loop makes of a render: values with a hash, or a reason; and the
    whole of computeAction, from the snapshot's rows to the decision. */
module RenderedAction {
  import opened Basics
  import opened Model
  import opened Compute
  import opened HelmRender
  import opened RenderInputs
  import opened ConfigMerge
  import opened Tree
  import Generate = Computed

  /** What rendering depends on: the tables, JSON decoding, template execution, the
      configured audience, hashing and the wording of errors. */
  datatype Source = Source(
    tables: Tables,
    parse: Parser,
    templates: Templates,
    audience: string,
    hash: (Object, string) -> Option<string>,
    describe: RenderResult -> string)

  /** A render that panics ends the process and has no outcome. */
  function OutcomeOf(r: RenderResult, f: Feature, src: Source): RenderOutcome
    requires !r.RenderPanic?
  {
    match r
    case Rendered(values) =>
      (match src.hash(values, f.version + f.chart)
       case Some(h) => Ready(values, h)
       case None => Broken(src.describe(r)))
    case MissingFields(fields) => LacksConfig(fields)
    case _ => Broken(src.describe(r))
  }

  predicate RecordOf(t: Tables, env: Environment, e: EnvRecord) {
    e in t.envs && e.id == env.id && e.kind == env.kind
  }

  ghost predicate CanRender(src: Source, e: EnvRecord, f: Feature, r: RenderResult)
    requires ValidTables(src.tables) && e in src.tables.envs
  {
    Possible(r, src.tables, e, f, InBulk, src.parse, src.templates, src.audience)
  }

  /** How rendering a feature for an environment can end in the reconcile loop. */
  ghost predicate CanEndIn(src: Source, env: Environment, f: Feature, o: RenderOutcome)
    requires ValidTables(src.tables)
  {
    exists e, r :: RecordOf(src.tables, env, e) && CanRender(src, e, f, r) && !r.RenderPanic? &&
      o == OutcomeOf(r, f, src)
  }

  // ----- computeAction, whole -----

  /** The snapshot's maps hold the tables. */
  ghost predicate Fetched(src: Source, globalConfig: map<string, seq<MergedRow>>,
                          envConfig: map<nat, map<string, seq<MergedRow>>>,
                          envValues: map<nat, ComputedValues>)
    requires ValidTables(src.tables)
  {
    && (forall g :: Group(globalConfig, g) == GlobalRows(GlobalsOf(src.tables.globals, g)))
    && (forall i, g :: EnvGroup(envConfig, i, g) == EnvRows(EnvConfigsOf(src.tables.envConfigs, i, g)))
    && (forall o :: o in src.tables.envs ==>
          o.id in envValues && envValues[o.id] == ValuesFor(src.tables, o, src.parse, InBulk, src.audience))
  }

  /** The decision is the one for an outcome that rendering can have. */
  ghost predicate AsRendered(src: Source, snap: Snapshot, env: Environment, dep: Assignment, d: Decision)
    requires ValidTables(src.tables)
  {
    exists o :: d == DecisionFor(snap, env, dep, o) &&
                (DependenciesMet(dep.feature, DeployedIn(snap, env.id)) ==> CanEndIn(src, env, dep.feature, o))
  }

  /** computeAction on the snapshot's maps; None where it panics. */
  method ComputeActionFromRows(src: Source, snap: Snapshot, env: Environment, ghost e: EnvRecord, dep: Assignment,
                               globalConfig: map<string, seq<MergedRow>>,
                               envConfig: map<nat, map<string, seq<MergedRow>>>,
                               envValues: map<nat, ComputedValues>)
    returns (decision: Option<Decision>)
    requires ValidTables(src.tables) && RecordOf(src.tables, env, e)
    requires Fetched(src, globalConfig, envConfig, envValues)
    ensures decision.Some? ==> AsRendered(src, snap, env, dep, decision.value)
    ensures decision.None? ==>
              DependenciesMet(dep.feature, DeployedIn(snap, env.id)) && CanRender(src, e, dep.feature, RenderPanic)
  {
    var ok, base := DependencyGate(snap, env, dep);
    if !ok {
      assert base == DecisionFor(snap, env, dep, Broken(""));
      return Some(base);
    }
    var o := RenderFromRows(src, env, e, dep.feature, globalConfig, envConfig, envValues);
    if o.None? {
      return None;
    }
    base := ActOnRender(snap, env, dep, base, o.value);
    return Some(base);
  }

  method RenderFromRows(src: Source, env: Environment, ghost e: EnvRecord, f: Feature,
                        globalConfig: map<string, seq<MergedRow>>,
                        envConfig: map<nat, map<string, seq<MergedRow>>>,
                        envValues: map<nat, ComputedValues>)
    returns (o: Option<RenderOutcome>)
    requires ValidTables(src.tables) && RecordOf(src.tables, env, e)
    requires Fetched(src, globalConfig, envConfig, envValues)
    ensures o.Some? ==> CanEndIn(src, env, f, o.value)
    ensures o.None? ==> CanRender(src, e, f, RenderPanic)
  {
    var r := RenderFromSnapshot(src.tables, env.id, env.kind, e, f, src.parse, src.templates, src.audience,
                                globalConfig, envConfig, envValues);
    assert CanRender(src, e, f, r);
    if r.RenderPanic? {
      return None;
    }
    return Some(OutcomeOf(r, f, src));
  }

  // ----- Main results -----

  /** How a render ends in the loop: ready with the hash of its values, the feature's
      version and its chart; with the missing fields; or with the text of an error, which a
      hash that cannot be computed is too. */
  ghost predicate EndsAs(src: Source, e: EnvRecord, f: Feature, o: RenderOutcome)
    requires ValidTables(src.tables) && e in src.tables.envs
  {
    match o
    case Ready(values, hash) =>
      CanRender(src, e, f, Rendered(values)) && src.hash(values, f.version + f.chart) == Some(hash)
    case LacksConfig(fields) => CanRender(src, e, f, MissingFields(fields))
    case Broken(message) =>
      exists r ::
        CanRender(src, e, f, r) && message == src.describe(r) &&
        (r.ConfigMapError? || r.GenerateFailed? || (r.Rendered? && src.hash(r.values, f.version + f.chart) == None))
  }

  lemma {:induction false} EndingsExactly(src: Source, env: Environment, f: Feature, o: RenderOutcome)
    requires ValidTables(src.tables)
    ensures CanEndIn(src, env, f, o) <==>
            exists e :: e in src.tables.envs && e.id == env.id && e.kind == env.kind && EndsAs(src, e, f, o)
  {
    if CanEndIn(src, env, f, o) {
      var e := RenderOfEnding(src, env, f, o);
    }
    forall e | e in src.tables.envs && e.id == env.id && e.kind == env.kind && EndsAs(src, e, f, o)
      ensures CanEndIn(src, env, f, o)
    {
      EndingFromRender(src, env, e, f, o);
    }
  }

  lemma {:induction false} RenderOfEnding(src: Source, env: Environment, f: Feature, o: RenderOutcome)
    returns (e: EnvRecord)
    requires ValidTables(src.tables) && CanEndIn(src, env, f, o)
    ensures e in src.tables.envs && e.id == env.id && e.kind == env.kind && EndsAs(src, e, f, o)
  {
    var r;
    e, r :| RecordOf(src.tables, env, e) && CanRender(src, e, f, r) && !r.RenderPanic? && o == OutcomeOf(r, f, src);
    RenderEnds(src, e, f, r);
  }

  lemma {:induction false} RenderEnds(src: Source, e: EnvRecord, f: Feature, r: RenderResult)
    requires ValidTables(src.tables) && e in src.tables.envs && CanRender(src, e, f, r) && !r.RenderPanic?
    ensures EndsAs(src, e, f, OutcomeOf(r, f, src))
  {}

  lemma {:induction false} EndingFromRender(src: Source, env: Environment, e: EnvRecord, f: Feature, o: RenderOutcome)
    requires ValidTables(src.tables) && e in src.tables.envs && e.id == env.id && e.kind == env.kind
    requires EndsAs(src, e, f, o)
    ensures CanEndIn(src, env, f, o)
  {
    assert RecordOf(src.tables, env, e);
    match o
    case Ready(values, hash) => assert OutcomeOf(Rendered(values), f, src) == o;
    case LacksConfig(fields) => assert OutcomeOf(MissingFields(fields), f, src) == o;
    case Broken(message) =>
      var r :| CanRender(src, e, f, r) && message == src.describe(r) &&
        (r.ConfigMapError? || r.GenerateFailed? || (r.Rendered? && src.hash(r.values, f.version + f.chart) == None));
      assert OutcomeOf(r, f, src) == o;
  }

  /** The same tables give the same values and hash, whatever the map order, where no
      computed key lies inside another. */
  lemma {:induction false} SameTablesSameEnding(src: Source, env: Environment, f: Feature, a: RenderOutcome,
                                                b: RenderOutcome)
    requires ValidTables(src.tables) && CanEndIn(src, env, f, a) && CanEndIn(src, env, f, b)
    ensures Generate.NoneNested(f.values, env.kind) ==> SameEnding(a, b)
  {
    var e, r :| RecordOf(src.tables, env, e) && CanRender(src, e, f, r) && !r.RenderPanic? && a == OutcomeOf(r, f, src);
    var e', r' :|
      RecordOf(src.tables, env, e') && CanRender(src, e', f, r') && !r'.RenderPanic? && b == OutcomeOf(r', f, src);
    RecordUnique(src.tables, env, e, e');
    if Generate.NoneNested(f.values, env.kind) {
      var keys, rows := InputOf(src, e, f, r);
      SameWayRenderAgrees(r, r', src.tables, e, f, InBulk, src.parse, src.templates, src.audience, keys, rows);
    }
  }

  lemma {:induction false} InputOf(src: Source, e: EnvRecord, f: Feature, r: RenderResult)
    returns (keys: seq<string>, rows: seq<MergedRow>)
    requires ValidTables(src.tables) && e in src.tables.envs && CanRender(src, e, f, r)
    ensures IsInput(src.tables, e, f, keys, rows) && InSomeOrder(r, f, rows, DataOf(src, e), src.templates)
  {
    keys, rows :|
      IsInput(src.tables, e, f, keys, rows) && InSomeOrder(r, f, rows, DataOf(src, e), src.templates);
  }

  lemma {:induction false} RecordUnique(t: Tables, env: Environment, e: EnvRecord, e': EnvRecord)
    requires ValidTables(t) && RecordOf(t, env, e) && RecordOf(t, env, e')
    ensures e == e'
  {
    var i :| 0 <= i < |t.envs| && t.envs[i] == e;
    var j :| 0 <= j < |t.envs| && t.envs[j] == e';
  }

  // ----- Panics beside endings -----

  function DataOf(src: Source, e: EnvRecord): ComputedValues
    requires ValidTables(src.tables) && e in src.tables.envs
  {
    ValuesFor(src.tables, e, src.parse, InBulk, src.audience)
  }

  /** How computeAction's render can finish: with an outcome, or, None, with a panic. */
  ghost predicate CanFinish(src: Source, env: Environment, f: Feature, o: Option<RenderOutcome>)
    requires ValidTables(src.tables)
  {
    exists e, r :: RecordOf(src.tables, env, e) && CanRender(src, e, f, r) && o == FinishOf(r, f, src)
  }

  function FinishOf(r: RenderResult, f: Feature, src: Source): Option<RenderOutcome> {
    if r.RenderPanic? then None else Some(OutcomeOf(r, f, src))
  }

  predicate SameFinish(a: Option<RenderOutcome>, b: Option<RenderOutcome>) {
    (a.None? && b.None?) || (a.Some? && b.Some? && SameEnding(a.value, b.value))
  }

  /** Of the feature's keys one fails in this environment and another one panics. */
  ghost predicate SourceMixes(src: Source, env: Environment, f: Feature)
    requires ValidTables(src.tables)
  {
    exists e, keys, rows ::
      RecordOf(src.tables, env, e) && IsInput(src.tables, e, f, keys, rows) &&
      FailuresMix(f, rows, DataOf(src, e), src.templates)
  }

  ghost predicate OneFinish(src: Source, env: Environment, f: Feature)
    requires ValidTables(src.tables)
  {
    forall a, b :: CanFinish(src, env, f, a) && CanFinish(src, env, f, b) ==> SameFinish(a, b)
  }

  /** Without nested computed keys the same tables always finish alike, panics included,
      exactly if there are not both a key that fails and a key that panics. */
  lemma {:induction false} SameTablesSameFinish(src: Source, env: Environment, f: Feature)
    requires ValidTables(src.tables) && Generate.NoneNested(f.values, env.kind)
    ensures OneFinish(src, env, f) <==> !SourceMixes(src, env, f)
  {
    if SourceMixes(src, env, f) {
      MixingShows(src, env, f);
    } else {
      forall a, b | CanFinish(src, env, f, a) && CanFinish(src, env, f, b) ensures SameFinish(a, b) {
        UnmixedFinishes(src, env, f, a, b);
      }
    }
  }

  lemma {:induction false} MixingShows(src: Source, env: Environment, f: Feature)
    requires ValidTables(src.tables) && SourceMixes(src, env, f)
    ensures !OneFinish(src, env, f)
  {
    var e, keys, rows :|
      RecordOf(src.tables, env, e) && IsInput(src.tables, e, f, keys, rows) &&
      FailuresMix(f, rows, DataOf(src, e), src.templates);
    MixedRowsShow(src, env, e, f, keys, rows);
  }

  lemma {:induction false} MixedRowsShow(src: Source, env: Environment, e: EnvRecord, f: Feature, keys: seq<string>,
                                         rows: seq<MergedRow>)
    requires ValidTables(src.tables) && RecordOf(src.tables, env, e) && IsInput(src.tables, e, f, keys, rows)
    requires FailuresMix(f, rows, DataOf(src, e), src.templates)
    ensures !OneFinish(src, env, f)
  {
    var error := MixedShows(f, rows, DataOf(src, e), src.templates);
    RowsFinish(src, env, e, f, keys, rows, RenderPanic);
    RowsFinish(src, env, e, f, keys, rows, GenerateFailed(error));
    assert !SameFinish(FinishOf(RenderPanic, f, src), FinishOf(GenerateFailed(error), f, src));
  }

  lemma {:induction false} RowsFinish(src: Source, env: Environment, e: EnvRecord, f: Feature, keys: seq<string>,
                                      rows: seq<MergedRow>, r: RenderResult)
    requires ValidTables(src.tables) && RecordOf(src.tables, env, e) && IsInput(src.tables, e, f, keys, rows)
    requires InSomeOrder(r, f, rows, DataOf(src, e), src.templates)
    ensures CanFinish(src, env, f, FinishOf(r, f, src))
  {
    assert CanRender(src, e, f, r);
  }

  /** The render that a finish comes from. */
  lemma {:induction false} RenderOfFinish(src: Source, env: Environment, f: Feature, o: Option<RenderOutcome>)
    returns (e: EnvRecord, r: RenderResult)
    requires ValidTables(src.tables) && CanFinish(src, env, f, o)
    ensures RecordOf(src.tables, env, e) && CanRender(src, e, f, r) && o == FinishOf(r, f, src)
  {
    e, r :| RecordOf(src.tables, env, e) && CanRender(src, e, f, r) && o == FinishOf(r, f, src);
  }

  lemma {:induction false} UnmixedFinishes(src: Source, env: Environment, f: Feature, a: Option<RenderOutcome>,
                                           b: Option<RenderOutcome>)
    requires ValidTables(src.tables) && Generate.NoneNested(f.values, env.kind) && !SourceMixes(src, env, f)
    requires CanFinish(src, env, f, a) && CanFinish(src, env, f, b)
    ensures SameFinish(a, b)
  {
    var e, r := RenderOfFinish(src, env, f, a);
    var e', r' := RenderOfFinish(src, env, f, b);
    RecordUnique(src.tables, env, e, e');
    var keys, rows := InputOf(src, e, f, r);
    SameWayRenderAgrees(r, r', src.tables, e, f, InBulk, src.parse, src.templates, src.audience, keys, rows);
    SameWayRenderAgrees(r', r, src.tables, e, f, InBulk, src.parse, src.templates, src.audience, keys, rows);
  }
}
