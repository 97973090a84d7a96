/** Which features render to the same values and hash again and again, exactly. */
module RenderStability {
  import opened Basics
  import opened DotSplit
  import opened Model
  import opened Tree
  import opened Computed
  import opened ConfigMerge
  import opened RenderInputs
  import opened RequiredFields
  import opened HelmRender
  import opened Confluence
  import opened Compute
  import opened RenderedAction
  import CT = ConfigTree

  /** Whatever the tables and templates, two renders of the feature from the same tables
      finish alike, unless a failing and a panicking template are there side by side. */
  ghost predicate Stable(f: Feature, kind: string) {
    forall src: Source, env: Environment ::
      env.kind == kind && ValidTables(src.tables) && !SourceMixes(src, env, f) ==> OneFinish(src, env, f)
  }

  // ----- A source from which the order shows -----

  function Bare(kind: string): Source {
    Source(Tables(map[0 := ""], [EnvRecord(0, 0, "", kind)], [], [], []), s => Null,
           (mv, config, template) => Yields(Text("")), "",
           (values, suffix) => Some(""), r => "")
  }

  function BareEnvironment(kind: string): Environment {
    Environment(0, "", "", kind, map[])
  }

  lemma {:induction false} BareInput(f: Feature, kind: string) returns (keys: seq<string>)
    ensures IsInput(Bare(kind).tables, EnvRecord(0, 0, "", kind), f, keys, [])
    ensures CT.HelmConfigMap([]) == CT.Built(map[])
  {
    keys := SortedElements(IncludeKeys(f.values, kind));
  }

  function BareValues(kind: string): ComputedValues {
    ValuesFor(Bare(kind).tables, EnvRecord(0, 0, "", kind), Bare(kind).parse, InBulk, "")
  }

  ghost function BareGenerated(f: Feature, kind: string, order: seq<string>): Result<Object, GenerateError> {
    Generated(f.values, kind, map[], RendererFor(Bare(kind).templates, BareValues(kind)), order)
  }

  /** What an iteration order makes of the bare source, the loop can get. */
  lemma {:induction false} BareRender(f: Feature, kind: string, order: seq<string>, r: RenderResult)
    requires Enumerates(order, f.values) && !r.RenderPanic?
    requires Finished(r, f, [], BareValues(kind), BareGenerated(f, kind, order))
    ensures ValidTables(Bare(kind).tables)
    ensures CanEndIn(Bare(kind), BareEnvironment(kind), f, OutcomeOf(r, f, Bare(kind)))
  {
    var src, e := Bare(kind), EnvRecord(0, 0, "", kind);
    var keys := BareInput(f, kind);
    assert Outcome(r, f, [], BareValues(kind), src.templates, order);
    assert InSomeOrder(r, f, [], BareValues(kind), src.templates);
    assert CanRender(src, e, f, r);
    assert RecordOf(src.tables, BareEnvironment(kind), e);
  }

  lemma {:induction false} MissingListExists(f: Feature, kind: string, rows: seq<MergedRow>, full: Object)
    returns (fields: seq<string>)
    ensures IsMissingList(fields, f.values, kind, rows, full)
  {
    fields := SortedElements(set k | k in f.values && Missing(f.values, kind, rows, full, k));
  }

  /** Generated values end in something other than an error, a failed generation in one. */
  lemma {:induction false} FinishExists(f: Feature, mv: ComputedValues, rows: seq<MergedRow>,
                                        g: Result<Object, GenerateError>)
    returns (r: RenderResult)
    requires NameIsText(mv) && g != Err(TemplatePanic)
    ensures Finished(r, f, rows, mv, g)
    ensures if g.Err? then r.GenerateFailed? else r.Rendered? || r.MissingFields?
  {
    if g.Err? {
      r := GenerateFailed(g.error);
    } else {
      var full := WithFasit(g.value, mv, mv.env["name"].text, mv.kind);
      if AnyMissing(f, mv.kind, rows, full) {
        var fields := MissingListExists(f, mv.kind, rows, full);
        r := MissingFields(fields);
      } else {
        r := Rendered(full);
      }
    }
  }

  lemma {:induction false} BareNeverPanics(f: Feature, kind: string, order: seq<string>)
    ensures BareGenerated(f, kind, order).Err? ==> !BareGenerated(f, kind, order).error.TemplatePanic?
    ensures ValidTables(Bare(kind).tables) && !SourceMixes(Bare(kind), BareEnvironment(kind), f)
  {
    var render := RendererFor(Bare(kind).templates, BareValues(kind));
    assert !SomePanics(f.values, kind, map[], render);
    if BareGenerated(f, kind, order) == Err(TemplatePanic) {
      PanicHasCause(f.values, kind, map[], render, order, |order|);
    }
  }

  lemma {:induction false} BareEnd(f: Feature, kind: string, order: seq<string>) returns (o: RenderOutcome)
    requires Enumerates(order, f.values)
    ensures ValidTables(Bare(kind).tables) && CanEndIn(Bare(kind), BareEnvironment(kind), f, o)
    ensures o.Broken? <==> BareGenerated(f, kind, order).Err?
  {
    BareNeverPanics(f, kind, order);
    var r := FinishExists(f, BareValues(kind), [], BareGenerated(f, kind, order));
    BareRender(f, kind, order, r);
    o := BareOutcome(f, kind, r);
  }

  lemma {:induction false} BareOutcome(f: Feature, kind: string, r: RenderResult) returns (o: RenderOutcome)
    requires !r.RenderPanic?
    ensures o == OutcomeOf(r, f, Bare(kind)) && (o.Broken? <==> !r.Rendered? && !r.MissingFields?)
  {
    o := OutcomeOf(r, f, Bare(kind));
  }

  lemma {:induction false} EndingFinishes(src: Source, env: Environment, f: Feature, o: RenderOutcome)
    requires ValidTables(src.tables) && CanEndIn(src, env, f, o)
    ensures CanFinish(src, env, f, Some(o))
  {
    var e, r :| RecordOf(src.tables, env, e) && CanRender(src, e, f, r) && !r.RenderPanic? && o == OutcomeOf(r, f, src);
    assert FinishOf(r, f, src) == Some(o);
  }

  lemma {:induction false} NestedIsUnstable(f: Feature, kind: string, outer: string, inner: string)
    requires NoneRefused(f.values, kind)
    requires Active(f.values, kind, outer) && Active(f.values, kind, inner) && Split(outer).value < Split(inner).value
    ensures !Stable(f, kind)
  {
    var src, env := Bare(kind), BareEnvironment(kind);
    var render := RendererFor(src.templates, BareValues(kind));
    var failing, succeeding := NestedKeysDependOnOrder(f.values, kind, render, outer, inner);
    var bad := BareEnd(f, kind, failing);
    var good := BareEnd(f, kind, succeeding);
    BareNeverPanics(f, kind, failing);
    DifferentEndings(src, env, f, bad, good);
    assert env.kind == kind;
  }

  lemma {:induction false} DifferentEndings(src: Source, env: Environment, f: Feature, a: RenderOutcome,
                                            b: RenderOutcome)
    requires ValidTables(src.tables) && CanEndIn(src, env, f, a) && CanEndIn(src, env, f, b) && !SameEnding(a, b)
    ensures !OneFinish(src, env, f)
  {
    EndingFinishes(src, env, f, a);
    EndingFinishes(src, env, f, b);
    assert !SameFinish(Some(a), Some(b));
  }

  /** With a refused key a render ends as its configuration makes it end, or in an error. */
  lemma {:induction false} RefusedEnds(r: RenderResult, f: Feature, rows: seq<MergedRow>, mv: ComputedValues,
                                       templates: Templates)
    requires InSomeOrder(r, f, rows, mv, templates) && !FailuresMix(f, rows, mv, templates)
    requires !NoneRefused(f.values, mv.kind)
    ensures if CT.HelmConfigMap(rows).Panicked? then r == RenderPanic else r.ConfigMapError? || r.GenerateFailed?
  {
    var order :| Enumerates(order, f.values) && Outcome(r, f, rows, mv, templates, order);
    if CT.HelmConfigMap(rows).Built? {
      RefusedFails(f.values, mv.kind, CT.HelmConfigMap(rows).tree, RendererFor(templates, mv), order);
    }
  }

  lemma {:induction false} RefusedFinishes(src: Source, env: Environment, f: Feature, a: Option<RenderOutcome>,
                                           b: Option<RenderOutcome>)
    requires ValidTables(src.tables) && !NoneRefused(f.values, env.kind) && !SourceMixes(src, env, f)
    requires CanFinish(src, env, f, a) && CanFinish(src, env, f, b)
    ensures SameFinish(a, b)
  {
    var e, r := RenderOfFinish(src, env, f, a);
    var e', r' := RenderOfFinish(src, env, f, b);
    RecordUnique(src.tables, env, e, e');
    RefusedRenders(src, env, e, f, r, r');
  }

  lemma {:induction false} RefusedRenders(src: Source, env: Environment, e: EnvRecord, f: Feature, r: RenderResult,
                                          r': RenderResult)
    requires ValidTables(src.tables) && !NoneRefused(f.values, env.kind) && !SourceMixes(src, env, f)
    requires RecordOf(src.tables, env, e) && CanRender(src, e, f, r) && CanRender(src, e, f, r')
    ensures SameFinish(FinishOf(r, f, src), FinishOf(r', f, src))
  {
    var keys, rows := InputOf(src, e, f, r);
    var keys', rows' := InputOf(src, e, f, r');
    InputUnique(src.tables, e, f, keys, rows, keys', rows');
    RefusedEnds(r, f, rows, DataOf(src, e), src.templates);
    RefusedEnds(r', f, rows, DataOf(src, e), src.templates);
  }

  /** A feature renders to the same values and hash again and again, up to the text of
      errors, exactly if no computed key lies inside another, or one is malformed or has an
      empty template. */
  lemma {:induction false} StableExactly(f: Feature, kind: string)
    ensures Stable(f, kind) <==> NoneNested(f.values, kind) || !NoneRefused(f.values, kind)
  {
    if NoneNested(f.values, kind) {
      forall src: Source, env: Environment | env.kind == kind && ValidTables(src.tables) && !SourceMixes(src, env, f)
        ensures OneFinish(src, env, f)
      {
        SameTablesSameFinish(src, env, f);
      }
    } else if NoneRefused(f.values, kind) {
      var k, l :| Active(f.values, kind, k) && Active(f.values, kind, l) && Split(k).value < Split(l).value;
      NestedIsUnstable(f, kind, k, l);
    } else {
      forall src: Source, env: Environment | env.kind == kind && ValidTables(src.tables) && !SourceMixes(src, env, f)
        ensures OneFinish(src, env, f)
      {
        RefusedIsStable(src, env, f);
      }
    }
  }

  lemma {:induction false} RefusedIsStable(src: Source, env: Environment, f: Feature)
    requires ValidTables(src.tables) && !NoneRefused(f.values, env.kind) && !SourceMixes(src, env, f)
    ensures OneFinish(src, env, f)
  {
    forall a, b | CanFinish(src, env, f, a) && CanFinish(src, env, f, b) ensures SameFinish(a, b) {
      RefusedFinishes(src, env, f, a, b);
    }
  }
}
