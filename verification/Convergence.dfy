/** Convergence: with the desired state fixed and the agents reporting success, which
    features are deployed after n rounds, exactly. */
module Convergence {
  import opened Basics
  import opened Model
  import opened Compute
  import opened DeployLog
  import opened Redeploy
  import opened DeployRuns

  // ----- Rounds -----

  /** One cycle, and the status messages that arrive before the next one. */
  datatype Round = Round(snap: Snapshot, clock: int, results: seq<Decision>, uuids: seq<Diid>, accepted: set<Diid>,
                         reports: seq<Step>)

  function CycleOf(r: Round): Step {
    Cycle(r.snap, r.clock, r.results, r.uuids, r.accepted, true)
  }

  /** Each message is about a deploy in flight and says installing or deployed; in the
      end nothing is in flight. Messages may interleave in any way. */
  ghost predicate Reports(log: seq<DeployRow>, reports: seq<Step>, after: seq<DeployRow>)
    decreases |reports|
  {
    if reports == [] then after == log && Quiet(log)
    else GoodNews(log, reports[0]) && Reports(log + RowsAppended(log, reports[0]), reports[1..], after)
  }

  predicate GoodNews(log: seq<DeployRow>, step: Step) {
    && step.Status? && InFlight(log, step.diid)
    && (step.status == Installing || step.status == Deployed)
    && LatestOfDiid(log, step.diid).value.environment in step.known
  }

  ghost predicate Quiet(log: seq<DeployRow>) {
    forall d :: !InFlight(log, d)
  }

  /** The desired state stays: of what decisions depend on, only the views of the log and
      the health reports change; every winner renders as it did, up to the text of errors. */
  ghost predicate StillDesired(snap: Snapshot, clock: int, desired: Snapshot) {
    && SameState(snap, clock, desired)
    && forall env, dep :: Wanted(desired, env, dep) ==> RendersAlike(snap, desired, env, dep)
  }

  ghost predicate SameState(snap: Snapshot, clock: int, desired: Snapshot) {
    && snap.environments == desired.environments && snap.assignments == desired.assignments
    && snap.disabled == desired.disabled
    && forall env :: env in snap.environments ==> Healthy(snap, clock, env.id)
  }

  predicate RendersAlike(a: Snapshot, b: Snapshot, env: Environment, dep: Assignment) {
    SameEnding(a.render(env, dep), b.render(env, dep))
  }

  ghost predicate IsRound(desired: Snapshot, log: seq<DeployRow>, r: Round, after: seq<DeployRow>) {
    StillDesired(r.snap, r.clock, desired) && IsCycle(log, r, after)
  }

  ghost predicate IsCycle(log: seq<DeployRow>, r: Round, after: seq<DeployRow>) {
    && Enabled(log, CycleOf(r))
    && (forall u :: u in r.uuids ==> u in r.accepted)
    && Reports(log + RowsAppended(log, CycleOf(r)), r.reports, after)
  }

  ghost predicate AreRounds(desired: Snapshot, logs: seq<seq<DeployRow>>, rounds: seq<Round>) {
    && |logs| == |rounds| + 1
    && forall i {:trigger rounds[i]} :: 0 <= i < |rounds| ==> IsRound(desired, logs[i], rounds[i], logs[i + 1])
  }

  /** Every winner renders and is enabled. */
  ghost predicate Deployable(desired: Snapshot) {
    && DistinctEnvironments(desired)
    && forall env, dep :: Wanted(desired, env, dep) ==>
      desired.render(env, dep).Ready? && dep.feature.name !in DisabledIn(desired, env.id)
  }

  ghost predicate Wanted(desired: Snapshot, env: Environment, dep: Assignment) {
    env in desired.environments && WinsIn(desired, env, dep)
  }

  ghost predicate Start(log: seq<DeployRow>) {
    Lineage(log) && Quiet(log)
  }

  // ----- The status messages of a round -----

  predicate Settled(before: Option<DeployRow>, after: Option<DeployRow>) {
    match before
    case None => after.None?
    case Some(r) =>
      after.Some? && SameDeploy(r, after.value) && after.value.status == if IsInProgress(r.status) then Deployed
        else r.status
  }

  lemma {:induction false} ReportsSettle(log: seq<DeployRow>, reports: seq<Step>, after: seq<DeployRow>)
    requires Lineage(log) && Safe(log) && Reports(log, reports, after)
    ensures Start(after)
    ensures forall p :: Settled(Latest(log, p), Latest(after, p))
    decreases |reports|
  {
    if reports == [] {
      QuietView(log);
      forall p ensures Settled(Latest(log, p), Latest(after, p)) {
        assert Free(log, p);
      }
    } else {
      var step := reports[0];
      var next := log + RowsAppended(log, step);
      var row := LatestOfDiid(log, step.diid).value;
      LatestOfDiidFound(log, step.diid);
      assert OwnsLatest(log, step.diid);
      StepKeepsLineage(log, step);
      StepSafeIffOnTime(log, step);
      ReportsSettle(next, reports[1..], after);
      Appended(log, row.(status := step.status, created := step.clock));
      forall p ensures Settled(Latest(log, p), Latest(after, p)) {
        assert Settled(Latest(next, p), Latest(after, p));
      }
    }
  }

  lemma {:induction false} QuietView(log: seq<DeployRow>)
    requires Start(log)
    ensures Safe(log)
    ensures forall p :: Free(log, p)
  {
    forall p ensures Free(log, p) {
      if Latest(log, p).Some? {
        LatestOwned(log, p);
        assert !InFlight(log, Latest(log, p).value.diid);
      }
    }
  }

  // ----- The cycle of a round -----

  lemma {:induction false} SentView(log: seq<DeployRow>, decisions: seq<Decision>, uuids: seq<Diid>,
                                    accepted: set<Diid>, now: int, i: nat)
    requires i < |decisions| <= |uuids| && OnePerPair(decisions) && Fresh(log, uuids)
    requires forall u :: u in uuids ==> u in accepted
    ensures Latest(log + SentRows(decisions, uuids, accepted, now), DecidedPair(decisions[i]))
         == if WillDeploy(decisions[i]) then Some(SentRow(decisions[i], uuids[i], now))
           else Latest(log, DecidedPair(decisions[i]))
  {
    var n := |decisions| - 1;
    var before := SentRows(decisions[..n], uuids, accepted, now);
    assert uuids[n] in accepted;
    if WillDeploy(decisions[n]) {
      assert log + (before + [SentRow(decisions[n], uuids[n], now)]) ==
        (log + before) + [SentRow(decisions[n], uuids[n], now)];
      Appended(log + before, SentRow(decisions[n], uuids[n], now));
    } else {
      assert SentRows(decisions, uuids, accepted, now) == before;
    }
    if i == n {
      StillFree(log, decisions, uuids, accepted, now);
    } else {
      SentView(log, decisions[..n], uuids, accepted, now, i);
    }
  }

  lemma {:induction false} UndecidedView(log: seq<DeployRow>, decisions: seq<Decision>, uuids: seq<Diid>,
                                         accepted: set<Diid>, now: int, p: Pair)
    requires |decisions| <= |uuids|
    requires forall d :: d in decisions ==> DecidedPair(d) != p
    ensures Latest(log + SentRows(decisions, uuids, accepted, now), p) == Latest(log, p)
  {
    var rows := SentRows(decisions, uuids, accepted, now);
    SentRowsFrom(decisions, uuids, accepted, now);
    forall r | r in rows ensures PairOf(r) != p {
      assert SentFrom(decisions, uuids, now, r);
      var i :| 0 <= i < |decisions| && r == SentRow(decisions[i], uuids[i], now);
      assert decisions[i] in decisions;
    }
    LatestUnaffected(log, rows, p);
  }

  // ----- One round -----

  function PairIn(env: Environment, dep: Assignment): Pair {
    Pair(env.id, dep.feature.name)
  }

  /** The pair runs what is desired. */
  predicate Done(desired: Snapshot, log: seq<DeployRow>, env: Environment, dep: Assignment) {
    var latest, outcome := Latest(log, PairIn(env, dep)), desired.render(env, dep);
    latest.Some? && outcome.Ready? && latest.value.status == Deployed && latest.value.hash == outcome.hash
  }

  /** The last deploy of the desired hash ended otherwise: "in sync", and not retried. */
  predicate Stuck(desired: Snapshot, log: seq<DeployRow>, env: Environment, dep: Assignment) {
    var latest, outcome := Latest(log, PairIn(env, dep)), desired.render(env, dep);
    latest.Some? && outcome.Ready? && latest.value.status != Deployed && latest.value.hash == outcome.hash
  }

  /** The features deployed in an environment, read off the log. */
  function DeployedSet(log: seq<DeployRow>, env: EnvId): set<string> {
    set r | r in log && r.environment == env && IsDeployed(log, PairOf(r)) :: r.feature
  }

  lemma {:induction false} DeployedSetMeaning(log: seq<DeployRow>, env: EnvId, f: string)
    ensures f in DeployedSet(log, env) <==> IsDeployed(log, Pair(env, f))
  {
    LatestFound(log, Pair(env, f));
  }

  lemma {:induction false} SnapshotShowsDeployed(snap: Snapshot, log: seq<DeployRow>, env: EnvId)
    requires ReadsLog(snap, log)
    ensures DeployedIn(snap, env) == DeployedSet(log, env)
  {
    forall f ensures f in DeployedIn(snap, env) <==> f in DeployedSet(log, env) {
      DeployedSetMeaning(log, env, f);
      assert (env in snap.deployed && f in snap.deployed[env]) <==> IsDeployed(log, Pair(env, f));
    }
  }

  predicate Advances(desired: Snapshot, log: seq<DeployRow>, env: Environment, dep: Assignment, deployed: set<string>) {
    !Stuck(desired, log, env, dep) && DependenciesMet(dep.feature, deployed)
  }

  /** What the cycle decides for a winner. */
  lemma {:induction false} WinnerDecision(desired: Snapshot, log: seq<DeployRow>, r: Round, env: Environment,
                                          dep: Assignment) returns (i: nat)
    requires Deployable(desired) && Start(log) && StillDesired(r.snap, r.clock, desired) && Enabled(log, CycleOf(r))
    requires Wanted(desired, env, dep)
    ensures i < |r.results| && r.results[i] == Dispatched(r.snap, r.clock, env, dep)
    ensures DecidedPair(r.results[i]) == PairIn(env, dep)
    ensures var d, latest, outcome := r.results[i], Latest(log, PairIn(env, dep)), desired.render(env, dep);
            var met := DependenciesMet(dep.feature, DeployedSet(log, env.id));
            && outcome.Ready?
            && (d.action == ActionDeploy <==> met && (latest.None? || latest.value.hash != outcome.hash))
            && (d.action == ActionSkipUnchanged <==> met && latest.Some? && latest.value.hash == outcome.hash)
            && (met ==> d.hash == outcome.hash)
  {
    var d := Dispatched(r.snap, r.clock, env, dep);
    assert RendersAlike(r.snap, desired, env, dep);
    DispatchedPair(r.snap, r.clock, env, dep);
    DecisionMeaning(r.snap, r.clock, env, dep);
    QuietView(log);
    SnapshotShowsDeployed(r.snap, log, env.id);
    assert Free(log, PairIn(env, dep));
    assert ShownInstruction(r.snap.latest, env.id, dep.feature.name) == InstructionOf(Latest(log, PairIn(env, dep)));
    assert WinsIn(r.snap, env, dep) && DecisionFrom(r.snap, r.clock, env, dep, d);
    assert IsDecision(r.snap, r.clock, d);
    i :| 0 <= i < |r.results| && r.results[i] == d;
  }

  lemma {:induction false} CycleKeepsInvariants(desired: Snapshot, log: seq<DeployRow>, r: Round)
    requires Start(log) && Enabled(log, CycleOf(r))
    ensures var mid := log + RowsAppended(log, CycleOf(r)); Lineage(mid) && Safe(mid)
  {
    QuietView(log);
    StepKeepsLineage(log, CycleOf(r));
    StepSafeIffOnTime(log, CycleOf(r));
  }

  /** One round, for one winner: it is done afterwards exactly where it was, or where it
      is not stuck and its dependencies were deployed. Nothing becomes or stops being stuck. */
  lemma {:induction false} RoundForWinner(desired: Snapshot, log: seq<DeployRow>, r: Round, after: seq<DeployRow>,
                                          env: Environment, dep: Assignment)
    requires Deployable(desired) && Start(log) && IsRound(desired, log, r, after) && Wanted(desired, env, dep)
    ensures var go := Advances(desired, log, env, dep, DeployedSet(log, env.id));
            && (Done(desired, after, env, dep) <==> Done(desired, log, env, dep) || go)
            && (Stuck(desired, after, env, dep) <==> Stuck(desired, log, env, dep))
            && (IsDeployed(after, PairIn(env, dep)) <==> IsDeployed(log, PairIn(env, dep)) || go)
  {
    var mid := log + RowsAppended(log, CycleOf(r));
    CycleKeepsInvariants(desired, log, r);
    ReportsSettle(mid, r.reports, after);
    QuietView(log);
    assert Free(log, PairIn(env, dep));
    var i := WinnerDecision(desired, log, r, env, dep);
    SentView(log, r.results, r.uuids, r.accepted, r.clock, i);
    assert Settled(Latest(mid, PairIn(env, dep)), Latest(after, PairIn(env, dep)));
  }

  /** Pairs without a winner keep what they have. */
  lemma {:induction false} RoundForOthers(desired: Snapshot, log: seq<DeployRow>, r: Round, after: seq<DeployRow>,
                                          env: Environment, f: string)
    requires Deployable(desired) && Start(log) && IsRound(desired, log, r, after) && env in desired.environments
    requires forall dep :: Wanted(desired, env, dep) ==> dep.feature.name != f
    ensures IsDeployed(after, Pair(env.id, f)) <==> IsDeployed(log, Pair(env.id, f))
  {
    var mid := log + RowsAppended(log, CycleOf(r));
    CycleKeepsInvariants(desired, log, r);
    ReportsSettle(mid, r.reports, after);
    QuietView(log);
    var p := Pair(env.id, f);
    assert Free(log, p);
    forall d | d in r.results ensures DecidedPair(d) != p {
      assert IsDecision(r.snap, r.clock, d);
      var e, dep :| DecisionFrom(r.snap, r.clock, e, dep, d);
      DispatchedPair(r.snap, r.clock, e, dep);
      assert Wanted(desired, e, dep);
      SameEnvironment(desired, env, e);
    }
    UndecidedView(log, r.results, r.uuids, r.accepted, r.clock, p);
    assert Settled(Latest(mid, p), Latest(after, p));
  }

  lemma {:induction false} SameEnvironment(snap: Snapshot, a: Environment, b: Environment)
    requires DistinctEnvironments(snap) && a in snap.environments && b in snap.environments
    ensures a.id == b.id ==> a == b
  {
    var i :| 0 <= i < |snap.environments| && snap.environments[i] == a;
    var j :| 0 <= j < |snap.environments| && snap.environments[j] == b;
  }

  lemma {:induction false} RoundEndsQuiet(desired: Snapshot, log: seq<DeployRow>, r: Round, after: seq<DeployRow>)
    requires Start(log) && IsRound(desired, log, r, after)
    ensures Start(after)
  {
    CycleKeepsInvariants(desired, log, r);
    ReportsSettle(log + RowsAppended(log, CycleOf(r)), r.reports, after);
  }

  // ----- After n rounds, exactly -----

  lemma {:induction false} RoundsEndQuiet(desired: Snapshot, logs: seq<seq<DeployRow>>, rounds: seq<Round>, n: nat)
    requires AreRounds(desired, logs, rounds) && Start(logs[0]) && n <= |rounds|
    ensures Start(logs[n])
  {
    if n > 0 {
      RoundsEndQuiet(desired, logs, rounds, n - 1);
      RoundEndsQuiet(desired, logs[n - 1], rounds[n - 1], logs[n]);
    }
  }

  /** Stuck at the start, stuck for good; and nothing else gets stuck. */
  lemma {:induction false} StuckForGood(desired: Snapshot, logs: seq<seq<DeployRow>>, rounds: seq<Round>,
                                        env: Environment, dep: Assignment, n: nat)
    requires Deployable(desired) && AreRounds(desired, logs, rounds) && Start(logs[0]) && n <= |rounds| &&
             Wanted(desired, env, dep)
    ensures Stuck(desired, logs[n], env, dep) <==> Stuck(desired, logs[0], env, dep)
  {
    if n > 0 {
      StuckForGood(desired, logs, rounds, env, dep, n - 1);
      RoundsEndQuiet(desired, logs, rounds, n - 1);
      RoundForWinner(desired, logs[n - 1], rounds[n - 1], logs[n], env, dep);
    }
  }

  lemma {:induction false} WinnerAfter(desired: Snapshot, logs: seq<seq<DeployRow>>, rounds: seq<Round>,
                                       env: Environment, dep: Assignment, n: nat)
    requires Deployable(desired) && AreRounds(desired, logs, rounds) && Start(logs[0]) && 0 < n <= |rounds| &&
             Wanted(desired, env, dep)
    ensures var go := Advances(desired, logs[0], env, dep, DeployedSet(logs[n - 1], env.id));
            && (Done(desired, logs[n], env, dep) <==> Done(desired, logs[n - 1], env, dep) || go)
            && (IsDeployed(logs[n], PairIn(env, dep)) <==> IsDeployed(logs[n - 1], PairIn(env, dep)) || go)
  {
    RoundsEndQuiet(desired, logs, rounds, n - 1);
    StuckForGood(desired, logs, rounds, env, dep, n - 1);
    RoundForWinner(desired, logs[n - 1], rounds[n - 1], logs[n], env, dep);
  }

  ghost predicate NoWinner(desired: Snapshot, env: Environment, f: string) {
    forall dep :: WinsIn(desired, env, dep) ==> dep.feature.name != f
  }

  /** What a round adds to the deployed features of an environment: the winners that were
      not stuck at the start and whose dependencies were deployed before it. */
  ghost predicate NextLevel(desired: Snapshot, log: seq<DeployRow>, env: Environment, before: set<string>,
                            after: set<string>) {
    && (forall dep :: WinsIn(desired, env, dep) ==>
          (dep.feature.name in after <==> dep.feature.name in before || Advances(desired, log, env, dep, before)))
    && (forall f :: NoWinner(desired, env, f) ==> (f in after <==> f in before))
  }

  lemma {:induction false} WinnerJoins(desired: Snapshot, logs: seq<seq<DeployRow>>, rounds: seq<Round>,
                                       env: Environment, dep: Assignment, n: nat)
    requires Deployable(desired) && AreRounds(desired, logs, rounds) && Start(logs[0]) && 0 < n <= |rounds| &&
             Wanted(desired, env, dep)
    ensures var before := DeployedSet(logs[n - 1], env.id);
            dep.feature.name in DeployedSet(logs[n], env.id) <==>
              dep.feature.name in before || Advances(desired, logs[0], env, dep, before)
  {
    DeployedSetMeaning(logs[n - 1], env.id, dep.feature.name);
    DeployedSetMeaning(logs[n], env.id, dep.feature.name);
    WinnerAfter(desired, logs, rounds, env, dep, n);
  }

  lemma {:induction false} OthersStay(desired: Snapshot, logs: seq<seq<DeployRow>>, rounds: seq<Round>,
                                      env: Environment, f: string, n: nat)
    requires Deployable(desired) && AreRounds(desired, logs, rounds) && Start(logs[0]) && 0 < n <= |rounds| &&
             env in desired.environments
    requires NoWinner(desired, env, f)
    ensures f in DeployedSet(logs[n], env.id) <==> f in DeployedSet(logs[n - 1], env.id)
  {
    DeployedSetMeaning(logs[n - 1], env.id, f);
    DeployedSetMeaning(logs[n], env.id, f);
    RoundsEndQuiet(desired, logs, rounds, n - 1);
    RoundForOthers(desired, logs[n - 1], rounds[n - 1], logs[n], env, f);
  }

  /** Which features are deployed after each round, exactly. */
  lemma {:induction false} DeployedExactly(desired: Snapshot, logs: seq<seq<DeployRow>>, rounds: seq<Round>,
                                           env: Environment, n: nat)
    requires Deployable(desired) && AreRounds(desired, logs, rounds) && Start(logs[0]) && n < |rounds| &&
             env in desired.environments
    ensures NextLevel(desired, logs[0], env, DeployedSet(logs[n], env.id), DeployedSet(logs[n + 1], env.id))
  {
    forall dep | WinsIn(desired, env, dep)
      ensures dep.feature.name in DeployedSet(logs[n + 1], env.id) <==>
                dep.feature.name in DeployedSet(logs[n], env.id) ||
                  Advances(desired, logs[0], env, dep, DeployedSet(logs[n], env.id))
    {
      WinnerJoins(desired, logs, rounds, env, dep, n + 1);
    }
    forall f | NoWinner(desired, env, f)
      ensures f in DeployedSet(logs[n + 1], env.id) <==> f in DeployedSet(logs[n], env.id) {
      OthersStay(desired, logs, rounds, env, f, n + 1);
    }
  }

  lemma {:induction false} NextLevelUnique(desired: Snapshot, log: seq<DeployRow>, env: Environment,
                                           before: set<string>, a: set<string>, b: set<string>)
    requires NextLevel(desired, log, env, before, a) && NextLevel(desired, log, env, before, b)
    ensures a == b
  {
    forall f ensures f in a <==> f in b {
      if dep :| WinsIn(desired, env, dep) && dep.feature.name == f {
        assert WinsIn(desired, env, dep);
      } else {
        assert NoWinner(desired, env, f);
      }
    }
  }

  /** The schedule of messages, the order of results, the identifiers and the clocks do
      not matter: two runs from one log deploy the same features round by round. */
  lemma {:induction false} SameDeployedRoundByRound(desired: Snapshot, logs: seq<seq<DeployRow>>, rounds: seq<Round>,
                                                    logs': seq<seq<DeployRow>>, rounds': seq<Round>, env: Environment,
                                                    n: nat)
    requires Deployable(desired) && AreRounds(desired, logs, rounds) && AreRounds(desired, logs', rounds')
    requires logs[0] == logs'[0] && Start(logs[0]) && n <= |rounds| && n <= |rounds'| && env in desired.environments
    ensures DeployedSet(logs[n], env.id) == DeployedSet(logs'[n], env.id)
  {
    if n > 0 {
      SameDeployedRoundByRound(desired, logs, rounds, logs', rounds', env, n - 1);
      DeployedExactly(desired, logs, rounds, env, n - 1);
      DeployedExactly(desired, logs', rounds', env, n - 1);
      NextLevelUnique(desired, logs[0], env, DeployedSet(logs[n - 1], env.id), DeployedSet(logs[n], env.id),
                      DeployedSet(logs'[n], env.id));
    }
  }

  lemma {:induction false} DeployedGrows(desired: Snapshot, logs: seq<seq<DeployRow>>, rounds: seq<Round>,
                                         env: Environment, n: nat)
    requires Deployable(desired) && AreRounds(desired, logs, rounds) && Start(logs[0]) && n < |rounds| &&
             env in desired.environments
    ensures DeployedSet(logs[n], env.id) <= DeployedSet(logs[n + 1], env.id)
  {
    DeployedExactly(desired, logs, rounds, env, n);
    NextLevelGrows(desired, logs[0], env, DeployedSet(logs[n], env.id), DeployedSet(logs[n + 1], env.id));
  }

  lemma {:induction false} NextLevelGrows(desired: Snapshot, log: seq<DeployRow>, env: Environment, before: set<string>,
                                          after: set<string>)
    requires NextLevel(desired, log, env, before, after)
    ensures before <= after
  {
    forall f | f in before ensures f in after {
      if dep :| WinsIn(desired, env, dep) && dep.feature.name == f {
        assert WinsIn(desired, env, dep);
      } else {
        assert NoWinner(desired, env, f);
      }
    }
  }

  /** A winner runs the desired configuration after n rounds exactly if it did so at the
      start, or is not stuck and its dependencies were deployed a round before. */
  lemma {:induction false} DoneExactly(desired: Snapshot, logs: seq<seq<DeployRow>>, rounds: seq<Round>,
                                       env: Environment, dep: Assignment, n: nat)
    requires Deployable(desired) && AreRounds(desired, logs, rounds) && Start(logs[0]) && n <= |rounds| &&
             Wanted(desired, env, dep)
    ensures Done(desired, logs[n], env, dep) <==>
              Done(desired, logs[0], env, dep) ||
                (n > 0 && Advances(desired, logs[0], env, dep, DeployedSet(logs[n - 1], env.id)))
  {
    if n > 0 {
      DoneExactly(desired, logs, rounds, env, dep, n - 1);
      WinnerAfter(desired, logs, rounds, env, dep, n);
      if n > 1 {
        DeployedGrows(desired, logs, rounds, env, n - 2);
        AdvancesMonotone(desired, logs[0], env, dep, DeployedSet(logs[n - 2], env.id),
                         DeployedSet(logs[n - 1], env.id));
      }
    }
  }

  lemma {:induction false} AdvancesMonotone(desired: Snapshot, log: seq<DeployRow>, env: Environment, dep: Assignment,
                                            before: set<string>, after: set<string>)
    requires before <= after
    ensures Advances(desired, log, env, dep, before) ==> Advances(desired, log, env, dep, after)
  {
    if Advances(desired, log, env, dep, before) {
      DependenciesMonotone(dep.feature, before, after);
    }
  }

  // ----- Ranks -----

  ghost predicate LowerWinner(desired: Snapshot, rank: (EnvId, string) -> nat, env: Environment, name: string,
                              bound: nat) {
    rank(env.id, name) < bound && exists dep :: Wanted(desired, env, dep) && dep.feature.name == name
  }

  /** Every AllOf entry, and one entry of every non-empty AnyOf, is a winner of lower rank. */
  ghost predicate RankedDependency(desired: Snapshot, rank: (EnvId, string) -> nat, env: Environment, d: Dependency,
                                   bound: nat) {
    && (forall name :: name in d.allOf ==> LowerWinner(desired, rank, env, name, bound))
    && (d.anyOf == [] || exists name :: name in d.anyOf && LowerWinner(desired, rank, env, name, bound))
  }

  ghost predicate Ranked(desired: Snapshot, rank: (EnvId, string) -> nat) {
    forall env, dep :: Wanted(desired, env, dep) ==>
      forall d :: d in dep.feature.dependencies ==>
        RankedDependency(desired, rank, env, d, rank(env.id, dep.feature.name))
  }

  ghost predicate RanksBelow(desired: Snapshot, rank: (EnvId, string) -> nat, bound: nat) {
    forall env, dep :: Wanted(desired, env, dep) ==> rank(env.id, dep.feature.name) < bound
  }

  ghost predicate NothingStuck(desired: Snapshot, log: seq<DeployRow>) {
    forall env, dep :: Wanted(desired, env, dep) ==> !Stuck(desired, log, env, dep)
  }

  ghost predicate AllDone(desired: Snapshot, log: seq<DeployRow>) {
    forall env, dep :: Wanted(desired, env, dep) ==> Done(desired, log, env, dep)
  }

  /** From round to round the winners of the next rank join. */
  lemma {:induction false} LowerRanksMet(desired: Snapshot, logs: seq<seq<DeployRow>>, rounds: seq<Round>,
                                         rank: (EnvId, string) -> nat,
                                         env: Environment, dep: Assignment, n: nat)
    requires Deployable(desired) && AreRounds(desired, logs, rounds) && Start(logs[0]) && n <= |rounds| &&
             Wanted(desired, env, dep)
    requires Ranked(desired, rank) && NothingStuck(desired, logs[0]) && rank(env.id, dep.feature.name) <= n
    ensures DependenciesMet(dep.feature, DeployedSet(logs[n], env.id))
    decreases n, 1
  {
    var deployed, r := DeployedSet(logs[n], env.id), rank(env.id, dep.feature.name);
    forall d | d in dep.feature.dependencies ensures DependencyMet(d, deployed) {
      assert RankedDependency(desired, rank, env, d, r);
      forall name | name in d.allOf + d.anyOf && LowerWinner(desired, rank, env, name, r) ensures name in deployed {
        RankDeployed(desired, logs, rounds, rank, env, name, n, r);
      }
      if d.anyOf != [] {
        var name :| name in d.anyOf && LowerWinner(desired, rank, env, name, r);
        assert name in d.allOf + d.anyOf;
      }
    }
  }

  lemma {:induction false} RankDeployed(desired: Snapshot, logs: seq<seq<DeployRow>>, rounds: seq<Round>,
                                        rank: (EnvId, string) -> nat,
                                        env: Environment, name: string, n: nat, bound: nat)
    requires Deployable(desired) && AreRounds(desired, logs, rounds) && Start(logs[0]) && bound <= n <= |rounds|
    requires Ranked(desired, rank) && NothingStuck(desired, logs[0]) && LowerWinner(desired, rank, env, name, bound)
    ensures name in DeployedSet(logs[n], env.id)
    decreases n, 0
  {
    var dep :| Wanted(desired, env, dep) && dep.feature.name == name;
    LowerRanksMet(desired, logs, rounds, rank, env, dep, n - 1);
    WinnerJoins(desired, logs, rounds, env, dep, n);
  }

  /** A winner that runs the desired configuration, with its dependencies deployed, is
      left unchanged by the next cycle. */
  lemma {:induction false} LeftUnchanged(desired: Snapshot, log: seq<DeployRow>, r: Round, env: Environment,
                                         dep: Assignment, d: Decision)
    requires Deployable(desired) && Start(log) && StillDesired(r.snap, r.clock, desired) && Enabled(log, CycleOf(r)) &&
             Wanted(desired, env, dep)
    requires Done(desired, log, env, dep) && DependenciesMet(dep.feature, DeployedSet(log, env.id))
    requires d in r.results && DecidedPair(d) == PairIn(env, dep)
    ensures d.action == ActionSkipUnchanged
  {
    var i := WinnerDecision(desired, log, r, env, dep);
    var j :| 0 <= j < |r.results| && r.results[j] == d;
    assert i == j;
  }

  lemma {:induction false} DoneByRank(desired: Snapshot, logs: seq<seq<DeployRow>>, rounds: seq<Round>,
                                      rank: (EnvId, string) -> nat,
                                      env: Environment, dep: Assignment, n: nat)
    requires Deployable(desired) && AreRounds(desired, logs, rounds) && Start(logs[0]) && n <= |rounds| &&
             Wanted(desired, env, dep)
    requires Ranked(desired, rank) && NothingStuck(desired, logs[0]) && rank(env.id, dep.feature.name) < n
    ensures Done(desired, logs[n], env, dep)
  {
    LowerRanksMet(desired, logs, rounds, rank, env, dep, n - 1);
    DoneExactly(desired, logs, rounds, env, dep, n);
  }

  /** A winner of rank r runs the desired configuration after r + 1 rounds, and from then
      on every cycle leaves it unchanged. */
  lemma {:induction false} ConvergesByRank(desired: Snapshot, logs: seq<seq<DeployRow>>, rounds: seq<Round>,
                                           rank: (EnvId, string) -> nat,
                                           env: Environment, dep: Assignment, n: nat)
    requires Deployable(desired) && AreRounds(desired, logs, rounds) && Start(logs[0]) && n <= |rounds| &&
             Wanted(desired, env, dep)
    requires Ranked(desired, rank) && NothingStuck(desired, logs[0]) && rank(env.id, dep.feature.name) < n
    ensures Done(desired, logs[n], env, dep)
    ensures n < |rounds| ==> forall d :: d in rounds[n].results && DecidedPair(d) == PairIn(env, dep) ==>
            d.action == ActionSkipUnchanged
  {
    DoneByRank(desired, logs, rounds, rank, env, dep, n);
    if n < |rounds| {
      LowerRanksMet(desired, logs, rounds, rank, env, dep, n);
      RoundsEndQuiet(desired, logs, rounds, n);
      assert IsRound(desired, logs[n], rounds[n], logs[n + 1]);
      forall d | d in rounds[n].results && DecidedPair(d) == PairIn(env, dep) ensures d.action == ActionSkipUnchanged {
        LeftUnchanged(desired, logs[n], rounds[n], env, dep, d);
      }
    }
  }

  /** With as many rounds as ranks, everything runs the desired configuration exactly if
      no winner's last deploy of it had failed at the start. */
  lemma {:induction false} ConvergesIffNothingStuck(desired: Snapshot, logs: seq<seq<DeployRow>>, rounds: seq<Round>,
                                                    rank: (EnvId, string) -> nat)
    requires Deployable(desired) && AreRounds(desired, logs, rounds) && Start(logs[0]) && Ranked(desired, rank)
    requires RanksBelow(desired, rank, |rounds|)
    ensures AllDone(desired, logs[|rounds|]) <==> NothingStuck(desired, logs[0])
  {
    var n := |rounds|;
    if NothingStuck(desired, logs[0]) {
      forall env, dep | Wanted(desired, env, dep) ensures Done(desired, logs[n], env, dep) {
        ConvergesByRank(desired, logs, rounds, rank, env, dep, n);
      }
    }
    if AllDone(desired, logs[n]) {
      forall env, dep | Wanted(desired, env, dep) ensures !Stuck(desired, logs[0], env, dep) {
        StuckForGood(desired, logs, rounds, env, dep, n);
        assert Done(desired, logs[n], env, dep);
      }
    }
  }

  // ----- From an empty log, exactly -----

  /** The first round from `from` on after which the feature is deployed, or `n`. */
  ghost function FirstRound(logs: seq<seq<DeployRow>>, env: EnvId, f: string, from: nat, n: nat): nat
    requires from <= n < |logs|
    decreases n - from
  {
    if from == n || f in DeployedSet(logs[from], env) then from else FirstRound(logs, env, f, from + 1, n)
  }

  lemma {:induction false} FirstRoundFound(logs: seq<seq<DeployRow>>, env: EnvId, f: string, from: nat, k: nat, n: nat)
    requires from <= k <= n < |logs| && f in DeployedSet(logs[k], env)
    ensures var m := FirstRound(logs, env, f, from, n);
            from <= m <= k && f in DeployedSet(logs[m], env) && (m > from ==> f !in DeployedSet(logs[m - 1], env))
    decreases n - from
  {
    if from < n && f !in DeployedSet(logs[from], env) {
      FirstRoundFound(logs, env, f, from + 1, k, n);
    }
  }

  /** From an empty log only winners get deployed. */
  lemma {:induction false} OnlyWinnersDeployed(desired: Snapshot, logs: seq<seq<DeployRow>>, rounds: seq<Round>,
                                               env: Environment, f: string, n: nat)
    requires Deployable(desired) && AreRounds(desired, logs, rounds) && logs[0] == [] && n <= |rounds| &&
             env in desired.environments
    requires f in DeployedSet(logs[n], env.id)
    ensures n > 0 && exists dep :: Wanted(desired, env, dep) && dep.feature.name == f
  {
    if n > 0 && NoWinner(desired, env, f) {
      OthersStay(desired, logs, rounds, env, f, n);
      OnlyWinnersDeployed(desired, logs, rounds, env, f, n - 1);
    }
  }

  ghost function JoinRank(logs: seq<seq<DeployRow>>, env: EnvId, f: string): nat
    requires |logs| > 0
  {
    var m := FirstRound(logs, env, f, 0, |logs| - 1);
    if m == 0 then 0 else m - 1
  }

  lemma {:induction false} JoinedBefore(desired: Snapshot, logs: seq<seq<DeployRow>>, rounds: seq<Round>,
                                        rank: (EnvId, string) -> nat,
                                        env: Environment, name: string, k: nat)
    requires Deployable(desired) && AreRounds(desired, logs, rounds) && logs[0] == [] && k <= |rounds| &&
             env in desired.environments
    requires forall e, f :: rank(e, f) == JoinRank(logs, e, f)
    requires name in DeployedSet(logs[k], env.id)
    ensures LowerWinner(desired, rank, env, name, k)
  {
    OnlyWinnersDeployed(desired, logs, rounds, env, name, k);
    FirstRoundFound(logs, env.id, name, 0, k, |logs| - 1);
  }

  /** A winner joins one round after what it depends on. */
  lemma {:induction false} JoinsAfterDependencies(desired: Snapshot, logs: seq<seq<DeployRow>>, rounds: seq<Round>,
                                                  rank: (EnvId, string) -> nat,
                                                  env: Environment, dep: Assignment, n: nat)
    requires Deployable(desired) && AreRounds(desired, logs, rounds) && logs[0] == [] && n <= |rounds|
    requires forall e, f :: rank(e, f) == JoinRank(logs, e, f)
    requires Wanted(desired, env, dep) && dep.feature.name in DeployedSet(logs[n], env.id)
    ensures rank(env.id, dep.feature.name) < n
    ensures forall d :: d in dep.feature.dependencies ==>
            RankedDependency(desired, rank, env, d, rank(env.id, dep.feature.name))
  {
    var f := dep.feature.name;
    FirstRoundFound(logs, env.id, f, 0, n, |logs| - 1);
    var m := FirstRound(logs, env.id, f, 0, |logs| - 1);
    OnlyWinnersDeployed(desired, logs, rounds, env, f, m);
    WinnerJoins(desired, logs, rounds, env, dep, m);
    var before := DeployedSet(logs[m - 1], env.id);
    forall d | d in dep.feature.dependencies ensures RankedDependency(desired, rank, env, d, m - 1) {
      assert DependencyMet(d, before);
      forall name | name in before ensures LowerWinner(desired, rank, env, name, m - 1) {
        JoinedBefore(desired, logs, rounds, rank, env, name, m - 1);
      }
    }
  }

  lemma {:induction false} AllDoneGivesRank(desired: Snapshot, logs: seq<seq<DeployRow>>, rounds: seq<Round>)
    requires Deployable(desired) && AreRounds(desired, logs, rounds) && logs[0] == [] &&
             AllDone(desired, logs[|rounds|])
    ensures exists rank :: Ranked(desired, rank) && RanksBelow(desired, rank, |rounds|)
  {
    var n := |rounds|;
    var rank: (EnvId, string) -> nat := (e: EnvId, f: string) => JoinRank(logs, e, f);
    forall env, dep | Wanted(desired, env, dep)
      ensures rank(env.id, dep.feature.name) < n
      ensures forall d :: d in dep.feature.dependencies ==>
              RankedDependency(desired, rank, env, d, rank(env.id, dep.feature.name))
    {
      assert Done(desired, logs[n], env, dep);
      DeployedSetMeaning(logs[n], env.id, dep.feature.name);
      JoinsAfterDependencies(desired, logs, rounds, rank, env, dep, n);
    }
    assert Ranked(desired, rank) && RanksBelow(desired, rank, n);
  }

  /** From an empty log, everything runs the desired configuration after n rounds exactly
      if the dependencies can be ranked below n; without a ranking, never. */
  lemma {:induction false} EmptyLogConverges(desired: Snapshot, logs: seq<seq<DeployRow>>, rounds: seq<Round>)
    requires Deployable(desired) && AreRounds(desired, logs, rounds) && logs[0] == []
    ensures AllDone(desired, logs[|rounds|]) <==>
            exists rank :: Ranked(desired, rank) && RanksBelow(desired, rank, |rounds|)
  {
    if rank :| Ranked(desired, rank) && RanksBelow(desired, rank, |rounds|) {
      ConvergesIffNothingStuck(desired, logs, rounds, rank);
    }
    if AllDone(desired, logs[|rounds|]) {
      AllDoneGivesRank(desired, logs, rounds);
    }
  }

  /** Once everything is converged a cycle deploys nothing and the log stops growing. */
  lemma {:induction false} ConvergedIsStill(desired: Snapshot, logs: seq<seq<DeployRow>>, rounds: seq<Round>,
                                            rank: (EnvId, string) -> nat, n: nat)
    requires Deployable(desired) && AreRounds(desired, logs, rounds) && Start(logs[0]) && Ranked(desired, rank) &&
             NothingStuck(desired, logs[0])
    requires n < |rounds| && RanksBelow(desired, rank, n)
    ensures forall d :: d in rounds[n].results ==> d.action == ActionSkipUnchanged
    ensures logs[n + 1] == logs[n]
  {
    var r := rounds[n];
    assert IsRound(desired, logs[n], r, logs[n + 1]);
    forall d | d in r.results ensures d.action == ActionSkipUnchanged {
      assert IsDecision(r.snap, r.clock, d);
      var env, dep :| DecisionFrom(r.snap, r.clock, env, dep, d);
      DispatchedPair(r.snap, r.clock, env, dep);
      assert Wanted(desired, env, dep);
      ConvergesByRank(desired, logs, rounds, rank, env, dep, n);
    }
    NothingSent(r.results, r.uuids, r.accepted, r.clock);
    RoundsEndQuiet(desired, logs, rounds, n);
    assert logs[n] + [] == logs[n];
  }

  lemma {:induction false} NothingSent(decisions: seq<Decision>, uuids: seq<Diid>, accepted: set<Diid>, now: int)
    requires |decisions| <= |uuids| && forall d :: d in decisions ==> !WillDeploy(d)
    ensures SentRows(decisions, uuids, accepted, now) == []
  {
    if decisions != [] {
      NothingSent(decisions[..|decisions| - 1], uuids, accepted, now);
      assert decisions[|decisions| - 1] in decisions;
    }
  }
}
