/** Runs of the reconciler: cycles, redeploys, status messages and timeouts, each one
    atomic, in any order. What every reachable deploy log looks like. */
module DeployRuns {
  import opened Basics
  import opened Model
  import opened Compute
  import opened DeployLog
  import opened Redeploy

  // ----- Lineage -----

  predicate SameDeploy(a: DeployRow, b: DeployRow) {
    a == b.(status := a.status, created := a.created)
  }

  /** The row has a first row of its deploy: sent, for the same pair, assignment, version and hash. */
  ghost predicate Descends(log: seq<DeployRow>, r: DeployRow) {
    var first := FirstOfDiid(log, r.diid);
    first.Some? && first.value.status == Sent && SameDeploy(first.value, r)
  }

  ghost predicate Lineage(log: seq<DeployRow>) {
    forall r :: r in log ==> Descends(log, r)
  }

  lemma {:induction false} LineageStep(log: seq<DeployRow>, r: DeployRow)
    requires Lineage(log)
    requires FirstOfDiid(log, r.diid).None? ==> r.status == Sent
    requires FirstOfDiid(log, r.diid).Some? ==>
             LatestOfDiid(log, r.diid).Some? && SameDeploy(LatestOfDiid(log, r.diid).value, r)
    ensures Lineage(log + [r])
  {
    Appended(log, r);
    LatestOfDiidFound(log, r.diid);
    forall x | x in log + [r] ensures Descends(log + [r], x) {
      if x in log {
        assert Descends(log, x);
      } else if FirstOfDiid(log, r.diid).Some? {
        assert Descends(log, LatestOfDiid(log, r.diid).value);
      }
    }
  }

  lemma {:induction false} LineagePrefix(log: seq<DeployRow>)
    requires log != [] && Lineage(log)
    ensures Lineage(log[..|log| - 1])
  {
    var n := |log| - 1;
    forall r | r in log[..n] ensures Descends(log[..n], r) {
      assert r in log && Descends(log, r);
      FirstOfDiidFound(log[..n], r.diid);
    }
  }

  /** The latest row of a pair is the latest row of its own deploy. */
  lemma {:induction false} LatestOwned(log: seq<DeployRow>, p: Pair)
    requires Lineage(log) && Latest(log, p).Some?
    ensures LatestOfDiid(log, Latest(log, p).value.diid) == Latest(log, p)
  {
    var n := |log| - 1;
    if PairOf(log[n]) != p {
      LineagePrefix(log);
      LatestOwned(log[..n], p);
      LatestFound(log[..n], p);
      var r := Latest(log, p).value;
      assert Descends(log, r) && Descends(log, log[n]);
    }
  }

  // ----- Deploys in flight -----

  /** The deploy's last row is sent or installing. */
  predicate InFlight(log: seq<DeployRow>, d: Diid) {
    LatestOfDiid(log, d).Some? && IsInProgress(LatestOfDiid(log, d).value.status)
  }

  /** Every deploy in flight owns the latest row of its pair. */
  ghost predicate Safe(log: seq<DeployRow>) {
    forall d :: InFlight(log, d) ==> OwnsLatest(log, d)
  }

  predicate OwnsLatest(log: seq<DeployRow>, d: Diid)
    requires LatestOfDiid(log, d).Some?
  {
    var row := LatestOfDiid(log, d).value;
    Latest(log, PairOf(row)) == Some(row)
  }

  lemma {:induction false} AtMostOneInFlight(log: seq<DeployRow>, d: Diid, e: Diid)
    requires Safe(log) && InFlight(log, d) && InFlight(log, e)
    requires PairOf(LatestOfDiid(log, d).value) == PairOf(LatestOfDiid(log, e).value)
    ensures d == e
  {
    assert OwnsLatest(log, d) && OwnsLatest(log, e);
    LatestOfDiidFound(log, d);
    LatestOfDiidFound(log, e);
  }

  predicate Free(log: seq<DeployRow>, p: Pair) {
    Latest(log, p).None? || !IsInProgress(Latest(log, p).value.status)
  }

  /** A new deploy for a pair that has none in progress. */
  lemma {:induction false} SafeStart(log: seq<DeployRow>, r: DeployRow)
    requires Safe(log) && LatestOfDiid(log, r.diid).None? && Free(log, PairOf(r))
    ensures Safe(log + [r])
  {
    Appended(log, r);
    forall e | InFlight(log + [r], e) ensures OwnsLatest(log + [r], e) {
      if e != r.diid {
        assert InFlight(log, e) && OwnsLatest(log, e);
      }
    }
  }

  /** Appending a row to a known deploy keeps the logs safe exactly where no other deploy
      is in progress for the pair. */
  lemma {:induction false} SafeContinue(log: seq<DeployRow>, r: DeployRow)
    requires Lineage(log) && Safe(log)
    requires LatestOfDiid(log, r.diid).Some? && SameDeploy(LatestOfDiid(log, r.diid).value, r)
    ensures Safe(log + [r]) <==> Free(log, PairOf(r)) || Latest(log, PairOf(r)).value.diid == r.diid
  {
    Appended(log, r);
    var p := PairOf(r);
    if Free(log, p) || Latest(log, p).value.diid == r.diid {
      forall e | InFlight(log + [r], e) ensures OwnsLatest(log + [r], e) {
        if e != r.diid {
          LatestOfDiidFound(log, e);
          assert InFlight(log, e) && OwnsLatest(log, e);
        }
      }
    } else {
      LatestOwned(log, p);
      LatestFound(log, p);
      var e := Latest(log, p).value.diid;
      assert InFlight(log + [r], e) && !OwnsLatest(log + [r], e);
    }
  }

  // ----- Publishing -----

  predicate WillDeploy(d: Decision) {
    d.action == ActionDeploy
  }

  function DecidedPair(d: Decision): Pair {
    Pair(d.environment, d.feature.name)
  }

  /** New identifiers: never used in the log, never twice. */
  ghost predicate Fresh(log: seq<DeployRow>, uuids: seq<Diid>) {
    NoDuplicates(uuids) && forall i :: 0 <= i < |uuids| ==> LatestOfDiid(log, uuids[i]).None?
  }

  lemma {:induction false} SentRowsFrom(decisions: seq<Decision>, uuids: seq<Diid>, accepted: set<Diid>, now: int)
    requires |decisions| <= |uuids|
    ensures forall r :: r in SentRows(decisions, uuids, accepted, now) ==> SentFrom(decisions, uuids, now, r)
  {
    if decisions != [] {
      var n := |decisions| - 1;
      SentRowsFrom(decisions[..n], uuids, accepted, now);
      forall r | r in SentRows(decisions, uuids, accepted, now) ensures SentFrom(decisions, uuids, now, r) {
        if r in SentRows(decisions[..n], uuids, accepted, now) {
          assert SentFrom(decisions[..n], uuids, now, r);
          var i :| 0 <= i < n && r == SentRow(decisions[i], uuids[i], now);
        }
      }
    }
  }

  ghost predicate SentFrom(decisions: seq<Decision>, uuids: seq<Diid>, now: int, r: DeployRow)
    requires |decisions| <= |uuids|
  {
    exists i :: 0 <= i < |decisions| && r == SentRow(decisions[i], uuids[i], now)
  }

  lemma {:induction false} OfDiidUnaffected(log: seq<DeployRow>, more: seq<DeployRow>, d: Diid)
    requires forall r :: r in more ==> r.diid != d
    ensures LatestOfDiid(log + more, d) == LatestOfDiid(log, d)
    ensures FirstOfDiid(log + more, d) == FirstOfDiid(log, d)
  {
    if more == [] {
      assert log + more == log;
    } else {
      var n := |more| - 1;
      OfDiidUnaffected(log, more[..n], d);
      assert log + more == (log + more[..n]) + [more[n]];
      Appended(log + more[..n], more[n]);
    }
  }

  /** What the earlier rows of the same call leave untouched for decision n. */
  lemma {:induction false} StillFree(log: seq<DeployRow>, decisions: seq<Decision>, uuids: seq<Diid>,
                                     accepted: set<Diid>, now: int)
    requires decisions != [] && |decisions| <= |uuids| && OnePerPair(decisions) && Fresh(log, uuids)
    ensures var n := |decisions| - 1;
            var before := log + SentRows(decisions[..n], uuids, accepted, now);
            && Latest(before, DecidedPair(decisions[n])) == Latest(log, DecidedPair(decisions[n]))
            && LatestOfDiid(before, uuids[n]).None? && FirstOfDiid(before, uuids[n]).None?
  {
    var n := |decisions| - 1;
    var rows := SentRows(decisions[..n], uuids, accepted, now);
    SentRowsFrom(decisions[..n], uuids, accepted, now);
    forall r | r in rows ensures PairOf(r) != DecidedPair(decisions[n]) && r.diid != uuids[n] {
      assert SentFrom(decisions[..n], uuids, now, r);
      var i :| 0 <= i < n && r == SentRow(decisions[i], uuids[i], now);
    }
    LatestUnaffected(log, rows, DecidedPair(decisions[n]));
    OfDiidUnaffected(log, rows, uuids[n]);
    LatestOfDiidFound(log, uuids[n]);
    FirstOfDiidFound(log, uuids[n]);
  }

  lemma {:induction false} PublishKeepsLineage(log: seq<DeployRow>, decisions: seq<Decision>, uuids: seq<Diid>,
                                               accepted: set<Diid>, now: int)
    requires Lineage(log) && |decisions| <= |uuids| && OnePerPair(decisions) && Fresh(log, uuids)
    ensures Lineage(log + SentRows(decisions, uuids, accepted, now))
  {
    if decisions == [] {
      assert log + [] == log;
    } else {
      var n := |decisions| - 1;
      var before := SentRows(decisions[..n], uuids, accepted, now);
      PublishKeepsLineage(log, decisions[..n], uuids, accepted, now);
      StillFree(log, decisions, uuids, accepted, now);
      if WillDeploy(decisions[n]) && uuids[n] in accepted {
        var r := SentRow(decisions[n], uuids[n], now);
        LineageStep(log + before, r);
        assert log + (before + [r]) == (log + before) + [r];
      } else {
        assert SentRows(decisions, uuids, accepted, now) == before;
      }
    }
  }

  lemma {:induction false} PublishKeepsSafe(log: seq<DeployRow>, decisions: seq<Decision>, uuids: seq<Diid>,
                                            accepted: set<Diid>, now: int)
    requires Safe(log) && |decisions| <= |uuids| && OnePerPair(decisions) && Fresh(log, uuids)
    requires forall d :: d in decisions && WillDeploy(d) ==> Free(log, DecidedPair(d))
    ensures Safe(log + SentRows(decisions, uuids, accepted, now))
  {
    if decisions == [] {
      assert log + [] == log;
    } else {
      var n := |decisions| - 1;
      var before := SentRows(decisions[..n], uuids, accepted, now);
      PublishKeepsSafe(log, decisions[..n], uuids, accepted, now);
      StillFree(log, decisions, uuids, accepted, now);
      if WillDeploy(decisions[n]) && uuids[n] in accepted {
        var r := SentRow(decisions[n], uuids[n], now);
        assert decisions[n] in decisions && Free(log, DecidedPair(decisions[n]));
        SafeStart(log + before, r);
        assert log + (before + [r]) == (log + before) + [r];
      } else {
        assert SentRows(decisions, uuids, accepted, now) == before;
      }
    }
  }

  /** The loop deploys only to pairs without a deploy in progress. */
  lemma {:induction false} CycleDeploysFreePairs(log: seq<DeployRow>, snap: Snapshot, now: int, results: seq<Decision>,
                                                 d: Decision)
    requires ReadsLog(snap, log) && CompleteResults(snap, now, results) && d in results && WillDeploy(d)
    ensures Free(log, DecidedPair(d))
  {
    assert IsDecision(snap, now, d);
    var env, dep :| DecisionFrom(snap, now, env, dep, d);
    DispatchedPair(snap, now, env, dep);
    DecisionMeaning(snap, now, env, dep);
    assert ShownInstruction(snap.latest, env.id, dep.feature.name) ==
      InstructionOf(Latest(log, Pair(env.id, dep.feature.name)));
  }

  lemma {:induction false} RedeployFreePair(log: seq<DeployRow>, snap: Snapshot, now: int, id: EnvId, feature: string)
    requires ReadsLog(snap, log) && Requested(snap, now, id, feature).Ok?
    ensures Free(log, DecidedPair(Requested(snap, now, id, feature).value))
  {
    var env := FindEnvironment(snap.environments, id).value;
    var dep := Selection.Winner(Selection.Matching(snap.assignments, env), feature).value;
    Selection.WinnerBest(Selection.Matching(snap.assignments, env), feature);
    FindEnvironmentMeaning(snap.environments, id);
    DispatchedPair(snap, now, env, dep);
    DecisionMeaning(snap, now, env, dep);
    assert ShownInstruction(snap.latest, env.id, dep.feature.name) ==
      InstructionOf(Latest(log, Pair(env.id, dep.feature.name)));
  }

  // ----- Timeout -----

  lemma {:induction false} TimeoutKeeps(log: seq<DeployRow>, now: int, rows: seq<DeployRow>, n: nat)
    requires Lineage(log) && IsTimeout(log, now, rows) && n <= |rows|
    ensures Lineage(log + rows[..n])
    ensures Safe(log) ==> Safe(log + rows[..n])
  {
    if n == 0 {
      assert log + rows[..0] == log;
    } else {
      var r, before := rows[n - 1], log + rows[..n - 1];
      TimeoutKeeps(log, now, rows, n - 1);
      LatestUnaffected(log, rows[..n - 1], PairOf(r));
      assert TimesOut(log, now, r);
      LatestOwned(before, PairOf(r));
      LatestOfDiidFound(before, r.diid);
      LineageStep(before, r);
      if Safe(log) {
        SafeContinue(before, r);
      }
      assert log + rows[..n] == before + [r];
    }
  }

  // ----- The state machine -----

  datatype Step =
    | Cycle(snap: Snapshot, clock: int, results: seq<Decision>, uuids: seq<Diid>, accepted: set<Diid>, stored: bool)
    | Redeployed(snap: Snapshot, clock: int, environment: EnvId, feature: string, uuid: Diid, accepted: set<Diid>,
                 stored: bool)
    | Status(known: set<EnvId>, diid: Diid, status: DeployStatus, clock: int)
    | Timeout(clock: int, failed: seq<DeployRow>)

  /** The steps the reconciler can take: snapshots show the log, everything else in them
      is free; agents may send any status for any deploy. */
  ghost predicate Enabled(log: seq<DeployRow>, step: Step) {
    match step
    case Cycle(snap, clock, results, uuids, _, _) =>
      ReadsLog(snap, log) && CompleteResults(snap, clock, results) && |results| <= |uuids| && Fresh(log, uuids)
    case Redeployed(snap, clock, id, feature, uuid, _, _) => ReadsLog(snap, log) && Fresh(log, [uuid])
    case Status(_, _, _, _) => true
    case Timeout(clock, failed) => IsTimeout(log, clock, failed)
  }

  ghost function RowsAppended(log: seq<DeployRow>, step: Step): seq<DeployRow>
    requires Enabled(log, step)
  {
    match step
    case Cycle(_, clock, results, uuids, accepted, stored) =>
      if stored then SentRows(results, uuids, accepted, clock) else []
    case Redeployed(snap, clock, id, feature, uuid, accepted, stored) =>
      (match Requested(snap, clock, id, feature)
       case Err(_) => []
       case Ok(d) => if stored then SentRows([d], [uuid], accepted, clock) else [])
    case Status(known, d, status, clock) => StatusRows(log, known, d, status, clock)
    case Timeout(_, failed) => failed
  }

  /** A status message that does not arrive while another deploy of its pair is in
      progress. Status messages of unknown deploys and environments do nothing. */
  predicate OnTime(log: seq<DeployRow>, step: Step) {
    step.Status? ==>
      match LatestOfDiid(log, step.diid)
      case None => true
      case Some(row) =>
        row.environment !in step.known || Free(log, PairOf(row)) || Latest(log, PairOf(row)).value.diid == step.diid
  }

  lemma {:induction false} StepKeepsLineage(log: seq<DeployRow>, step: Step)
    requires Enabled(log, step) && Lineage(log)
    ensures Lineage(log + RowsAppended(log, step))
  {
    assert log + [] == log;
    match step
    case Cycle(snap, clock, results, uuids, accepted, stored) =>
      PublishKeepsLineage(log, results, uuids, accepted, clock);
    case Redeployed(snap, clock, id, feature, uuid, accepted, stored) =>
      if Requested(snap, clock, id, feature).Ok? {
        PublishKeepsLineage(log, [Requested(snap, clock, id, feature).value], [uuid], accepted, clock);
      }
    case Status(known, d, status, clock) =>
      LatestOfDiidFound(log, d);
      FirstOfDiidFound(log, d);
      if StatusRows(log, known, d, status, clock) != [] {
        LineageStep(log, LatestOfDiid(log, d).value.(status := status, created := clock));
      }
    case Timeout(clock, failed) =>
      TimeoutKeeps(log, clock, failed, |failed|);
      assert failed[..|failed|] == failed;
  }

  lemma {:induction false} StepSafeIffOnTime(log: seq<DeployRow>, step: Step)
    requires Enabled(log, step) && Lineage(log) && Safe(log)
    ensures Safe(log + RowsAppended(log, step)) <==> OnTime(log, step)
  {
    assert log + [] == log;
    match step
    case Cycle(snap, clock, results, uuids, accepted, stored) =>
      forall d | d in results && WillDeploy(d) ensures Free(log, DecidedPair(d)) {
        CycleDeploysFreePairs(log, snap, clock, results, d);
      }
      PublishKeepsSafe(log, results, uuids, accepted, clock);
    case Redeployed(snap, clock, id, feature, uuid, accepted, stored) =>
      if Requested(snap, clock, id, feature).Ok? {
        RedeployFreePair(log, snap, clock, id, feature);
        PublishKeepsSafe(log, [Requested(snap, clock, id, feature).value], [uuid], accepted, clock);
      }
    case Status(known, d, status, clock) =>
      LatestOfDiidFound(log, d);
      if StatusRows(log, known, d, status, clock) != [] {
        SafeContinue(log, LatestOfDiid(log, d).value.(status := status, created := clock));
      }
    case Timeout(clock, failed) =>
      TimeoutKeeps(log, clock, failed, |failed|);
      assert failed[..|failed|] == failed;
  }

  // ----- Whole runs -----

  /** logs[i] is the deploy log after the first i steps, from an empty log. */
  ghost predicate IsRun(logs: seq<seq<DeployRow>>, steps: seq<Step>) {
    && |logs| == |steps| + 1 && logs[0] == []
    && forall i {:trigger steps[i]} :: 0 <= i < |steps| ==> Taken(logs[i], steps[i], logs[i + 1])
  }

  ghost predicate Taken(log: seq<DeployRow>, step: Step, after: seq<DeployRow>) {
    Enabled(log, step) && after == log + RowsAppended(log, step)
  }

  /** In every reachable log each deploy starts with a sent row, and all its rows share
      one environment, assignment, feature, version and hash. */
  lemma {:induction false} LineageInEveryRun(logs: seq<seq<DeployRow>>, steps: seq<Step>, n: nat)
    requires IsRun(logs, steps) && n <= |steps|
    ensures Lineage(logs[n])
  {
    if n > 0 {
      LineageInEveryRun(logs, steps, n - 1);
      assert Taken(logs[n - 1], steps[n - 1], logs[n]);
      StepKeepsLineage(logs[n - 1], steps[n - 1]);
    }
  }

  ghost predicate SafeUpTo(logs: seq<seq<DeployRow>>, n: nat)
    requires n < |logs|
  {
    forall i :: 0 <= i <= n ==> Safe(logs[i])
  }

  ghost predicate OnTimeUpTo(logs: seq<seq<DeployRow>>, steps: seq<Step>, n: nat)
    requires n <= |steps| && n <= |logs|
  {
    forall i :: 0 <= i < n ==> OnTime(logs[i], steps[i])
  }

  /** A run is safe throughout exactly when no status message arrives for one deploy of a
      pair while another is in progress. */
  lemma {:induction false} SafeExactlyWhenOnTime(logs: seq<seq<DeployRow>>, steps: seq<Step>, n: nat)
    requires IsRun(logs, steps) && n <= |steps|
    ensures SafeUpTo(logs, n) <==> OnTimeUpTo(logs, steps, n)
  {
    if n > 0 {
      SafeExactlyWhenOnTime(logs, steps, n - 1);
      assert Taken(logs[n - 1], steps[n - 1], logs[n]);
      LineageInEveryRun(logs, steps, n - 1);
      if SafeUpTo(logs, n - 1) {
        StepSafeIffOnTime(logs[n - 1], steps[n - 1]);
      }
      assert SafeUpTo(logs, n) <==> SafeUpTo(logs, n - 1) && Safe(logs[n]);
      assert OnTimeUpTo(logs, steps, n) <==> OnTimeUpTo(logs, steps, n - 1) && OnTime(logs[n - 1], steps[n - 1]);
    }
  }

  /** No status arrives for a deploy after its terminal row. */
  predicate Prompt(log: seq<DeployRow>, step: Step) {
    step.Status? && LatestOfDiid(log, step.diid).Some? ==> InFlight(log, step.diid)
  }

  lemma {:induction false} PromptRunsAreSafe(logs: seq<seq<DeployRow>>, steps: seq<Step>, n: nat)
    requires IsRun(logs, steps) && n <= |steps|
    requires forall i :: 0 <= i < n ==> Prompt(logs[i], steps[i])
    ensures SafeUpTo(logs, n)
  {
    if n > 0 {
      PromptRunsAreSafe(logs, steps, n - 1);
      SafeExactlyWhenOnTime(logs, steps, n - 1);
      var log, step := logs[n - 1], steps[n - 1];
      assert Safe(log) && Prompt(log, step);
      if step.Status? && LatestOfDiid(log, step.diid).Some? {
        LatestOfDiidFound(log, step.diid);
        assert OwnsLatest(log, step.diid);
      }
      SafeExactlyWhenOnTime(logs, steps, n);
    }
  }
}
