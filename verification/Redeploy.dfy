/** The redeploy gate, and its agreement with the reconcile loop. */
module Redeploy {
  import opened Basics
  import opened Model
  import opened Selection
  import opened Compute
  import opened DeployLog
  import opened Tree

  datatype RedeployError = TargetNotFound | NotSettled(reason: string) | DeployFailed

  /** The first environment with the identifier. */
  function FindEnvironment(envs: seq<Environment>, id: EnvId): Option<Environment> {
    if envs == [] then None
    else if envs[0].id == id then Some(envs[0])
    else FindEnvironment(envs[1..], id)
  }

  /** What Redeploy hands to the deployer, or why it refuses. */
  function Requested(snap: Snapshot, now: int, id: EnvId, feature: string): Result<Decision, RedeployError> {
    match FindEnvironment(snap.environments, id)
    case None => Err(TargetNotFound)
    case Some(env) =>
      match Winner(Matching(snap.assignments, env), feature)
      case None => Err(TargetNotFound)
      case Some(dep) =>
        if !Healthy(snap, now, env.id) then Err(NotSettled("naisd is unhealthy"))
        else if feature in DisabledIn(snap, env.id) then Err(NotSettled("feature reconcile disabled"))
        else
          var decision := Computed(snap, env, dep);
          if decision.action != ActionSkipUnchanged then Err(NotSettled(decision.message))
          else Ok(decision.(action := ActionDeploy, message := "redeploy requested"))
  }

  /** `others` is the part of the snapshot that does not come from the deploy log. */
  method Redeploy(table: DeployTable, others: Snapshot, now: int, id: EnvId, feature: string,
                  uuids: seq<Diid>, encodes: Option<Object> -> bool, accepted: set<Diid>, stored: bool)
    returns (result: Result<(), RedeployError>, ghost snap: Snapshot)
    requires table.Valid() && |uuids| >= 1
    modifies table
    ensures table.Valid()
    ensures ReadsLog(snap, old(table.log)) && snap == others.(latest := snap.latest, deployed := snap.deployed)
    ensures match Requested(snap, now, id, feature)
            case Err(e) => result == Err(e) && table.log == old(table.log)
            case Ok(decision) =>
              var rows := if encodes(decision.values) then SentRows([decision], uuids, accepted, now) else [];
              && table.log == (if stored then old(table.log) + rows else old(table.log))
              && result == if encodes(decision.values) && (stored || rows == []) then Ok(()) else Err(DeployFailed)
  {
    var latest, deployed := table.FetchDeploys();
    var snapshot := others.(latest := latest, deployed := deployed);
    snap := snapshot;
    var env: Option<Environment> := None;
    var i := 0;
    while i < |snapshot.environments| && env.None?
      invariant 0 <= i <= |snapshot.environments|
      invariant FindEnvironment(snap.environments, id) == if env.Some? then env
                else FindEnvironment(snap.environments[i..], id)
    {
      if snapshot.environments[i].id == id {
        env := Some(snapshot.environments[i]);
      }
      assert snap.environments[i..][1..] == snap.environments[i + 1..];
      i := i + 1;
    }
    if env.None? {
      return Err(TargetNotFound), snap;
    }
    var matched := MatchAssignments(snapshot.assignments, env.value);
    var winners := MostSpecificPerFeature(matched);
    var dep := FindWinner(winners, feature, matched);
    if dep.None? {
      return Err(TargetNotFound), snap;
    }
    if !Healthy(snapshot, now, env.value.id) {
      return Err(NotSettled("naisd is unhealthy")), snap;
    }
    if feature in DisabledIn(snapshot, env.value.id) {
      return Err(NotSettled("feature reconcile disabled")), snap;
    }
    var decision := ComputeAction(snapshot, env.value, dep.value);
    if decision.action != ActionSkipUnchanged {
      return Err(NotSettled(decision.message)), snap;
    }
    decision := decision.(action := ActionDeploy);
    decision := decision.(message := "redeploy requested");
    var ok, published := table.Deploy([decision], uuids, encodes, accepted, stored, now);
    assert AllEncode([decision], encodes) <==> encodes(decision.values) by {
      assert decision in [decision];
    }
    result := if ok then Ok(()) else Err(DeployFailed);
  }

  method FindWinner(winners: seq<Assignment>, feature: string, ghost matched: seq<Assignment>)
    returns (dep: Option<Assignment>)
    requires IsSelection(winners, matched)
    ensures dep == Winner(matched, feature)
  {
    WinnerBest(matched, feature);
    assert Winner(matched, feature).None? || Winner(matched, feature).value in winners;
    for i := 0 to |winners|
      invariant forall k :: 0 <= k < i ==> winners[k].feature.name != feature
    {
      if winners[i].feature.name == feature {
        assert winners[i] in winners;
        return Some(winners[i]);
      }
    }
    return None;
  }

  /** The snapshot's deploy maps are the view of the log. */
  ghost predicate ReadsLog(snap: Snapshot, log: seq<DeployRow>) {
    ShowsLatest(log, snap.latest) && ShowsDeployed(log, snap.deployed)
  }

  // ----- Agreement with the loop -----

  lemma {:induction false} FindEnvironmentMeaning(envs: seq<Environment>, id: EnvId)
    ensures match FindEnvironment(envs, id)
            case None => forall e :: e in envs ==> e.id != id
            case Some(e) => e in envs && e.id == id
  {
    if envs != [] {
      FindEnvironmentMeaning(envs[1..], id);
    }
  }

  /** A decision of the cycle for this pair. */
  ghost predicate LoopDecides(results: seq<Decision>, id: EnvId, feature: string, d: Decision) {
    d in results && d.environment == id && d.feature.name == feature
  }

  lemma {:induction false} LoopDecision(snap: Snapshot, now: int, results: seq<Decision>, id: EnvId, feature: string,
                                        d: Decision)
    requires DistinctEnvironments(snap) && CompleteResults(snap, now, results)
    ensures LoopDecides(results, id, feature, d) <==>
              var env := FindEnvironment(snap.environments, id);
              env.Some? && var dep := Winner(Matching(snap.assignments, env.value), feature);
                           dep.Some? && d == Dispatched(snap, now, env.value, dep.value)
  {
    FindEnvironmentMeaning(snap.environments, id);
    var env := FindEnvironment(snap.environments, id);
    if env.Some? {
      WinnerBest(Matching(snap.assignments, env.value), feature);
      var dep := Winner(Matching(snap.assignments, env.value), feature);
      if dep.Some? && d == Dispatched(snap, now, env.value, dep.value) {
        DispatchedPair(snap, now, env.value, dep.value);
        assert DecisionFrom(snap, now, env.value, dep.value, d);
      }
    }
    if LoopDecides(results, id, feature, d) {
      assert IsDecision(snap, now, d);
      var e, dep :| DecisionFrom(snap, now, e, dep, d);
      DispatchedPair(snap, now, e, dep);
      var i :| 0 <= i < |snap.environments| && snap.environments[i] == e;
      var j :| 0 <= j < |snap.environments| && snap.environments[j] == env.value;
      assert i == j;
    }
  }

  /** On one snapshot and clock, a redeploy is granted exactly where the loop would skip
      the pair as unchanged, and hands over the loop's decision with only action and
      message replaced; it is refused with the loop's own message where the loop
      decides otherwise, and not found where the loop decides nothing. */
  lemma {:induction false} GateMatchesLoop(snap: Snapshot, now: int, results: seq<Decision>, id: EnvId, feature: string)
    requires DistinctEnvironments(snap) && CompleteResults(snap, now, results)
    ensures match Requested(snap, now, id, feature)
            case Ok(r) => exists d :: LoopDecides(results, id, feature, d) && d.action == ActionSkipUnchanged
                                      && r == d.(action := ActionDeploy, message := "redeploy requested")
            case Err(NotSettled(reason)) =>
              exists d :: LoopDecides(results, id, feature, d) && d.action != ActionSkipUnchanged && reason == d.message
            case Err(_) => forall d :: !LoopDecides(results, id, feature, d)
  {
    forall d ensures LoopDecides(results, id, feature, d) <==>
                       var env := FindEnvironment(snap.environments, id);
                       env.Some? && var dep := Winner(Matching(snap.assignments, env.value), feature);
                                    dep.Some? && d == Dispatched(snap, now, env.value, dep.value) {
      LoopDecision(snap, now, results, id, feature, d);
    }
    var env := FindEnvironment(snap.environments, id);
    FindEnvironmentMeaning(snap.environments, id);
    if env.Some? {
      var dep := Winner(Matching(snap.assignments, env.value), feature);
      WinnerBest(Matching(snap.assignments, env.value), feature);
      if dep.Some? {
        assert LoopDecides(results, id, feature, Dispatched(snap, now, env.value, dep.value));
      }
    }
  }
}
