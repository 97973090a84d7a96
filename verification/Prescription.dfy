/** What the source prescribes for the decisions of a cycle, said without the functions that
    compute them: whom a decision names, which case it is, and what it says and carries. */
module Prescription {
  import opened Basics
  import opened Model
  import opened Tree
  import opened Selection
  import opened Compute

  /** The agent reported within the last three minutes. */
  predicate Reported(snap: Snapshot, now: int, env: EnvId) {
    env in snap.health && now - snap.health[env] <= 3 * 60
  }

  /** The names of the first dependency that is not met: of its AllOf those not deployed,
      in order, or if there are none its AnyOf. */
  ghost predicate ReportsUnmet(deps: seq<Dependency>, deployed: set<string>, names: seq<string>) {
    exists i: nat :: i < |deps| && FirstNotMet(deps, deployed, i) &&
      names == if Undeployed(deps[i].allOf, deployed) != [] then Undeployed(deps[i].allOf, deployed) else deps[i].anyOf
  }

  predicate FirstNotMet(deps: seq<Dependency>, deployed: set<string>, i: nat)
    requires i < |deps|
  {
    !Holds(deps[i], deployed) && forall j :: 0 <= j < i ==> Holds(deps[j], deployed)
  }

  /** All of the one list are deployed and, unless it is empty, one of the other. */
  predicate Holds(dep: Dependency, deployed: set<string>) {
    && (forall n :: n in dep.allOf ==> n in deployed)
    && (|dep.anyOf| > 0 ==> exists n :: n in dep.anyOf && n in deployed)
  }

  /** What the source prescribes for an environment and its winner, field by field: whom the
      decision names, and in each case what it says and carries. */
  ghost predicate Prescribed(snap: Snapshot, now: int, env: Environment, dep: Assignment, d: Decision) {
    var deployed := if env.id in snap.deployed then snap.deployed[env.id] else {};
    var disabled := env.id in snap.disabled && dep.feature.name in snap.disabled[env.id];
    && d.environment == env.id && d.environmentName == env.name && d.tenantName == env.tenantName
    && d.assignment == dep.id && d.feature == dep.feature
    && if !Reported(snap, now, env.id) then
         Carries(d, ActionSkipUnhealthy, "naisd is unhealthy", None, "")
       else if disabled then
         Carries(d, ActionSkipDisabled, "feature reconcile disabled", None, "")
       else if exists x :: x in dep.feature.dependencies && !Holds(x, deployed) then
         exists names :: ReportsUnmet(dep.feature.dependencies, deployed, names) &&
           Carries(d, ActionFailMissingDeps, "missing dependencies: " + JoinComma(names), None, "")
       else match snap.render(env, dep)
         case LacksConfig(fields) =>
           Carries(d, ActionFailMissingConfig, "missing required chart config: " + JoinComma(fields), None, "")
         case Broken(message) => Carries(d, ActionFailRender, message, None, "")
         case Ready(values, hash) => d.values == Some(values) && d.hash == hash && PrescribedReady(snap, env, dep, d)
  }

  predicate Carries(d: Decision, action: Action, message: string, values: Option<Object>, hash: string) {
    d.action == action && d.message == message && d.values == values && d.hash == hash
  }

  /** With values rendered: by the latest deploy of the feature, if there is one. */
  predicate PrescribedReady(snap: Snapshot, env: Environment, dep: Assignment, d: Decision) {
    if !(env.id in snap.latest && dep.feature.name in snap.latest[env.id]) then
      d.action == ActionDeploy && d.message == "deployment instruction created"
    else
      var instr := snap.latest[env.id][dep.feature.name];
      if instr.status == Sent || instr.status == Installing then
        d.action == ActionSkipInProgress && d.message == "deployment is already in progress"
      else if instr.hash == d.hash then d.action == ActionSkipUnchanged && d.message == "in sync"
      else d.action == ActionDeploy && d.message == "deployment instruction created"
  }

  // ----- The decisions are as prescribed -----

  lemma {:induction false} UnmetIsReported(deps: seq<Dependency>, deployed: set<string>)
    ensures match FirstUnmet(deps, deployed)
            case None => forall x :: x in deps ==> Holds(x, deployed)
            case Some(names) =>
              ReportsUnmet(deps, deployed, names) && exists x :: x in deps && !Holds(x, deployed)
  {
    FirstUnmetMeaning(deps, deployed);
    forall x ensures DependencyMet(x, deployed) <==> Holds(x, deployed) {
    }
    if FirstUnmet(deps, deployed).Some? {
      var i := FirstUnmetAt(deps, deployed);
      assert FirstNotMet(deps, deployed, i);
      assert deps[i] in deps;
    }
  }

  lemma {:induction false} FirstUnmetAt(deps: seq<Dependency>, deployed: set<string>) returns (i: nat)
    requires FirstUnmet(deps, deployed).Some?
    ensures i < |deps| && FirstNotMet(deps, deployed, i)
    ensures FirstUnmet(deps, deployed).value ==
            if Undeployed(deps[i].allOf, deployed) != [] then Undeployed(deps[i].allOf, deployed) else deps[i].anyOf
  {
    UndeployedMeaning(deps[0].allOf, deployed);
    if Undeployed(deps[0].allOf, deployed) != [] ||
       (deps[0].anyOf != [] && (forall n :: n in deps[0].anyOf ==> n !in deployed)) {
      i := 0;
    } else {
      var k := FirstUnmetAt(deps[1..], deployed);
      i := k + 1;
    }
  }

  lemma {:induction false} DecidesAsPrescribed(snap: Snapshot, now: int, env: Environment, dep: Assignment)
    ensures Prescribed(snap, now, env, dep, Dispatched(snap, now, env, dep))
  {
    var deployed, d := DeployedIn(snap, env.id), Dispatched(snap, now, env, dep);
    UnmetIsReported(dep.feature.dependencies, deployed);
    if Reported(snap, now, env.id) && dep.feature.name !in DisabledIn(snap, env.id) {
      if FirstUnmet(dep.feature.dependencies, deployed).Some? {
        var names := FirstUnmet(dep.feature.dependencies, deployed).value;
        assert Carries(d, ActionFailMissingDeps, "missing dependencies: " + JoinComma(names), None, "");
      } else if snap.render(env, dep).Ready? {
        ReadyAsPrescribed(snap, env, dep);
      }
    }
  }

  lemma {:induction false} ReadyAsPrescribed(snap: Snapshot, env: Environment, dep: Assignment)
    requires FirstUnmet(dep.feature.dependencies, DeployedIn(snap, env.id)).None? && snap.render(env, dep).Ready?
    ensures PrescribedReady(snap, env, dep, Computed(snap, env, dep))
    ensures Computed(snap, env, dep).values == Some(snap.render(env, dep).values)
    ensures Computed(snap, env, dep).hash == snap.render(env, dep).hash
  {}

  /** The decisions of a cycle. Each is what the source prescribes for an environment and
      the best assignment of a feature there; each environment and feature with a fitting
      assignment has one; none has two. */
  lemma {:induction false} CycleDecides(snap: Snapshot, now: int, results: seq<Decision>)
    requires CompleteResults(snap, now, results)
    ensures forall d :: d in results ==> exists env, dep: Assignment ::
              env in snap.environments && Best(snap.assignments, env, dep.feature.name, dep) &&
              Prescribed(snap, now, env, dep, d)
    ensures forall env, a: Assignment :: env in snap.environments && Fits(snap.assignments, env, a.feature.name, a) ==>
              exists d :: d in results && d.environment == env.id && d.feature.name == a.feature.name
    ensures forall i, j :: 0 <= i < j < |results| ==>
              results[i].environment != results[j].environment || results[i].feature.name != results[j].feature.name
  {
    forall d | d in results
      ensures exists env, dep: Assignment ::
                env in snap.environments && Best(snap.assignments, env, dep.feature.name, dep) &&
                Prescribed(snap, now, env, dep, d)
    {
      assert IsDecision(snap, now, d);
      var env, dep :| DecisionFrom(snap, now, env, dep, d);
      SelectsBest(snap.assignments, env, dep.feature.name);
      DecidesAsPrescribed(snap, now, env, dep);
    }
    forall env, a: Assignment | env in snap.environments && Fits(snap.assignments, env, a.feature.name, a)
      ensures exists d :: d in results && d.environment == env.id && d.feature.name == a.feature.name
    {
      SelectsBest(snap.assignments, env, a.feature.name);
      WinnerDecided(snap, now, results, env, a.feature.name);
    }
  }

  lemma {:induction false} WinnerDecided(snap: Snapshot, now: int, results: seq<Decision>, env: Environment, f: string)
    requires CompleteResults(snap, now, results) && env in snap.environments
    requires Winner(Matching(snap.assignments, env), f).Some?
    ensures exists d :: d in results && d.environment == env.id && d.feature.name == f
  {
    WinnerBest(Matching(snap.assignments, env), f);
    var dep := Winner(Matching(snap.assignments, env), f).value;
    DispatchedPair(snap, now, env, dep);
    assert DecisionFrom(snap, now, env, dep, Dispatched(snap, now, env, dep));
    assert IsDecision(snap, now, Dispatched(snap, now, env, dep));
  }
}
