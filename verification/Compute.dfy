/** One reconcile decision: the dispatch gates, the dependency check and computeAction. */
module Compute {
  import opened Basics
  import opened Model
  import opened Selection
  import opened Tree

  datatype DeployStatus = Unknown | Sent | Installing | Deployed | Failed | Other(text: string)

  predicate IsInProgress(s: DeployStatus) {
    s == Sent || s == Installing
  }

  datatype Action =
    | ActionDeploy
    | ActionSkipUnchanged
    | ActionSkipInProgress
    | ActionSkipDisabled
    | ActionSkipUnhealthy
    | ActionFailMissingDeps
    | ActionFailMissingConfig
    | ActionFailRender

  datatype Instruction = Instruction(hash: string, status: DeployStatus)

  /** How rendering an assignment for an environment ends, with its hash. */
  datatype RenderOutcome = Ready(values: Object,
                                 hash: string) | LacksConfig(fields: seq<string>) | Broken(message: string)

  /** Equal up to the text of an error. */
  predicate SameEnding(a: RenderOutcome, b: RenderOutcome) {
    a == b || (a.Broken? && b.Broken?)
  }

  /** `render` is how each render of the cycle ends, whatever order Go iterates in. */
  datatype Snapshot = Snapshot(
    environments: seq<Environment>,
    assignments: seq<Assignment>,
    health: map<EnvId, int>,
    disabled: map<EnvId, set<string>>,
    render: (Environment, Assignment) -> RenderOutcome,
    latest: map<EnvId, map<string, Instruction>>,
    deployed: map<EnvId, set<string>>)

  datatype Decision = Decision(
    environment: EnvId,
    environmentName: string,
    tenantName: string,
    assignment: AssignmentId,
    feature: Feature,
    values: Option<Object>,
    hash: string,
    action: Action,
    message: string)

  const HEALTH_LIMIT := 180 // three minutes, in seconds

  function JoinComma(xs: seq<string>): string {
    if xs == [] then "" else if |xs| == 1 then xs[0] else xs[0] + ", " + JoinComma(xs[1..])
  }

  // ----- Dependencies -----

  function Undeployed(names: seq<string>, deployed: set<string>): seq<string> {
    if names == [] then []
    else
      var n := |names| - 1;
      Undeployed(names[..n], deployed) + if names[n] in deployed then [] else [names[n]]
  }

  /** The names reported for the first dependency that is not met. */
  function FirstUnmet(deps: seq<Dependency>, deployed: set<string>): Option<seq<string>> {
    if deps == [] then None
    else
      var missing := Undeployed(deps[0].allOf, deployed);
      if missing != [] then Some(missing)
      else if deps[0].anyOf != [] && (forall n :: n in deps[0].anyOf ==> n !in deployed) then Some(deps[0].anyOf)
      else FirstUnmet(deps[1..], deployed)
  }

  predicate DependencyMet(dep: Dependency, deployed: set<string>) {
    (forall n :: n in dep.allOf ==> n in deployed) && (dep.anyOf == [] || exists n :: n in dep.anyOf && n in deployed)
  }

  predicate DependenciesMet(f: Feature, deployed: set<string>) {
    forall dep :: dep in f.dependencies ==> DependencyMet(dep, deployed)
  }

  method CheckDependencies(f: Feature, deployed: set<string>) returns (ok: bool, missing: seq<string>)
    ensures ok <==> FirstUnmet(f.dependencies, deployed).None?
    ensures !ok ==> FirstUnmet(f.dependencies, deployed) == Some(missing)
    ensures ok ==> missing == []
  {
    var deps := f.dependencies;
    for i := 0 to |deps|
      invariant FirstUnmet(deps, deployed) == FirstUnmet(deps[i..], deployed)
    {
      var dep := deps[i];
      assert deps[i..][1..] == deps[i + 1..];
      missing := [];
      for j := 0 to |dep.allOf|
        invariant missing == Undeployed(dep.allOf[..j], deployed)
      {
        assert dep.allOf[..j + 1][..j] == dep.allOf[..j];
        if dep.allOf[j] !in deployed {
          missing := missing + [dep.allOf[j]];
        }
      }
      assert dep.allOf[..|dep.allOf|] == dep.allOf;
      if |missing| > 0 {
        return false, missing;
      }
      if |dep.anyOf| > 0 {
        var found := false;
        var j := 0;
        while j < |dep.anyOf| && !found
          invariant 0 <= j <= |dep.anyOf|
          invariant found <==> exists k :: 0 <= k < j && dep.anyOf[k] in deployed
        {
          found := dep.anyOf[j] in deployed;
          j := j + 1;
        }
        if !found {
          return false, dep.anyOf;
        }
      }
    }
    return true, [];
  }

  lemma {:induction false} UndeployedMeaning(names: seq<string>, deployed: set<string>)
    ensures Undeployed(names, deployed) == [] <==> forall n :: n in names ==> n in deployed
  {
    if names != [] {
      var n := |names| - 1;
      UndeployedMeaning(names[..n], deployed);
      assert names == names[..n] + [names[n]];
    }
  }

  lemma {:induction false} FirstUnmetMeaning(deps: seq<Dependency>, deployed: set<string>)
    ensures FirstUnmet(deps, deployed).None? <==> forall dep :: dep in deps ==> DependencyMet(dep, deployed)
  {
    if deps != [] {
      UndeployedMeaning(deps[0].allOf, deployed);
      FirstUnmetMeaning(deps[1..], deployed);
      assert forall dep :: dep in deps <==> dep == deps[0] || dep in deps[1..];
      assert FirstUnmet(deps, deployed).None? <==>
        DependencyMet(deps[0], deployed) && FirstUnmet(deps[1..], deployed).None?;
    }
  }

  lemma {:induction false} UndeployedNames(names: seq<string>, deployed: set<string>)
    ensures forall n :: n in Undeployed(names, deployed) <==> n in names && n !in deployed
  {
    if names != [] {
      UndeployedNames(names[..|names| - 1], deployed);
      assert names == names[..|names| - 1] + [names[|names| - 1]];
    }
  }

  /** What is reported: of the first dependency that is not met, the AllOf names that are
      not deployed, or, if all of those are, its AnyOf names. */
  lemma {:induction false} FirstUnmetNames(deps: seq<Dependency>, deployed: set<string>) returns (i: nat)
    requires FirstUnmet(deps, deployed).Some?
    ensures i < |deps| && !DependencyMet(deps[i], deployed)
    ensures forall j :: 0 <= j < i ==> DependencyMet(deps[j], deployed)
    ensures var names := FirstUnmet(deps, deployed).value;
            if forall n :: n in deps[i].allOf ==> n in deployed then names == deps[i].anyOf
            else forall n :: n in names <==> n in deps[i].allOf && n !in deployed
  {
    UndeployedMeaning(deps[0].allOf, deployed);
    UndeployedNames(deps[0].allOf, deployed);
    if Undeployed(deps[0].allOf, deployed) != [] ||
      (deps[0].anyOf != [] && (forall n :: n in deps[0].anyOf ==> n !in deployed)) {
      i := 0;
    } else {
      var k := FirstUnmetNames(deps[1..], deployed);
      i := k + 1;
    }
  }

  // ----- Decisions -----

  function DeployedIn(snap: Snapshot, env: EnvId): set<string> {
    if env in snap.deployed then snap.deployed[env] else {}
  }

  function DisabledIn(snap: Snapshot, env: EnvId): set<string> {
    if env in snap.disabled then snap.disabled[env] else {}
  }

  function LatestOf(snap: Snapshot, env: EnvId, feature: string): Option<Instruction> {
    if env in snap.latest && feature in snap.latest[env] then Some(snap.latest[env][feature]) else None
  }

  predicate Healthy(snap: Snapshot, now: int, env: EnvId) {
    env in snap.health && now - snap.health[env] <= HEALTH_LIMIT
  }

  function Base(env: Environment, dep: Assignment, action: Action, message: string): Decision {
    Decision(env.id, env.name, env.tenantName, dep.id, dep.feature, None, "", action, message)
  }

  /** What is decided for a winner that its gates let through, given how it renders. */
  function DecisionFor(snap: Snapshot, env: Environment, dep: Assignment, rendered: RenderOutcome): Decision {
    var unmet := FirstUnmet(dep.feature.dependencies, DeployedIn(snap, env.id));
    if unmet.Some? then Base(env, dep, ActionFailMissingDeps, "missing dependencies: " + JoinComma(unmet.value))
    else match rendered
      case LacksConfig(fields) =>
        Base(env, dep, ActionFailMissingConfig, "missing required chart config: " + JoinComma(fields))
      case Broken(message) => Base(env, dep, ActionFailRender, message)
      case Ready(values, hash) =>
        var d := Base(env, dep, ActionDeploy, "deployment instruction created").(values := Some(values), hash := hash);
        match LatestOf(snap, env.id, dep.feature.name)
        case None => d
        case Some(instr) =>
          if IsInProgress(instr.status)
          then d.(action := ActionSkipInProgress, message := "deployment is already in progress")
          else if instr.hash == hash then d.(action := ActionSkipUnchanged, message := "in sync")
          else d
  }

  function Computed(snap: Snapshot, env: Environment, dep: Assignment): Decision {
    DecisionFor(snap, env, dep, snap.render(env, dep))
  }

  /** The dispatcher's gates in front of computeAction. */
  function Dispatched(snap: Snapshot, now: int, env: Environment, dep: Assignment): Decision {
    if !Healthy(snap, now, env.id) then Base(env, dep, ActionSkipUnhealthy, "naisd is unhealthy")
    else if dep.feature.name in DisabledIn(snap, env.id)
      then Base(env, dep, ActionSkipDisabled, "feature reconcile disabled")
    else Computed(snap, env, dep)
  }

  method ComputeAction(snap: Snapshot, env: Environment, dep: Assignment) returns (base: Decision)
    ensures base == Computed(snap, env, dep)
  {
    var ok: bool;
    ok, base := DependencyGate(snap, env, dep);
    if ok {
      base := ActOnRender(snap, env, dep, base, snap.render(env, dep));
    }
  }

  /** The first part of computeAction: the dependency check. */
  method DependencyGate(snap: Snapshot, env: Environment, dep: Assignment) returns (ok: bool, base: Decision)
    ensures ok <==> DependenciesMet(dep.feature, DeployedIn(snap, env.id))
    ensures ok ==> base == Base(env, dep, ActionDeploy, "")
    ensures !ok ==> forall rendered :: base == DecisionFor(snap, env, dep, rendered)
  {
    base := Decision(env.id, env.name, env.tenantName, dep.id, dep.feature, None, "", ActionDeploy, "");
    var missing;
    ok, missing := CheckDependencies(dep.feature, DeployedIn(snap, env.id));
    FirstUnmetMeaning(dep.feature.dependencies, DeployedIn(snap, env.id));
    if !ok {
      base := base.(action := ActionFailMissingDeps);
      base := base.(message := "missing dependencies: " + JoinComma(missing));
    }
  }

  /** The last part of computeAction: from the render to the action. */
  method ActOnRender(snap: Snapshot, env: Environment, dep: Assignment, start: Decision, rendered: RenderOutcome)
    returns (base: Decision)
    requires start == Base(env, dep, ActionDeploy, "")
    requires DependenciesMet(dep.feature, DeployedIn(snap, env.id))
    ensures base == DecisionFor(snap, env, dep, rendered)
  {
    FirstUnmetMeaning(dep.feature.dependencies, DeployedIn(snap, env.id));
    base := start;
    if rendered.LacksConfig? {
      base := base.(action := ActionFailMissingConfig);
      base := base.(message := "missing required chart config: " + JoinComma(rendered.fields));
      return;
    }
    if rendered.Broken? {
      base := base.(action := ActionFailRender);
      base := base.(message := rendered.message);
      return;
    }
    base := base.(values := Some(rendered.values));
    base := base.(hash := rendered.hash);
    if env.id in snap.latest && dep.feature.name in snap.latest[env.id] {
      var instr := snap.latest[env.id][dep.feature.name];
      if IsInProgress(instr.status) {
        base := base.(action := ActionSkipInProgress);
        base := base.(message := "deployment is already in progress");
        return;
      }
      if instr.hash == rendered.hash {
        base := base.(action := ActionSkipUnchanged);
        base := base.(message := "in sync");
        return;
      }
    }
    base := base.(action := ActionDeploy);
    base := base.(message := "deployment instruction created");
  }

  // ----- All decisions of a cycle -----

  /** The results of a cycle, in whatever order the workers produced them: one decision
      for each environment and each feature with a winner there. */
  ghost predicate CompleteResults(snap: Snapshot, now: int, results: seq<Decision>) {
    && OnePerPair(results)
    && forall d :: d in results <==> IsDecision(snap, now, d)
  }

  ghost predicate OnePerPair(results: seq<Decision>) {
    forall i, j :: 0 <= i < j < |results| ==>
      !(results[i].environment == results[j].environment && results[i].feature.name == results[j].feature.name)
  }

  ghost predicate IsDecision(snap: Snapshot, now: int, d: Decision) {
    exists env, dep :: DecisionFrom(snap, now, env, dep, d)
  }

  ghost predicate DecisionFrom(snap: Snapshot, now: int, env: Environment, dep: Assignment, d: Decision) {
    env in snap.environments && WinsIn(snap, env, dep) && d == Dispatched(snap, now, env, dep)
  }

  ghost predicate WinsIn(snap: Snapshot, env: Environment, dep: Assignment) {
    Winner(Matching(snap.assignments, env), dep.feature.name) == Some(dep)
  }

  ghost predicate DistinctEnvironments(snap: Snapshot) {
    forall i, j :: 0 <= i < j < |snap.environments| ==> snap.environments[i].id != snap.environments[j].id
  }

  /** A list of winners per environment. Which one is not determined where creation
      times are equal. */
  ghost predicate ValidChoice(snap: Snapshot, choice: seq<seq<Assignment>>, n: nat)
    requires n <= |snap.environments|
  {
    |choice| == n && forall i :: 0 <= i < n ==> IsSelection(choice[i], Matching(snap.assignments, snap.environments[i]))
  }

  ghost function DispatchedSeq(snap: Snapshot, now: int, env: Environment, winners: seq<Assignment>): seq<Decision> {
    seq(|winners|, k requires 0 <= k < |winners| => Dispatched(snap, now, env, winners[k]))
  }

  /** The decisions for the first n environments, environment by environment. */
  ghost function Flat(snap: Snapshot, now: int, choice: seq<seq<Assignment>>, n: nat): seq<Decision>
    requires n <= |choice| && n <= |snap.environments|
  {
    if n == 0 then []
    else Flat(snap, now, choice, n - 1) + DispatchedSeq(snap, now, snap.environments[n - 1], choice[n - 1])
  }

  /** The nested loops of the dispatcher, run by one thread. */
  method SequentialDecisions(snap: Snapshot, now: int) returns (out: seq<Decision>)
    requires DistinctEnvironments(snap)
    ensures CompleteResults(snap, now, out)
  {
    out := [];
    ghost var choice: seq<seq<Assignment>> := [];
    for i := 0 to |snap.environments|
      invariant Progress(snap, now, choice, out, i)
    {
      var env := snap.environments[i];
      var matched := MatchAssignments(snap.assignments, env);
      var winners := MostSpecificPerFeature(matched);
      var more := DispatchAll(snap, now, env, winners);
      ProgressStep(snap, now, choice, out, i, winners);
      choice := choice + [winners];
      out := out + more;
    }
    FlatComplete(snap, now, choice);
  }

  lemma {:induction false} FlatExtend(snap: Snapshot, now: int, choice: seq<seq<Assignment>>, winners: seq<Assignment>,
                                      n: nat)
    requires n <= |choice| && n <= |snap.environments|
    ensures Flat(snap, now, choice + [winners], n) == Flat(snap, now, choice, n)
  {
    if n > 0 {
      FlatExtend(snap, now, choice, winners, n - 1);
    }
  }

  ghost predicate Progress(snap: Snapshot, now: int, choice: seq<seq<Assignment>>, out: seq<Decision>, n: nat) {
    n <= |snap.environments| && ValidChoice(snap, choice, n) && out == Flat(snap, now, choice, n)
  }

  lemma {:induction false} ProgressStep(snap: Snapshot, now: int, choice: seq<seq<Assignment>>, out: seq<Decision>,
                                        n: nat, winners: seq<Assignment>)
    requires n < |snap.environments| && Progress(snap, now, choice, out, n)
    requires IsSelection(winners, Matching(snap.assignments, snap.environments[n]))
    ensures Progress(snap, now, choice + [winners], out + DispatchedSeq(snap, now, snap.environments[n], winners),
                     n + 1)
  {
    FlatExtend(snap, now, choice, winners, n);
    var longer := choice + [winners];
    forall i | 0 <= i < n + 1 ensures IsSelection(longer[i], Matching(snap.assignments, snap.environments[i])) {
      assert i == n || longer[i] == choice[i];
    }
  }

  ghost predicate DecidedIn(snap: Snapshot, now: int, env: Environment, d: Decision) {
    exists dep :: DecisionFrom(snap, now, env, dep, d)
  }

  ghost predicate DecidedBefore(snap: Snapshot, now: int, n: nat, d: Decision)
    requires n <= |snap.environments|
  {
    exists j :: 0 <= j < n && DecidedIn(snap, now, snap.environments[j], d)
  }

  lemma {:induction false} OnePerPairJoined(a: seq<Decision>, b: seq<Decision>)
    requires OnePerPair(a) && OnePerPair(b)
    requires forall i, j :: 0 <= i < |a| && 0 <= j < |b| ==> a[i].environment != b[j].environment
    ensures OnePerPair(a + b)
  {}

  lemma {:induction false} DecidedInNames(snap: Snapshot, now: int, env: Environment, d: Decision)
    requires DecidedIn(snap, now, env, d)
    ensures d.environment == env.id
  {
    var dep :| DecisionFrom(snap, now, env, dep, d);
    DispatchedPair(snap, now, env, dep);
  }

  lemma {:induction false} DecidedBeforeStep(snap: Snapshot, now: int, n: nat, d: Decision)
    requires n < |snap.environments|
    ensures DecidedBefore(snap, now, n + 1, d) <==>
            DecidedBefore(snap, now, n, d) || DecidedIn(snap, now, snap.environments[n], d)
  {}

  /** One environment's decisions, whichever winners were listed for it. */
  ghost predicate Decides(snap: Snapshot, now: int, i: nat, block: seq<Decision>)
    requires i < |snap.environments|
  {
    OnePerPair(block) && forall d :: d in block <==> DecidedIn(snap, now, snap.environments[i], d)
  }

  ghost predicate AllDecide(snap: Snapshot, now: int, choice: seq<seq<Assignment>>) {
    |choice| == |snap.environments| && forall i :: 0 <= i < |choice| ==>
      Decides(snap, now, i, BlockOf(snap, now, choice, i))
  }

  ghost function BlockOf(snap: Snapshot, now: int, choice: seq<seq<Assignment>>, i: nat): seq<Decision>
    requires i < |choice| && i < |snap.environments|
  {
    DispatchedSeq(snap, now, snap.environments[i], choice[i])
  }

  lemma {:induction false} ValidChoicesDecide(snap: Snapshot, now: int, choice: seq<seq<Assignment>>)
    requires ValidChoice(snap, choice, |snap.environments|)
    ensures AllDecide(snap, now, choice)
  {
    forall i | 0 <= i < |choice| ensures Decides(snap, now, i, BlockOf(snap, now, choice, i)) {
      OneEnvironment(snap, now, i, choice[i], BlockOf(snap, now, choice, i));
    }
  }

  lemma {:induction false} InJoined(a: seq<Decision>, b: seq<Decision>, d: Decision)
    ensures d in a + b <==> d in a || d in b
  {}

  lemma {:induction false} FlatMembers(snap: Snapshot, now: int, choice: seq<seq<Assignment>>, n: nat, d: Decision)
    requires n <= |choice| && AllDecide(snap, now, choice)
    ensures d in Flat(snap, now, choice, n) <==> DecidedBefore(snap, now, n, d)
  {
    if n > 0 {
      FlatMembers(snap, now, choice, n - 1, d);
      DecidedBeforeStep(snap, now, n - 1, d);
      assert Decides(snap, now, n - 1, BlockOf(snap, now, choice, n - 1));
      InJoined(Flat(snap, now, choice, n - 1), BlockOf(snap, now, choice, n - 1), d);
    }
  }

  lemma {:induction false} EarlierEnvironments(snap: Snapshot, now: int, choice: seq<seq<Assignment>>, n: nat,
                                               d: Decision)
    requires n < |choice| && AllDecide(snap, now, choice) && DistinctEnvironments(snap) &&
             d in Flat(snap, now, choice, n)
    ensures d.environment != snap.environments[n].id
  {
    FlatMembers(snap, now, choice, n, d);
    var j :| 0 <= j < n && DecidedIn(snap, now, snap.environments[j], d);
    DecidedInNames(snap, now, snap.environments[j], d);
  }

  lemma {:induction false} FlatOnePerPair(snap: Snapshot, now: int, choice: seq<seq<Assignment>>, n: nat)
    requires DistinctEnvironments(snap) && n <= |choice| && AllDecide(snap, now, choice)
    ensures OnePerPair(Flat(snap, now, choice, n))
  {
    if n > 0 {
      var before, more := Flat(snap, now, choice, n - 1), BlockOf(snap, now, choice, n - 1);
      FlatOnePerPair(snap, now, choice, n - 1);
      assert Decides(snap, now, n - 1, more);
      forall i, k | 0 <= i < |before| && 0 <= k < |more| ensures before[i].environment != more[k].environment {
        EarlierEnvironments(snap, now, choice, n - 1, before[i]);
        assert more[k] in more;
        DecidedInNames(snap, now, snap.environments[n - 1], more[k]);
      }
      OnePerPairJoined(before, more);
    }
  }

  lemma {:induction false} DecidedSomewhere(snap: Snapshot, now: int, d: Decision)
    ensures DecidedBefore(snap, now, |snap.environments|, d) <==> IsDecision(snap, now, d)
  {
    if DecidedBefore(snap, now, |snap.environments|, d) {
      var j :| 0 <= j < |snap.environments| && DecidedIn(snap, now, snap.environments[j], d);
      var dep :| DecisionFrom(snap, now, snap.environments[j], dep, d);
    }
    if IsDecision(snap, now, d) {
      var env, dep :| DecisionFrom(snap, now, env, dep, d);
      var j :| 0 <= j < |snap.environments| && snap.environments[j] == env;
      assert DecidedIn(snap, now, snap.environments[j], d);
    }
  }

  lemma {:induction false} FlatComplete(snap: Snapshot, now: int, choice: seq<seq<Assignment>>)
    requires DistinctEnvironments(snap) && ValidChoice(snap, choice, |snap.environments|)
    ensures CompleteResults(snap, now, Flat(snap, now, choice, |choice|))
  {
    ValidChoicesDecide(snap, now, choice);
    FlatOnePerPair(snap, now, choice, |choice|);
    var out := Flat(snap, now, choice, |choice|);
    forall d ensures d in out <==> IsDecision(snap, now, d) {
      FlatMembers(snap, now, choice, |choice|, d);
      DecidedSomewhere(snap, now, d);
    }
  }

  /** The decisions of one environment's winners are that environment's decisions. */
  lemma {:induction false} OneEnvironment(snap: Snapshot, now: int, i: nat, winners: seq<Assignment>,
                                          more: seq<Decision>)
    requires i < |snap.environments|
    requires IsSelection(winners, Matching(snap.assignments, snap.environments[i]))
    requires more == DispatchedSeq(snap, now, snap.environments[i], winners)
    ensures OnePerPair(more)
    ensures forall d :: d in more ==> d.environment == snap.environments[i].id
    ensures forall d :: d in more <==> DecidedIn(snap, now, snap.environments[i], d)
  {
    var env := snap.environments[i];
    forall k | 0 <= k < |more| ensures more[k].environment == env.id && more[k].feature == winners[k].feature {
      DispatchedPair(snap, now, env, winners[k]);
    }
    forall d | d in more ensures DecidedIn(snap, now, env, d) {
      var k :| 0 <= k < |more| && more[k] == d;
      assert winners[k] in winners;
      assert DecisionFrom(snap, now, env, winners[k], d);
    }
    forall d | DecidedIn(snap, now, env, d) ensures d in more {
      var dep :| DecisionFrom(snap, now, env, dep, d);
      assert dep in winners;
      var k :| 0 <= k < |winners| && winners[k] == dep;
      assert more[k] == d;
    }
  }

  lemma {:induction false} DispatchedPair(snap: Snapshot, now: int, env: Environment, dep: Assignment)
    ensures var d := Dispatched(snap, now, env, dep);
            d.environment == env.id && d.feature == dep.feature && d.assignment == dep.id
  {}

  method DispatchAll(snap: Snapshot, now: int, env: Environment, winners: seq<Assignment>) returns (out: seq<Decision>)
    ensures out == DispatchedSeq(snap, now, env, winners)
  {
    out := [];
    for n := 0 to |winners|
      invariant out == DispatchedSeq(snap, now, env, winners)[..n]
    {
      var dep := winners[n];
      if !Healthy(snap, now, env.id) {
        out := out + [Base(env, dep, ActionSkipUnhealthy, "naisd is unhealthy")];
        continue;
      }
      if dep.feature.name in DisabledIn(snap, env.id) {
        out := out + [Base(env, dep, ActionSkipDisabled, "feature reconcile disabled")];
        continue;
      }
      var d := ComputeAction(snap, env, dep);
      out := out + [d];
    }
  }

  lemma {:induction false} OnePerPairPermuted(a: seq<Decision>, b: seq<Decision>)
    requires OnePerPair(a) && multiset(a) == multiset(b)
    ensures OnePerPair(b)
  {
    assert NoDuplicates(a);
    PermutationNoDuplicates(a, b);
    forall i, j | 0 <= i < j < |b|
      ensures !(b[i].environment == b[j].environment && b[i].feature.name == b[j].feature.name)
    {
      assert b[i] in multiset(a) && b[j] in multiset(a);
      var k :| 0 <= k < |a| && a[k] == b[i];
      var l :| 0 <= l < |a| && a[l] == b[j];
      assert k != l;
    }
  }

  /** The order in which results arrive does not matter. */
  lemma {:induction false} CompleteInAnyOrder(snap: Snapshot, now: int, a: seq<Decision>, b: seq<Decision>)
    requires CompleteResults(snap, now, a) && multiset(a) == multiset(b)
    ensures CompleteResults(snap, now, b)
  {
    OnePerPairPermuted(a, b);
    forall d ensures d in b <==> IsDecision(snap, now, d) {
      assert d in b <==> d in multiset(a);
    }
  }

  // ----- Main results -----

  /** The text joined by ", ". */
  lemma {:induction false} JoinCommaJoined(a: seq<string>, b: seq<string>)
    requires a != [] && b != []
    ensures JoinComma(a + b) == JoinComma(a) + ", " + JoinComma(b)
  {
    if |a| == 1 {
      assert (a + b)[1..] == b;
    } else {
      assert (a + b)[1..] == a[1..] + b;
      JoinCommaJoined(a[1..], b);
    }
  }

  lemma {:induction false} UndeployedJoined(a: seq<string>, b: seq<string>, deployed: set<string>)
    ensures Undeployed(a + b, deployed) == Undeployed(a, deployed) + Undeployed(b, deployed)
  {
    if b == [] {
      assert a + b == a;
    } else {
      var n := |b| - 1;
      assert (a + b)[..|a + b| - 1] == a + b[..n];
      UndeployedJoined(a, b[..n], deployed);
    }
  }

  /** When the loop deploys, and why it does not: each action happens exactly in its case,
      and only a decision that got past rendering carries values and a hash. */
  lemma {:induction false} DecisionMeaning(snap: Snapshot, now: int, env: Environment, dep: Assignment)
    ensures var d := Dispatched(snap, now, env, dep);
            var met := DependenciesMet(dep.feature, DeployedIn(snap, env.id));
            var go := Healthy(snap, now, env.id) && dep.feature.name !in DisabledIn(snap, env.id);
            var latest := LatestOf(snap, env.id, dep.feature.name);
            var outcome := snap.render(env, dep);
            var ready := go && met && outcome.Ready?;
            var settled := latest.Some? && !IsInProgress(latest.value.status);
            && (d.action == ActionDeploy <==> ready && (latest.None? || (settled && latest.value.hash != outcome.hash)))
            && (d.action == ActionSkipUnchanged <==> ready && settled && latest.value.hash == outcome.hash)
            && (d.action == ActionSkipInProgress <==> ready && latest.Some? && !settled)
            && (d.action == ActionSkipUnhealthy <==> !Healthy(snap, now, env.id))
            && (d.action == ActionSkipDisabled <==> Healthy(snap, now, env.id) && !go)
            && (d.action == ActionFailMissingDeps <==> go && !met)
            && (d.action == ActionFailMissingConfig <==> go && met && outcome.LacksConfig?)
            && (d.action == ActionFailRender <==> go && met && outcome.Broken?)
            && d.values == (if ready then Some(outcome.values) else None)
            && d.hash == (if ready then outcome.hash else "")
            && d.environment == env.id && d.assignment == dep.id && d.feature == dep.feature
  {
    FirstUnmetMeaning(dep.feature.dependencies, DeployedIn(snap, env.id));
  }

  /** More deployed features never make a met dependency unmet. */
  lemma {:induction false} DependenciesMonotone(f: Feature, before: set<string>, after: set<string>)
    requires before <= after && DependenciesMet(f, before)
    ensures DependenciesMet(f, after)
  {
    forall dep | dep in f.dependencies ensures DependencyMet(dep, after) {
      assert DependencyMet(dep, before);
    }
  }
}
