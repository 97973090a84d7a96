/** The displayed status of an assignment: the join of the two logs' views, for one
    assignment and for all at once. */
module Status {
  import opened Basics
  import opened Model
  import opened Compute

  datatype State = Disabled | SentState | InstallingState | Unhealthy | MissingDeps | MissingConfig | RenderError
                 | DeployedState | FailedState | Pending | UnknownState

  datatype Source = FromDecision | FromDeploy

  /** A row of decision_status; no action is Go's empty string, for a missing row. */
  datatype DecisionSignal = DecisionSignal(assignment: AssignmentId, environment: EnvId, action: Option<Action>,
                                           message: string, created: int)

  datatype DeploySignal = DeploySignal(assignment: AssignmentId, environment: EnvId, status: DeployStatus, created: int)

  datatype ReconcileStatus = ReconcileStatus(state: State, message: string, lastModified: int, decidedAt: int,
                                             created: int,
                                             assignment: AssignmentId, environment: EnvId)

  const ZERO_TIME := -62135596800 // Go's zero time, in seconds

  function DeriveState(deploy: DeployStatus, action: Option<Action>): (State, Source) {
    if action == Some(ActionSkipDisabled) then (Disabled, FromDecision)
    else if IsInProgress(deploy) then (if deploy == Sent then SentState else InstallingState, FromDeploy)
    else if action == Some(ActionSkipUnhealthy) then (Unhealthy, FromDecision)
    else if action == Some(ActionFailMissingDeps) then (MissingDeps, FromDecision)
    else if action == Some(ActionFailMissingConfig) then (MissingConfig, FromDecision)
    else if action == Some(ActionFailRender) then (RenderError, FromDecision)
    else if deploy == Deployed then (DeployedState, FromDeploy)
    else if deploy == Failed then (FailedState, FromDeploy)
    else match action
      case Some(ActionSkipInProgress) => (Pending, FromDecision)
      case Some(ActionDeploy) => (Pending, FromDecision)
      case Some(ActionSkipUnchanged) => (DeployedState, FromDecision)
      case _ => (UnknownState, FromDecision)
  }

  // ----- Specification -----

  /** The last decision signal of an environment. */
  function DecisionIn(ds: seq<DecisionSignal>, env: EnvId): Option<DecisionSignal> {
    if ds == [] then None
    else if ds[|ds| - 1].environment == env then Some(ds[|ds| - 1])
    else DecisionIn(ds[..|ds| - 1], env)
  }

  function DeployIn(dp: seq<DeploySignal>, env: EnvId): Option<DeploySignal> {
    if dp == [] then None
    else if dp[|dp| - 1].environment == env then Some(dp[|dp| - 1])
    else DeployIn(dp[..|dp| - 1], env)
  }

  function StatusOf(id: AssignmentId, env: EnvId, decision: Option<DecisionSignal>,
                    deploy: Option<DeploySignal>): ReconcileStatus {
    var dec := decision.UnwrapOr(DecisionSignal(0, 0, None, "", ZERO_TIME));
    var dep := deploy.UnwrapOr(DeploySignal(0, 0, Unknown, ZERO_TIME));
    var (state, source) := DeriveState(dep.status, dec.action);
    var lastModified := if source == FromDeploy then dep.created else dec.created;
    ReconcileStatus(state, dec.message, lastModified, dec.created, lastModified, id, env)
  }

  /** One entry for each environment in either list, in order, each the join of its signals. */
  ghost predicate IsJoin(id: AssignmentId, ds: seq<DecisionSignal>, dp: seq<DeploySignal>, r: seq<ReconcileStatus>) {
    && (forall i, j :: 0 <= i < j < |r| ==> r[i].environment < r[j].environment)
    && (forall env :: DecisionIn(ds, env).Some? || DeployIn(dp, env).Some? <==> Lists(r, env))
    && (forall i :: 0 <= i < |r| ==>
        r[i] == StatusOf(id, r[i].environment, DecisionIn(ds, r[i].environment), DeployIn(dp, r[i].environment)))
  }

  ghost predicate Lists(r: seq<ReconcileStatus>, env: EnvId) {
    exists i :: 0 <= i < |r| && r[i].environment == env
  }

  // ----- The join -----

  ghost predicate IndexesDecisions(byEnv: map<EnvId, DecisionSignal>, ds: seq<DecisionSignal>) {
    forall env :: DecisionIn(ds, env) == if env in byEnv then Some(byEnv[env]) else None
  }

  ghost predicate IndexesDeploys(byEnv: map<EnvId, DeploySignal>, dp: seq<DeploySignal>) {
    forall env :: DeployIn(dp, env) == if env in byEnv then Some(byEnv[env]) else None
  }

  predicate Leq(a: EnvId, b: EnvId) {
    a <= b
  }

  /** addEnv over the keys of a map: those not seen yet. */
  method AddEnvironments(keys: set<EnvId>, envIds: seq<EnvId>, seen: set<EnvId>)
    returns (envIds': seq<EnvId>, seen': set<EnvId>)
    requires NoDuplicates(envIds) && forall e :: e in seen <==> e in envIds
    ensures NoDuplicates(envIds') && forall e :: e in seen' <==> e in envIds'
    ensures seen' == seen + keys
  {
    envIds', seen' := envIds, seen;
    var order := RangeKeys(keys);
    for i := 0 to |order|
      invariant NoDuplicates(envIds') && forall e :: e in seen' <==> e in envIds'
      invariant forall e :: e in seen' <==> e in seen || e in order[..i]
    {
      if order[i] !in seen' {
        seen' := seen' + {order[i]};
        envIds' := envIds' + [order[i]];
      }
    }
    assert order[..|order|] == order;
  }

  method IndexDecisions(decisions: seq<DecisionSignal>) returns (byEnv: map<EnvId, DecisionSignal>)
    ensures IndexesDecisions(byEnv, decisions)
  {
    byEnv := map[];
    for i := 0 to |decisions|
      invariant IndexesDecisions(byEnv, decisions[..i])
    {
      assert decisions[..i + 1][..i] == decisions[..i];
      byEnv := byEnv[decisions[i].environment := decisions[i]];
    }
    assert decisions[..|decisions|] == decisions;
  }

  method IndexDeploys(deploys: seq<DeploySignal>) returns (byEnv: map<EnvId, DeploySignal>)
    ensures IndexesDeploys(byEnv, deploys)
  {
    byEnv := map[];
    for i := 0 to |deploys|
      invariant IndexesDeploys(byEnv, deploys[..i])
    {
      assert deploys[..i + 1][..i] == deploys[..i];
      byEnv := byEnv[deploys[i].environment := deploys[i]];
    }
    assert deploys[..|deploys|] == deploys;
  }

  method JoinReconcileSignals(id: AssignmentId, decisions: seq<DecisionSignal>, deploys: seq<DeploySignal>)
    returns (statuses: seq<ReconcileStatus>)
    ensures IsJoin(id, decisions, deploys, statuses)
  {
    var decByEnv := IndexDecisions(decisions);
    var depByEnv := IndexDeploys(deploys);
    var envIds, seen := AddEnvironments(decByEnv.Keys, [], {});
    envIds, seen := AddEnvironments(depByEnv.Keys, envIds, seen);
    var sorted := SortEnvironments(envIds);
    statuses := [];
    for i := 0 to |sorted|
      invariant |statuses| == i
      invariant forall k :: 0 <= k < i ==> statuses[k].environment == sorted[k]
      invariant forall k :: 0 <= k < i ==>
                statuses[k] == StatusOf(id, sorted[k], DecisionIn(decisions, sorted[k]), DeployIn(deploys, sorted[k]))
    {
      var envId := sorted[i];
      var dec := if envId in decByEnv then decByEnv[envId] else DecisionSignal(0, 0, None, "", ZERO_TIME);
      var dep := if envId in depByEnv then depByEnv[envId] else DeploySignal(0, 0, Unknown, ZERO_TIME);
      var (state, source) := DeriveState(dep.status, dec.action);
      var lastModified := dec.created;
      if source == FromDeploy {
        lastModified := dep.created;
      }
      statuses := statuses + [ReconcileStatus(state, dec.message, lastModified, dec.created, lastModified, id, envId)];
    }
    JoinListsAll(decisions, deploys, decByEnv, depByEnv, sorted, statuses);
  }

  lemma {:induction false} JoinListsAll(ds: seq<DecisionSignal>, dp: seq<DeploySignal>,
                                        decByEnv: map<EnvId, DecisionSignal>, depByEnv: map<EnvId, DeploySignal>,
                                        sorted: seq<EnvId>, r: seq<ReconcileStatus>)
    requires IndexesDecisions(decByEnv, ds) && IndexesDeploys(depByEnv, dp)
    requires forall e :: e in sorted <==> e in decByEnv || e in depByEnv
    requires |r| == |sorted| && forall k :: 0 <= k < |r| ==> r[k].environment == sorted[k]
    ensures forall env :: DecisionIn(ds, env).Some? || DeployIn(dp, env).Some? <==> Lists(r, env)
  {
    forall env ensures DecisionIn(ds, env).Some? || DeployIn(dp, env).Some? <==> Lists(r, env) {
      assert env in sorted <==> env in decByEnv || env in depByEnv;
      if env in sorted {
        var k :| 0 <= k < |sorted| && sorted[k] == env;
        assert r[k].environment == env;
      }
    }
  }

  method SortEnvironments(xs: seq<EnvId>) returns (ys: seq<EnvId>)
    requires NoDuplicates(xs)
    ensures forall i, j :: 0 <= i < j < |ys| ==> ys[i] < ys[j]
    ensures forall e :: e in ys <==> e in xs
  {
    ys := Sort(xs, Leq);
    SortSorted(xs, Leq);
    PermutationNoDuplicates(xs, ys);
    forall e ensures e in ys <==> e in xs {
      assert e in ys <==> e in multiset(xs);
    }
  }

  // ----- The two read paths -----

  function DecisionsOf(rows: seq<DecisionSignal>, id: AssignmentId): seq<DecisionSignal> {
    if rows == [] then []
    else DecisionsOf(rows[..|rows| - 1], id) + if rows[|rows| - 1].assignment == id then [rows[|rows| - 1]] else []
  }

  function DeploysOf(rows: seq<DeploySignal>, id: AssignmentId): seq<DeploySignal> {
    if rows == [] then []
    else DeploysOf(rows[..|rows| - 1], id) + if rows[|rows| - 1].assignment == id then [rows[|rows| - 1]] else []
  }

  /** The rows are what the queries of one assignment return. */
  method ReconcileStatuses(id: AssignmentId, decisions: seq<DecisionSignal>, deploys: seq<DeploySignal>)
    returns (statuses: seq<ReconcileStatus>)
    requires forall d :: d in decisions ==> d.assignment == id
    requires forall d :: d in deploys ==> d.assignment == id
    ensures IsJoin(id, decisions, deploys, statuses)
  {
    statuses := JoinReconcileSignals(id, decisions, deploys);
  }

  ghost predicate GroupsDecisions(byId: map<AssignmentId, seq<DecisionSignal>>, rows: seq<DecisionSignal>) {
    && (forall id :: id in byId ==> byId[id] != [])
    && forall id :: DecisionsOf(rows, id) == if id in byId then byId[id] else []
  }

  ghost predicate GroupsDeploys(byId: map<AssignmentId, seq<DeploySignal>>, rows: seq<DeploySignal>) {
    && (forall id :: id in byId ==> byId[id] != [])
    && forall id :: DeploysOf(rows, id) == if id in byId then byId[id] else []
  }

  method GroupDecisions(rows: seq<DecisionSignal>) returns (byId: map<AssignmentId, seq<DecisionSignal>>)
    ensures GroupsDecisions(byId, rows)
  {
    byId := map[];
    for i := 0 to |rows|
      invariant GroupsDecisions(byId, rows[..i])
    {
      assert rows[..i + 1][..i] == rows[..i];
      var d := rows[i];
      byId := byId[d.assignment := (if d.assignment in byId then byId[d.assignment] else []) + [d]];
    }
    assert rows[..|rows|] == rows;
  }

  method GroupDeploys(rows: seq<DeploySignal>) returns (byId: map<AssignmentId, seq<DeploySignal>>)
    ensures GroupsDeploys(byId, rows)
  {
    byId := map[];
    for i := 0 to |rows|
      invariant GroupsDeploys(byId, rows[..i])
    {
      assert rows[..i + 1][..i] == rows[..i];
      var d := rows[i];
      byId := byId[d.assignment := (if d.assignment in byId then byId[d.assignment] else []) + [d]];
    }
    assert rows[..|rows|] == rows;
  }

  /** For each assignment with a signal the join of its rows, for others no entry. */
  ghost predicate IsBatch(decisions: seq<DecisionSignal>, deploys: seq<DeploySignal>,
                          out: map<AssignmentId, seq<ReconcileStatus>>) {
    forall id :: BatchEntry(decisions, deploys, out, id)
  }

  ghost predicate BatchEntry(decisions: seq<DecisionSignal>, deploys: seq<DeploySignal>,
                             out: map<AssignmentId, seq<ReconcileStatus>>, id: AssignmentId) {
    && (id in out <==> DecisionsOf(decisions, id) != [] || DeploysOf(deploys, id) != [])
    && (id in out ==> IsJoin(id, DecisionsOf(decisions, id), DeploysOf(deploys, id), out[id]))
  }

  ghost predicate Joined(decisions: seq<DecisionSignal>, deploys: seq<DeploySignal>, id: AssignmentId,
                         r: seq<ReconcileStatus>) {
    IsJoin(id, DecisionsOf(decisions, id), DeploysOf(deploys, id), r)
  }

  ghost predicate AllJoined(decisions: seq<DecisionSignal>, deploys: seq<DeploySignal>,
                            out: map<AssignmentId, seq<ReconcileStatus>>) {
    forall id :: id in out ==> Joined(decisions, deploys, id, out[id])
  }

  method AllReconcileStatuses(decisions: seq<DecisionSignal>, deploys: seq<DeploySignal>)
    returns (out: map<AssignmentId, seq<ReconcileStatus>>)
    ensures IsBatch(decisions, deploys, out)
  {
    var decById := GroupDecisions(decisions);
    var depById := GroupDeploys(deploys);
    out := JoinDecided(decById, depById, decisions, deploys);
    out := JoinDeployedOnly(out, decById, depById, decisions, deploys);
    BatchComplete(decisions, deploys, decById, depById, out);
  }

  /** The first loop: every assignment with decisions. */
  method JoinDecided(decById: map<AssignmentId, seq<DecisionSignal>>, depById: map<AssignmentId, seq<DeploySignal>>,
                     ghost decisions: seq<DecisionSignal>, ghost deploys: seq<DeploySignal>)
    returns (out: map<AssignmentId, seq<ReconcileStatus>>)
    requires GroupsDecisions(decById, decisions) && GroupsDeploys(depById, deploys)
    ensures AllJoined(decisions, deploys, out) && out.Keys == decById.Keys
  {
    out := map[];
    var order := RangeKeys(decById.Keys);
    for i := 0 to |order|
      invariant AllJoined(decisions, deploys, out)
      invariant forall id :: id in out <==> id in order[..i]
    {
      var id := order[i];
      assert order[..i + 1] == order[..i] + [id];
      assert id in decById.Keys;
      var statuses := JoinBoth(id, decById[id], if id in depById then depById[id] else [], decisions, deploys);
      out := out[id := statuses];
    }
    assert order[..|order|] == order;
  }

  /** The second loop: assignments with deploys only. */
  method JoinDeployedOnly(joined: map<AssignmentId, seq<ReconcileStatus>>,
                          ghost decById: map<AssignmentId, seq<DecisionSignal>>,
                          depById: map<AssignmentId, seq<DeploySignal>>, ghost decisions: seq<DecisionSignal>,
                          ghost deploys: seq<DeploySignal>)
    returns (out: map<AssignmentId, seq<ReconcileStatus>>)
    requires GroupsDecisions(decById, decisions) && GroupsDeploys(depById, deploys)
    requires AllJoined(decisions, deploys, joined) && joined.Keys == decById.Keys
    ensures AllJoined(decisions, deploys, out) && forall id :: id in out <==> id in decById || id in depById
  {
    out := joined;
    var order := RangeKeys(depById.Keys);
    for i := 0 to |order|
      invariant JoinedSoFar(decisions, deploys, out, decById.Keys, order[..i])
    {
      var id := order[i];
      assert order[..i + 1] == order[..i] + [id];
      assert id in depById.Keys;
      assert id in decById || DecisionsOf(decisions, id) == [];
      out := JoinUndecided(out, id, depById[id], decById.Keys, order[..i], decisions, deploys);
    }
    assert order[..|order|] == order;
  }

  ghost predicate JoinedSoFar(decisions: seq<DecisionSignal>, deploys: seq<DeploySignal>,
                              out: map<AssignmentId, seq<ReconcileStatus>>,
                              decided: set<AssignmentId>, visited: seq<AssignmentId>) {
    AllJoined(decisions, deploys, out) && forall id :: id in out <==> id in decided || id in visited
  }

  /** The body of the second loop. */
  method JoinUndecided(joined: map<AssignmentId, seq<ReconcileStatus>>, id: AssignmentId, dp: seq<DeploySignal>,
                       ghost decided: set<AssignmentId>, ghost visited: seq<AssignmentId>,
                       ghost decisions: seq<DecisionSignal>, ghost deploys: seq<DeploySignal>)
    returns (out: map<AssignmentId, seq<ReconcileStatus>>)
    requires dp == DeploysOf(deploys, id) && (id in decided || DecisionsOf(decisions, id) == [])
    requires JoinedSoFar(decisions, deploys, joined, decided, visited)
    ensures JoinedSoFar(decisions, deploys, out, decided, visited + [id])
  {
    out := joined;
    if id !in out {
      var statuses := JoinBoth(id, [], dp, decisions, deploys);
      out := out[id := statuses];
    }
  }

  method JoinBoth(id: AssignmentId, ds: seq<DecisionSignal>, dp: seq<DeploySignal>,
                  ghost decisions: seq<DecisionSignal>, ghost deploys: seq<DeploySignal>)
    returns (statuses: seq<ReconcileStatus>)
    requires ds == DecisionsOf(decisions, id) && dp == DeploysOf(deploys, id)
    ensures Joined(decisions, deploys, id, statuses)
  {
    statuses := JoinReconcileSignals(id, ds, dp);
  }

  lemma {:induction false} BatchComplete(decisions: seq<DecisionSignal>, deploys: seq<DeploySignal>,
                                         decById: map<AssignmentId, seq<DecisionSignal>>,
                                         depById: map<AssignmentId, seq<DeploySignal>>,
                                         out: map<AssignmentId, seq<ReconcileStatus>>)
    requires GroupsDecisions(decById, decisions) && GroupsDeploys(depById, deploys)
    requires forall id :: id in out <==> id in decById || id in depById
    requires forall id :: id in out ==> Joined(decisions, deploys, id, out[id])
    ensures IsBatch(decisions, deploys, out)
  {
    forall id ensures BatchEntry(decisions, deploys, out, id) {
      assert id in out ==> Joined(decisions, deploys, id, out[id]);
    }
  }

  // ----- Agreement -----

  /** The view has one row per assignment and environment: its key is environment and
      feature, and an assignment has one feature. */
  ghost predicate OnePerEnvironment(decisions: seq<DecisionSignal>, deploys: seq<DeploySignal>) {
    && (forall i, j :: 0 <= i < j < |decisions| ==>
        decisions[i].assignment != decisions[j].assignment || decisions[i].environment != decisions[j].environment)
    && (forall i, j :: 0 <= i < j < |deploys| ==>
        deploys[i].assignment != deploys[j].assignment || deploys[i].environment != deploys[j].environment)
  }

  lemma {:induction false} DecisionsOfMembers(rows: seq<DecisionSignal>, id: AssignmentId)
    ensures forall d :: d in DecisionsOf(rows, id) <==> d in rows && d.assignment == id
  {
    if rows != [] {
      DecisionsOfMembers(rows[..|rows| - 1], id);
      assert rows == rows[..|rows| - 1] + [rows[|rows| - 1]];
    }
  }

  lemma {:induction false} DeploysOfMembers(rows: seq<DeploySignal>, id: AssignmentId)
    ensures forall d :: d in DeploysOf(rows, id) <==> d in rows && d.assignment == id
  {
    if rows != [] {
      DeploysOfMembers(rows[..|rows| - 1], id);
      assert rows == rows[..|rows| - 1] + [rows[|rows| - 1]];
    }
  }

  lemma {:induction false} DecisionInFound(ds: seq<DecisionSignal>, env: EnvId)
    ensures match DecisionIn(ds, env)
            case None => forall d :: d in ds ==> d.environment != env
            case Some(d) => d in ds && d.environment == env
  {
    if ds != [] {
      DecisionInFound(ds[..|ds| - 1], env);
    }
  }

  lemma {:induction false} DeployInFound(dp: seq<DeploySignal>, env: EnvId)
    ensures match DeployIn(dp, env)
            case None => forall d :: d in dp ==> d.environment != env
            case Some(d) => d in dp && d.environment == env
  {
    if dp != [] {
      DeployInFound(dp[..|dp| - 1], env);
    }
  }

  /** A join is determined by which signal each environment has. */
  lemma {:induction false} JoinUnique(id: AssignmentId, ds: seq<DecisionSignal>, dp: seq<DeploySignal>,
                                      ds': seq<DecisionSignal>, dp': seq<DeploySignal>,
                                      a: seq<ReconcileStatus>, b: seq<ReconcileStatus>)
    requires IsJoin(id, ds, dp, a) && IsJoin(id, ds', dp', b)
    requires forall env :: DecisionIn(ds, env) == DecisionIn(ds', env) && DeployIn(dp, env) == DeployIn(dp', env)
    ensures a == b
  {
    forall env ensures Lists(a, env) <==> Lists(b, env) {
      assert DecisionIn(ds, env) == DecisionIn(ds', env);
    }
    OrderedListUnique(a, b);
    forall i | 0 <= i < |a| ensures a[i] == b[i] {
      assert DecisionIn(ds, a[i].environment) == DecisionIn(ds', a[i].environment);
    }
  }

  lemma {:induction false} OrderedListUnique(a: seq<ReconcileStatus>, b: seq<ReconcileStatus>)
    requires forall i, j :: 0 <= i < j < |a| ==> a[i].environment < a[j].environment
    requires forall i, j :: 0 <= i < j < |b| ==> b[i].environment < b[j].environment
    requires forall env :: Lists(a, env) <==> Lists(b, env)
    ensures |a| == |b| && forall i :: 0 <= i < |a| ==> a[i].environment == b[i].environment
  {
    if a == [] {
      EmptyLists(b);
    } else {
      assert Lists(a, a[0].environment) && Lists(b, a[0].environment);
      assert b != [];
      assert Lists(b, b[0].environment) && Lists(a, b[0].environment);
      assert a[0].environment == b[0].environment;
      forall env ensures Lists(a[1..], env) <==> Lists(b[1..], env) {
        ListsRest(a, env);
        ListsRest(b, env);
      }
      OrderedListUnique(a[1..], b[1..]);
    }
  }

  lemma {:induction false} EmptyLists(r: seq<ReconcileStatus>)
    ensures r == [] || Lists(r, r[0].environment)
  {}

  lemma {:induction false} ListsRest(r: seq<ReconcileStatus>, env: EnvId)
    requires r != [] && forall i, j :: 0 <= i < j < |r| ==> r[i].environment < r[j].environment
    ensures Lists(r[1..], env) <==> Lists(r, env) && env != r[0].environment
  {
    if Lists(r, env) && env != r[0].environment {
      var i :| 0 <= i < |r| && r[i].environment == env;
      assert r[1..][i - 1].environment == env;
    }
  }

  lemma {:induction false} SameSignals(ds: seq<DecisionSignal>, ds': seq<DecisionSignal>, dp: seq<DeploySignal>,
                                       dp': seq<DeploySignal>, env: EnvId)
    requires forall d :: d in ds <==> d in ds'
    requires forall d :: d in dp <==> d in dp'
    requires forall d, e :: d in ds && e in ds && d.environment == e.environment ==> d == e
    requires forall d, e :: d in dp && e in dp && d.environment == e.environment ==> d == e
    ensures DecisionIn(ds, env) == DecisionIn(ds', env) && DeployIn(dp, env) == DeployIn(dp', env)
  {
    DecisionInFound(ds, env);
    DecisionInFound(ds', env);
    DeployInFound(dp, env);
    DeployInFound(dp', env);
  }

  /** Reading one assignment gives the entry that reading all gives, or an empty list
      where reading all gives none; in whatever order the queries return their rows. */
  lemma {:induction false} BatchIsSingle(decisions: seq<DecisionSignal>, deploys: seq<DeploySignal>,
                                         out: map<AssignmentId, seq<ReconcileStatus>>,
                                         id: AssignmentId, ds: seq<DecisionSignal>, dp: seq<DeploySignal>,
                                         single: seq<ReconcileStatus>)
    requires OnePerEnvironment(decisions, deploys) && IsBatch(decisions, deploys, out)
    requires forall d :: d in ds <==> d in decisions && d.assignment == id
    requires forall d :: d in dp <==> d in deploys && d.assignment == id
    requires IsJoin(id, ds, dp, single)
    ensures single == if id in out then out[id] else []
    ensures id in out <==> single != []
  {
    var ds', dp' := DecisionsOf(decisions, id), DeploysOf(deploys, id);
    DecisionsOfMembers(decisions, id);
    DeploysOfMembers(deploys, id);
    assert BatchEntry(decisions, deploys, out, id);
    forall env ensures DecisionIn(ds, env) == DecisionIn(ds', env) && DeployIn(dp, env) == DeployIn(dp', env) {
      SameSignals(ds, ds', dp, dp', env);
    }
    JoinEmpty(id, ds, dp, single);
    EmptyTogether(ds, ds');
    EmptyTogether(dp, dp');
    if id in out {
      JoinUnique(id, ds, dp, ds', dp', single, out[id]);
    }
  }

  lemma {:induction false} JoinEmpty(id: AssignmentId, ds: seq<DecisionSignal>, dp: seq<DeploySignal>,
                                     r: seq<ReconcileStatus>)
    requires IsJoin(id, ds, dp, r)
    ensures r == [] <==> ds == [] && dp == []
  {
    if ds != [] {
      assert DecisionIn(ds, ds[|ds| - 1].environment).Some?;
    }
    if dp != [] {
      assert DeployIn(dp, dp[|dp| - 1].environment).Some?;
    }
    if r != [] {
      assert Lists(r, r[0].environment);
    }
  }

  /** The ladder, read from the top: disabled; a deploy in progress; a blocked decision; a
      finished deploy; and only then what the decision alone says. */
  lemma {:induction false} StateMeaning(deploy: DeployStatus, action: Option<Action>)
    ensures var (state, source) := DeriveState(deploy, action);
            var enabled := action != Some(ActionSkipDisabled);
            var blocked := action in {Some(ActionSkipUnhealthy), Some(ActionFailMissingDeps),
                                      Some(ActionFailMissingConfig), Some(ActionFailRender)};
            var settled := enabled && !IsInProgress(deploy);
            var alone := settled && !blocked && deploy != Deployed && deploy != Failed;
            && (state == Disabled <==> !enabled)
            && (state == SentState <==> enabled && deploy == Sent)
            && (state == InstallingState <==> enabled && deploy == Installing)
            && (state == Unhealthy <==> settled && action == Some(ActionSkipUnhealthy))
            && (state == MissingDeps <==> settled && action == Some(ActionFailMissingDeps))
            && (state == MissingConfig <==> settled && action == Some(ActionFailMissingConfig))
            && (state == RenderError <==> settled && action == Some(ActionFailRender))
            && (state == FailedState <==> settled && !blocked && deploy == Failed)
            && (state == DeployedState <==>
                (settled && !blocked && deploy == Deployed) || (alone && action == Some(ActionSkipUnchanged)))
            && (state == Pending <==> alone && (action == Some(ActionDeploy) || action == Some(ActionSkipInProgress)))
            && (state == UnknownState <==> alone && action == None)
            && (source == FromDeploy <==>
                enabled && (IsInProgress(deploy) || (!blocked && (deploy == Deployed || deploy == Failed))))
  {}

  /** The displayed time is that of the row the state came from: deploy-owned states have
      a deploy row, and only a status neither log explains has no time at all. */
  lemma {:induction false} TimeFromItsLog(id: AssignmentId, env: EnvId, decision: Option<DecisionSignal>,
                                          deploy: Option<DeploySignal>)
    ensures var r := StatusOf(id, env, decision, deploy);
            var owned := deploy.Some? && (IsInProgress(deploy.value.status) || deploy.value.status == Deployed ||
                                          deploy.value.status == Failed);
            var action := if decision.Some? then decision.value.action else None;
            var blocked := action in {Some(ActionSkipUnhealthy), Some(ActionFailMissingDeps),
                                      Some(ActionFailMissingConfig), Some(ActionFailRender)};
            var fromDeploy := owned && action != Some(ActionSkipDisabled) &&
              (blocked ==> IsInProgress(deploy.value.status));
            && (fromDeploy ==> r.lastModified == deploy.value.created)
            && (!fromDeploy && decision.Some? ==> r.lastModified == decision.value.created)
            && r.created == r.lastModified
            && (decision.Some? ==> r.message == decision.value.message && r.decidedAt == decision.value.created)
            && (!fromDeploy && decision.None? ==> r.state == UnknownState && r.lastModified == -62135596800)
            && (r.state in {SentState, InstallingState, FailedState} ==> fromDeploy)
            && (r.state == DeployedState && !fromDeploy ==> action == Some(ActionSkipUnchanged))
  {}

  /** The environment's last signal in the list, if there is one. */
  predicate IsLastDecision(ds: seq<DecisionSignal>, env: EnvId, d: Option<DecisionSignal>) {
    match d
    case None => forall i :: 0 <= i < |ds| ==> ds[i].environment != env
    case Some(x) => x.environment == env && exists i ::
      0 <= i < |ds| && ds[i] == x && forall j :: i < j < |ds| ==> ds[j].environment != env
  }

  predicate IsLastDeploy(dp: seq<DeploySignal>, env: EnvId, d: Option<DeploySignal>) {
    match d
    case None => forall i :: 0 <= i < |dp| ==> dp[i].environment != env
    case Some(x) => x.environment == env && exists i ::
      0 <= i < |dp| && dp[i] == x && forall j :: i < j < |dp| ==> dp[j].environment != env
  }

  lemma {:induction false} DecisionInIsLast(ds: seq<DecisionSignal>, env: EnvId)
    ensures IsLastDecision(ds, env, DecisionIn(ds, env))
  {
    if ds != [] && ds[|ds| - 1].environment != env {
      var n := |ds| - 1;
      DecisionInIsLast(ds[..n], env);
      if DecisionIn(ds[..n], env).Some? {
        var i :|
          0 <= i < n && ds[..n][i] == DecisionIn(ds, env).value && forall j :: i < j < n ==>
            ds[..n][j].environment != env;
        assert ds[i] == DecisionIn(ds, env).value;
        assert forall j :: i < j < n ==> ds[j] == ds[..n][j];
      } else {
        assert forall j :: 0 <= j < n ==> ds[j] == ds[..n][j];
      }
    }
  }

  lemma {:induction false} DeployInIsLast(dp: seq<DeploySignal>, env: EnvId)
    ensures IsLastDeploy(dp, env, DeployIn(dp, env))
  {
    if dp != [] && dp[|dp| - 1].environment != env {
      var n := |dp| - 1;
      DeployInIsLast(dp[..n], env);
      if DeployIn(dp[..n], env).Some? {
        var i :|
          0 <= i < n && dp[..n][i] == DeployIn(dp, env).value && forall j :: i < j < n ==>
            dp[..n][j].environment != env;
        assert dp[i] == DeployIn(dp, env).value;
        assert forall j :: i < j < n ==> dp[j] == dp[..n][j];
      } else {
        assert forall j :: 0 <= j < n ==> dp[j] == dp[..n][j];
      }
    }
  }

  /** An entry of a join: its environment's last signals, its own names, and the decision's
      message and time; its state and time are StateMeaning's and TimeFromItsLog's. */
  lemma {:induction false} JoinEntry(id: AssignmentId, ds: seq<DecisionSignal>, dp: seq<DeploySignal>,
                                     r: seq<ReconcileStatus>, i: nat)
    returns (decision: Option<DecisionSignal>, deploy: Option<DeploySignal>)
    requires IsJoin(id, ds, dp, r) && i < |r|
    ensures IsLastDecision(ds, r[i].environment, decision) && IsLastDeploy(dp, r[i].environment, deploy)
    ensures decision.Some? || deploy.Some?
    ensures r[i].assignment == id
    ensures r[i].message == (if decision.Some? then decision.value.message else "")
    ensures decision.Some? ==> r[i].decidedAt == decision.value.created
    ensures r[i].state == DeriveState(if deploy.Some? then deploy.value.status else Unknown,
                                      if decision.Some? then decision.value.action else None).0
    ensures forall j :: 0 <= j < i ==> r[j].environment < r[i].environment
  {
    var env := r[i].environment;
    DecisionInIsLast(ds, env);
    DeployInIsLast(dp, env);
    decision, deploy := DecisionIn(ds, env), DeployIn(dp, env);
    assert Lists(r, env);
  }
}
