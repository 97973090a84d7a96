/** The deploy log: one row per status of a deploy, appended by the deployer, by the
    agents' status messages and by the timeout. */
module DeployLog {
  import opened Basics
  import opened Model
  import opened Compute
  import opened Tree

  type Diid = nat

  datatype DeployRow = DeployRow(
    diid: Diid,
    environment: EnvId,
    assignment: AssignmentId,
    feature: string,
    version: string,
    status: DeployStatus,
    hash: string,
    created: int)

  const DEPLOY_TIMEOUT := 3600 // one hour, in seconds

  function PairOf(r: DeployRow): Pair {
    Pair(r.environment, r.feature)
  }

  /** The deploy_status view: the last row of each pair. */
  function Latest(log: seq<DeployRow>, p: Pair): Option<DeployRow> {
    if log == [] then None
    else
      var n := |log| - 1;
      if PairOf(log[n]) == p then Some(log[n]) else Latest(log[..n], p)
  }

  function LatestOfDiid(log: seq<DeployRow>, d: Diid): Option<DeployRow> {
    if log == [] then None
    else
      var n := |log| - 1;
      if log[n].diid == d then Some(log[n]) else LatestOfDiid(log[..n], d)
  }

  function FirstOfDiid(log: seq<DeployRow>, d: Diid): Option<DeployRow> {
    if log == [] then None
    else
      var n := |log| - 1;
      var before := FirstOfDiid(log[..n], d);
      if before.None? && log[n].diid == d then Some(log[n]) else before
  }

  function SentRow(d: Decision, diid: Diid, now: int): DeployRow {
    DeployRow(diid, d.environment, d.assignment, d.feature.name, d.feature.version, Sent, d.hash, now)
  }

  /** The rows of a Deploy call: deploy decisions whose instruction was published.
      Decision i has identifier uuids[i]. */
  function SentRows(decisions: seq<Decision>, uuids: seq<Diid>, accepted: set<Diid>, now: int): seq<DeployRow>
    requires |decisions| <= |uuids|
  {
    if decisions == [] then []
    else
      var n := |decisions| - 1;
      SentRows(decisions[..n], uuids, accepted, now) +
      if decisions[n].action == ActionDeploy && uuids[n] in accepted then [SentRow(decisions[n], uuids[n], now)] else []
  }

  /** What a helm status message appends. */
  function StatusRows(log: seq<DeployRow>, known: set<EnvId>, d: Diid, status: DeployStatus, now: int): seq<DeployRow> {
    match LatestOfDiid(log, d)
    case None => []
    case Some(deploy) => if deploy.environment in known then [deploy.(status := status, created := now)] else []
  }

  predicate Stale(latest: Option<DeployRow>, now: int) {
    latest.Some? && IsInProgress(latest.value.status) && latest.value.created < now - DEPLOY_TIMEOUT
  }

  /** The rows the timeout inserts, in the unspecified order of its SELECT. */
  ghost predicate IsTimeout(log: seq<DeployRow>, now: int, rows: seq<DeployRow>) {
    && (forall i, j :: 0 <= i < j < |rows| ==> PairOf(rows[i]) != PairOf(rows[j]))
    && (forall i :: 0 <= i < |rows| ==> TimesOut(log, now, rows[i]))
    && (forall p :: Stale(Latest(log, p), now) ==> exists r :: r in rows && PairOf(r) == p)
  }

  predicate TimesOut(log: seq<DeployRow>, now: int, r: DeployRow) {
    var latest := Latest(log, PairOf(r));
    Stale(latest, now) && r == latest.value.(status := Failed, created := now)
  }

  // ----- The table -----

  ghost predicate IsCurrent(log: seq<DeployRow>, current: map<Pair, DeployRow>) {
    forall p :: Latest(log, p) == if p in current then Some(current[p]) else None
  }

  ghost predicate ShowsLatest(log: seq<DeployRow>, latest: map<EnvId, map<string, Instruction>>) {
    forall e: EnvId, f :: ShownInstruction(latest, e, f) == InstructionOf(Latest(log, Pair(e, f)))
  }

  function ShownInstruction(latest: map<EnvId, map<string, Instruction>>, e: EnvId, f: string): Option<Instruction> {
    if e in latest && f in latest[e] then Some(latest[e][f]) else None
  }

  function InstructionOf(r: Option<DeployRow>): Option<Instruction> {
    if r.Some? then Some(Instruction(r.value.hash, r.value.status)) else None
  }

  ghost predicate ShowsDeployed(log: seq<DeployRow>, deployed: map<EnvId, set<string>>) {
    forall e: EnvId, f :: (e in deployed && f in deployed[e]) <==> IsDeployed(log, Pair(e, f))
  }

  predicate IsDeployed(log: seq<DeployRow>, p: Pair) {
    Latest(log, p).Some? && Latest(log, p).value.status == Deployed
  }

  predicate AllEncode(decisions: seq<Decision>, encodes: Option<Object> -> bool) {
    forall d :: d in decisions && d.action == ActionDeploy ==> encodes(d.values)
  }

  /** deploy_log with deploy_current, which a trigger maintains. */
  class DeployTable {
    var log: seq<DeployRow>
    var current: map<Pair, DeployRow>

    ghost predicate Valid()
      reads this
    {
      IsCurrent(log, current)
    }

    constructor ()
      ensures Valid() && log == []
    {
      log, current := [], map[];
    }

    method AppendDeploys(rows: seq<DeployRow>)
      requires Valid()
      modifies this
      ensures Valid() && log == old(log) + rows
    {
      for i := 0 to |rows|
        invariant Valid() && log == old(log) + rows[..i]
      {
        var row := rows[i];
        assert rows[..i + 1] == rows[..i] + [row];
        assert (log + [row])[..|log|] == log;
        log := log + [row];
        current := current[PairOf(row) := row];
      }
    }

    /** The rows of the view; their order does not matter to the readers. */
    method ListLatestDeploys() returns (rows: seq<DeployRow>)
      requires Valid()
      ensures forall i, j :: 0 <= i < j < |rows| ==> PairOf(rows[i]) != PairOf(rows[j])
      ensures forall r :: r in rows <==> Latest(log, PairOf(r)) == Some(r)
    {
      var pairs := RangeKeys(current.Keys);
      rows := [];
      for i := 0 to |pairs|
        invariant |rows| == i && forall k :: 0 <= k < i ==>
                  pairs[k] in current && rows[k] == current[pairs[k]] && PairOf(rows[k]) == pairs[k]
      {
        assert pairs[i] in current.Keys;
        LatestFound(log, pairs[i]);
        rows := rows + [current[pairs[i]]];
      }
      forall r ensures r in rows <==> Latest(log, PairOf(r)) == Some(r) {
        if Latest(log, PairOf(r)) == Some(r) {
          assert PairOf(r) in pairs;
          var k :| 0 <= k < |pairs| && pairs[k] == PairOf(r);
          assert rows[k] == r;
        }
      }
    }

    /** The snapshot's latest instructions and deployed features. */
    method FetchDeploys() returns (latest: map<EnvId, map<string, Instruction>>, deployed: map<EnvId, set<string>>)
      requires Valid()
      ensures ShowsLatest(log, latest) && ShowsDeployed(log, deployed)
    {
      var rows := ListLatestDeploys();
      ListedIsLatest(log, rows);
      latest := LatestByEnvironment(rows);
      deployed := DeployedByEnvironment(rows);
    }

    /** LatestDeployByDIID: newest row first. */
    method LatestDeployByDIID(d: Diid) returns (r: Option<DeployRow>)
      ensures r == LatestOfDiid(log, d)
    {
      var i := |log|;
      assert log[..i] == log;
      while i > 0
        invariant 0 <= i <= |log| && LatestOfDiid(log, d) == LatestOfDiid(log[..i], d)
      {
        i := i - 1;
        assert log[..i + 1][..i] == log[..i];
        if log[i].diid == d {
          return Some(log[i]);
        }
      }
      return None;
    }

    method HandlerHelm(known: set<EnvId>, d: Diid, status: DeployStatus, now: int)
      requires Valid()
      modifies this
      ensures Valid() && log == old(log) + StatusRows(old(log), known, d, status, now)
    {
      var deploy := LatestDeployByDIID(d);
      if deploy.None? {
        return;
      }
      if deploy.value.environment !in known {
        return;
      }
      AppendDeploys([DeployRow(d, deploy.value.environment, deploy.value.assignment, deploy.value.feature,
                               deploy.value.version,
                               status, deploy.value.hash, now)]);
      LatestOfDiidFound(old(log), d);
    }

    /** Publish each deploy decision, then write a row for each that was published. A
        decision whose values cannot be encoded ends the call before any is published;
        `stored` is whether the write succeeds. */
    method Deploy(decisions: seq<Decision>, uuids: seq<Diid>, encodes: Option<Object> -> bool, accepted: set<Diid>,
                  stored: bool, now: int)
      returns (ok: bool, published: seq<(Diid, Decision)>)
      requires Valid() && |decisions| <= |uuids|
      modifies this
      ensures Valid()
      ensures published == if AllEncode(decisions, encodes) then Instructions(decisions, uuids) else []
      ensures (exists d :: d in decisions && d.action == ActionDeploy && !encodes(d.values)) ==>
                !ok && published == [] && log == old(log)
      ensures (forall d :: d in decisions && d.action == ActionDeploy ==> encodes(d.values)) ==>
                published == Instructions(decisions, uuids)
      ensures var rows := if AllEncode(decisions, encodes) then SentRows(decisions, uuids, accepted, now) else [];
              && ok == (AllEncode(decisions, encodes) && (stored || rows == []))
              && log == if stored then old(log) + rows else old(log)
    {
      var toPublish: seq<(Diid, Decision)> := [];
      for i := 0 to |decisions|
        invariant toPublish == Instructions(decisions[..i], uuids)
        invariant AllEncode(decisions[..i], encodes)
      {
        assert decisions[..i + 1] == decisions[..i] + [decisions[i]];
        assert decisions[..i + 1][..i] == decisions[..i];
        if decisions[i].action != ActionDeploy {
          continue;
        }
        if !encodes(decisions[i].values) {
          assert decisions[i] in decisions;
          return false, [];
        }
        toPublish := toPublish + [(uuids[i], decisions[i])];
      }
      assert decisions[..|decisions|] == decisions;
      published := toPublish;
      var deployRows: seq<DeployRow> := [];
      for i := 0 to |toPublish|
        invariant deployRows == PublishedRows(toPublish[..i], accepted, now)
      {
        assert toPublish[..i + 1][..i] == toPublish[..i];
        if toPublish[i].0 !in accepted {
          continue;
        }
        deployRows := deployRows + [SentRow(toPublish[i].1, toPublish[i].0, now)];
      }
      assert toPublish[..|toPublish|] == toPublish;
      PublishedAreSent(decisions, uuids, accepted, now);
      ok := true;
      if |deployRows| > 0 {
        if !stored {
          return false, published;
        }
        AppendDeploys(deployRows);
      }
    }

    method TimeoutPendingDeploys(now: int)
      requires Valid()
      modifies this
      ensures Valid() && old(log) <= log && IsTimeout(old(log), now, log[|old(log)|..])
    {
      var rows := ListLatestDeploys();
      var failed: seq<DeployRow> := [];
      for i := 0 to |rows|
        invariant failed == StaleFailed(rows[..i], now)
      {
        assert rows[..i + 1][..i] == rows[..i];
        var row := rows[i];
        if IsInProgress(row.status) && row.created < now - DEPLOY_TIMEOUT {
          failed := failed + [row.(status := Failed, created := now)];
        }
      }
      assert rows[..|rows|] == rows;
      StaleFailedIsTimeout(log, rows, now);
      AppendDeploys(failed);
      assert log[|old(log)|..] == failed;
    }
  }

  ghost function Instructions(decisions: seq<Decision>, uuids: seq<Diid>): seq<(Diid, Decision)>
    requires |decisions| <= |uuids|
  {
    if decisions == [] then []
    else
      var n := |decisions| - 1;
      Instructions(decisions[..n], uuids) +
      if decisions[n].action == ActionDeploy then [(uuids[n], decisions[n])] else []
  }

  ghost function PublishedRows(items: seq<(Diid, Decision)>, accepted: set<Diid>, now: int): seq<DeployRow> {
    if items == [] then []
    else
      var n := |items| - 1;
      PublishedRows(items[..n], accepted, now) +
      if items[n].0 in accepted then [SentRow(items[n].1, items[n].0, now)] else []
  }

  lemma {:induction false} PublishedAreSent(decisions: seq<Decision>, uuids: seq<Diid>, accepted: set<Diid>, now: int)
    requires |decisions| <= |uuids|
    ensures PublishedRows(Instructions(decisions, uuids), accepted, now) == SentRows(decisions, uuids, accepted, now)
  {
    if decisions != [] {
      var n := |decisions| - 1;
      PublishedAreSent(decisions[..n], uuids, accepted, now);
      var all := Instructions(decisions, uuids);
      if decisions[n].action == ActionDeploy {
        assert all[..|all| - 1] == Instructions(decisions[..n], uuids) && all[|all| - 1] == (uuids[n], decisions[n]);
      } else {
        assert all == Instructions(decisions[..n], uuids);
      }
    }
  }

  ghost function StaleFailed(rows: seq<DeployRow>, now: int): seq<DeployRow> {
    if rows == [] then []
    else
      var n := |rows| - 1;
      StaleFailed(rows[..n], now) +
      if Stale(Some(rows[n]), now) then [rows[n].(status := Failed, created := now)] else []
  }

  lemma {:induction false} StaleFailedRows(rows: seq<DeployRow>, now: int)
    ensures forall r :: r in StaleFailed(rows, now) <==> FromStale(rows, now, r)
  {
    if rows != [] {
      var n := |rows| - 1;
      StaleFailedRows(rows[..n], now);
      forall r ensures FromStale(rows, now, r) <==> FromStale(rows[..n], now, r) || FailedFrom(rows, now, rows[n], r) {
        if FromStale(rows, now, r) {
          var o :| FailedFrom(rows, now, o, r);
          assert o == rows[n] || FailedFrom(rows[..n], now, o, r);
        }
        if FromStale(rows[..n], now, r) {
          var o :| FailedFrom(rows[..n], now, o, r);
          assert FailedFrom(rows, now, o, r);
        }
      }
      assert StaleFailed(rows, now) == StaleFailed(rows[..n], now) +
        if Stale(Some(rows[n]), now) then [rows[n].(status := Failed, created := now)] else [];
    }
  }

  lemma {:induction false} StaleFailedPairs(rows: seq<DeployRow>, now: int)
    requires forall i, j :: 0 <= i < j < |rows| ==> PairOf(rows[i]) != PairOf(rows[j])
    ensures forall i, j :: 0 <= i < j < |StaleFailed(rows, now)| ==>
            PairOf(StaleFailed(rows, now)[i]) != PairOf(StaleFailed(rows, now)[j])
  {
    if rows != [] {
      var n := |rows| - 1;
      var before := StaleFailed(rows[..n], now);
      StaleFailedPairs(rows[..n], now);
      StaleFailedRows(rows[..n], now);
      forall k | 0 <= k < |before| ensures PairOf(before[k]) != PairOf(rows[n]) {
        assert before[k] in before && FromStale(rows[..n], now, before[k]);
        var o :| FailedFrom(rows[..n], now, o, before[k]);
        var j :| 0 <= j < n && rows[j] == o;
      }
      var after := StaleFailed(rows, now);
      assert after == before || after == before + [rows[n].(status := Failed, created := now)];
    }
  }

  ghost predicate FromStale(rows: seq<DeployRow>, now: int, r: DeployRow) {
    exists o :: FailedFrom(rows, now, o, r)
  }

  ghost predicate FailedFrom(rows: seq<DeployRow>, now: int, o: DeployRow, r: DeployRow) {
    o in rows && Stale(Some(o), now) && r == o.(status := Failed, created := now)
  }

  lemma {:induction false} StaleFailedIsTimeout(log: seq<DeployRow>, rows: seq<DeployRow>, now: int)
    requires forall i, j :: 0 <= i < j < |rows| ==> PairOf(rows[i]) != PairOf(rows[j])
    requires forall r :: r in rows <==> Latest(log, PairOf(r)) == Some(r)
    ensures IsTimeout(log, now, StaleFailed(rows, now))
  {
    var failed := StaleFailed(rows, now);
    StaleFailedRows(rows, now);
    StaleFailedPairs(rows, now);
    forall i | 0 <= i < |failed| ensures TimesOut(log, now, failed[i]) {
      assert failed[i] in failed && FromStale(rows, now, failed[i]);
      var o :| FailedFrom(rows, now, o, failed[i]);
    }
    forall p | Stale(Latest(log, p), now) ensures exists r :: r in failed && PairOf(r) == p {
      LatestFound(log, p);
      var o := Latest(log, p).value;
      var r := o.(status := Failed, created := now);
      assert FailedFrom(rows, now, o, r) && FromStale(rows, now, r);
      assert r in failed;
    }
  }

  lemma {:induction false} LatestStep(rows: seq<DeployRow>, i: nat)
    requires i < |rows|
    ensures forall p :: Latest(rows[..i + 1], p) == if PairOf(rows[i]) == p then Some(rows[i]) else Latest(rows[..i], p)
  {
    assert rows[..i + 1] == rows[..i] + [rows[i]];
    Appended(rows[..i], rows[i]);
  }

  /** A list of the view's rows shows the same as the log. */
  lemma {:induction false} ListedIsLatest(log: seq<DeployRow>, rows: seq<DeployRow>)
    requires forall r :: r in rows <==> Latest(log, PairOf(r)) == Some(r)
    ensures forall p :: Latest(rows, p) == Latest(log, p)
  {
    forall p ensures Latest(rows, p) == Latest(log, p) {
      LatestFound(log, p);
      LatestFound(rows, p);
      if Latest(log, p).Some? {
        assert Latest(log, p).value in rows;
      }
    }
  }

  method LatestByEnvironment(rows: seq<DeployRow>) returns (latest: map<EnvId, map<string, Instruction>>)
    ensures ShowsLatest(rows, latest)
  {
    latest := map[];
    for i := 0 to |rows|
      invariant ShowsLatest(rows[..i], latest)
    {
      LatestStep(rows, i);
      var row := rows[i];
      ghost var before := latest;
      if row.environment !in latest {
        latest := latest[row.environment := map[]];
      }
      latest := latest[row.environment := latest[row.environment][row.feature := Instruction(row.hash, row.status)]];
      forall e: EnvId, f ensures ShownInstruction(latest, e, f) == InstructionOf(Latest(rows[..i + 1], Pair(e, f))) {
        assert ShownInstruction(before, e, f) == InstructionOf(Latest(rows[..i], Pair(e, f)));
      }
    }
    assert rows[..|rows|] == rows;
  }

  method DeployedByEnvironment(rows: seq<DeployRow>) returns (deployed: map<EnvId, set<string>>)
    requires forall i, j :: 0 <= i < j < |rows| ==> PairOf(rows[i]) != PairOf(rows[j])
    ensures ShowsDeployed(rows, deployed)
  {
    deployed := map[];
    for i := 0 to |rows|
      invariant ShowsDeployed(rows[..i], deployed)
    {
      LatestStep(rows, i);
      var row := rows[i];
      ghost var before := deployed;
      LatestFound(rows[..i], PairOf(row));
      if row.status == Deployed {
        if row.environment !in deployed {
          deployed := deployed[row.environment := {}];
        }
        deployed := deployed[row.environment := deployed[row.environment] + {row.feature}];
      }
      forall e: EnvId, f ensures (e in deployed && f in deployed[e]) <==> IsDeployed(rows[..i + 1], Pair(e, f)) {
        assert (e in before && f in before[e]) <==> IsDeployed(rows[..i], Pair(e, f));
      }
    }
    assert rows[..|rows|] == rows;
  }

  ghost predicate Published(decisions: seq<Decision>, uuids: seq<Diid>, accepted: set<Diid>, now: int, i: nat,
                            r: DeployRow)
    requires |decisions| <= |uuids|
  {
    && i < |decisions| && decisions[i].action == ActionDeploy && uuids[i] in accepted
    && r.diid == uuids[i] && PairOf(r) == Pair(decisions[i].environment, decisions[i].feature.name)
    && r.assignment == decisions[i].assignment && r.version == decisions[i].feature.version &&
      r.hash == decisions[i].hash
    && r.status == Sent && r.created == now
  }

  /** The rows written are those of the deploy decisions whose publish succeeded: each
      sent, under its identifier, with the decision's pair, assignment, version and hash. */
  lemma {:induction false} SentExactly(decisions: seq<Decision>, uuids: seq<Diid>, accepted: set<Diid>, now: int,
                                       r: DeployRow)
    requires |decisions| <= |uuids|
    ensures r in SentRows(decisions, uuids, accepted, now) <==>
            exists i :: Published(decisions, uuids, accepted, now, i, r)
  {
    if decisions != [] {
      var n := |decisions| - 1;
      var before := decisions[..n];
      SentExactly(before, uuids, accepted, now, r);
      if r in SentRows(before, uuids, accepted, now) {
        var i :| Published(before, uuids, accepted, now, i, r);
        assert Published(decisions, uuids, accepted, now, i, r);
      } else if r in SentRows(decisions, uuids, accepted, now) {
        assert Published(decisions, uuids, accepted, now, n, r);
      }
      if i :| Published(decisions, uuids, accepted, now, i, r) {
        assert i == n || Published(before, uuids, accepted, now, i, r);
      }
    }
  }

  /** Which rows are written, one by one: those of the published deploy decisions, in the
      order of the decisions. */
  lemma {:induction false} SentInOrder(decisions: seq<Decision>, uuids: seq<Diid>, accepted: set<Diid>, now: int)
    returns (which: seq<nat>)
    requires |decisions| <= |uuids|
    ensures var rows := SentRows(decisions, uuids, accepted, now);
            |which| == |rows| &&
            forall k :: 0 <= k < |which| ==> Published(decisions, uuids, accepted, now, which[k], rows[k])
    ensures forall k, l :: 0 <= k < l < |which| ==> which[k] < which[l]
  {
    if decisions == [] {
      which := [];
    } else {
      var n := |decisions| - 1;
      var earlier := SentInOrder(decisions[..n], uuids, accepted, now);
      which := earlier + if decisions[n].action == ActionDeploy && uuids[n] in accepted then [n] else [];
    }
  }

  /** Which decisions are published: the deploy decisions, each under its identifier, in
      their order. */
  lemma {:induction false} PublishedInOrder(decisions: seq<Decision>, uuids: seq<Diid>) returns (which: seq<nat>)
    requires |decisions| <= |uuids|
    ensures |which| == |Instructions(decisions, uuids)|
    ensures forall k :: 0 <= k < |which| ==>
              which[k] < |decisions| && Instructions(decisions, uuids)[k] == (uuids[which[k]], decisions[which[k]])
    ensures forall k, l :: 0 <= k < l < |which| ==> which[k] < which[l]
    ensures forall i: nat :: i in which <==> i < |decisions| && decisions[i].action == ActionDeploy
  {
    if decisions == [] {
      which := [];
    } else {
      var n := |decisions| - 1;
      var earlier := PublishedInOrder(decisions[..n], uuids);
      which := earlier + if decisions[n].action == ActionDeploy then [n] else [];
      forall i: nat ensures i in which <==> i < |decisions| && decisions[i].action == ActionDeploy {
        assert i in earlier <==> i < n && decisions[..n][i].action == ActionDeploy;
      }
    }
  }

  // ----- The view and its uses, by position in the log -----

  /** The last row of an environment and feature. */
  predicate LastOfPair(log: seq<DeployRow>, i: nat) {
    i < |log| && forall j :: i < j < |log| ==>
      !(log[j].environment == log[i].environment && log[j].feature == log[i].feature)
  }

  lemma {:induction false} StillLastOfPair(log: seq<DeployRow>, i: nat)
    requires log != [] && LastOfPair(log[..|log| - 1], i) && PairOf(log[|log| - 1]) != PairOf(log[i])
    ensures LastOfPair(log, i)
  {
    var n := |log| - 1;
    forall j | i < j < |log| ensures PairOf(log[j]) != PairOf(log[i]) {
      assert j < n ==> log[..n][j] == log[j];
    }
  }

  predicate OfPair(r: DeployRow, p: Pair) {
    r.environment == p.environment && r.feature == p.feature
  }

  lemma {:induction false} LatestByIndex(log: seq<DeployRow>, p: Pair)
    ensures match Latest(log, p)
            case None => forall i :: 0 <= i < |log| ==> !OfPair(log[i], p)
            case Some(r) => OfPair(r, p) && exists i: nat :: LastOfPair(log, i) && log[i] == r
  {
    if log != [] {
      var n := |log| - 1;
      LatestByIndex(log[..n], p);
      if PairOf(log[n]) == p {
        assert LastOfPair(log, n);
      } else if Latest(log[..n], p).Some? {
        var i: nat :| LastOfPair(log[..n], i) && log[..n][i] == Latest(log[..n], p).value;
        StillLastOfPair(log, i);
      }
    }
  }

  lemma {:induction false} LastIsLatest(log: seq<DeployRow>, i: nat)
    requires LastOfPair(log, i)
    ensures Latest(log, Pair(log[i].environment, log[i].feature)) == Some(log[i])
  {
    LatestByIndex(log, PairOf(log[i]));
  }

  /** What the snapshot is told about the deploys: of each environment and feature the hash
      and status of the last row. */
  lemma {:induction false} FetchedExactly(log: seq<DeployRow>, latest: map<EnvId, map<string, Instruction>>, e: EnvId,
                                          f: string)
    requires ShowsLatest(log, latest)
    ensures e in latest && f in latest[e] <==>
            exists i: nat :: LastOfPair(log, i) && OfPair(log[i], Pair(e, f))
    ensures forall i: nat :: LastOfPair(log, i) && OfPair(log[i], Pair(e, f)) && e in latest && f in latest[e] ==>
              latest[e][f].hash == log[i].hash && latest[e][f].status == log[i].status
  {
    assert ShownInstruction(latest, e, f) == InstructionOf(Latest(log, Pair(e, f)));
    LatestByIndex(log, Pair(e, f));
    forall i: nat | LastOfPair(log, i) && OfPair(log[i], Pair(e, f)) ensures Latest(log, Pair(e, f)) == Some(log[i]) {
      LastIsLatest(log, i);
    }
  }

  /** And as deployed it is told those whose last row says so. */
  lemma {:induction false} FetchedDeployedExactly(log: seq<DeployRow>, deployed: map<EnvId, set<string>>, e: EnvId,
                                                  f: string)
    requires ShowsDeployed(log, deployed)
    ensures e in deployed && f in deployed[e] <==>
            exists i: nat :: LastOfPair(log, i) && OfPair(log[i], Pair(e, f)) && log[i].status == Deployed
  {
    LatestByIndex(log, Pair(e, f));
    assert (e in deployed && f in deployed[e]) <==> IsDeployed(log, Pair(e, f));
    forall i: nat | LastOfPair(log, i) && OfPair(log[i], Pair(e, f)) ensures Latest(log, Pair(e, f)) == Some(log[i]) {
      LastIsLatest(log, i);
    }
  }

  /** The last row of a deploy. */
  predicate LastOfDeploy(log: seq<DeployRow>, i: nat) {
    i < |log| && forall j :: i < j < |log| ==> log[j].diid != log[i].diid
  }

  lemma {:induction false} LatestOfDiidByIndex(log: seq<DeployRow>, d: Diid)
    ensures match LatestOfDiid(log, d)
            case None => forall i :: 0 <= i < |log| ==> log[i].diid != d
            case Some(r) => r.diid == d && exists i: nat :: LastOfDeploy(log, i) && log[i] == r
  {
    if log != [] {
      var n := |log| - 1;
      LatestOfDiidByIndex(log[..n], d);
      if log[n].diid == d {
        assert LastOfDeploy(log, n);
      } else if LatestOfDiid(log[..n], d).Some? {
        var i: nat :| LastOfDeploy(log[..n], i) && log[..n][i] == LatestOfDiid(log[..n], d).value;
        forall j | i < j < |log| ensures log[j].diid != log[i].diid {
          assert j < n ==> log[..n][j] == log[j];
        }
      }
    }
  }

  /** The row continues another one of the same deploy: only its status and time are new. */
  predicate Continues(r: DeployRow, o: DeployRow, status: DeployStatus, now: int) {
    && r.diid == o.diid && r.environment == o.environment && r.assignment == o.assignment
    && r.feature == o.feature && r.version == o.version && r.hash == o.hash
    && r.status == status && r.created == now
  }

  /** What a status message appends: one row that continues the deploy's last row, or
      nothing where the deploy or its environment is not known. */
  lemma {:induction false} StatusExactly(log: seq<DeployRow>, known: set<EnvId>, d: Diid, status: DeployStatus,
                                         now: int)
    ensures var rows := StatusRows(log, known, d, status, now);
            if exists i: nat :: LastOfDeploy(log, i) && log[i].diid == d && log[i].environment in known
            then |rows| == 1 && exists i: nat ::
              LastOfDeploy(log, i) && log[i].diid == d && Continues(rows[0], log[i], status, now)
            else rows == []
  {
    LatestOfDiidByIndex(log, d);
    forall i: nat, j: nat | LastOfDeploy(log, i) && LastOfDeploy(log, j) && log[i].diid == log[j].diid ensures i == j {
    }
  }

  /** The deploy has been sent or installing for more than an hour. */
  predicate Overdue(r: DeployRow, now: int) {
    (r.status == Sent || r.status == Installing) && now - r.created > 60 * 60
  }

  /** What a timeout inserts: for each environment and feature whose last row is overdue, one
      row that continues it as failed, and nothing else. */
  lemma {:induction false} TimeoutExactly(log: seq<DeployRow>, now: int, rows: seq<DeployRow>)
    requires IsTimeout(log, now, rows)
    ensures forall r :: r in rows ==> exists i: nat ::
              LastOfPair(log, i) && Overdue(log[i], now) && Continues(r, log[i], Failed, now)
    ensures forall i: nat :: LastOfPair(log, i) && Overdue(log[i], now) ==>
              exists r :: r in rows && Continues(r, log[i], Failed, now)
    ensures forall k, l :: 0 <= k < l < |rows| ==>
              rows[k].environment != rows[l].environment || rows[k].feature != rows[l].feature
  {
    forall r | r in rows
      ensures exists i: nat :: LastOfPair(log, i) && Overdue(log[i], now) && Continues(r, log[i], Failed, now)
    {
      assert TimesOut(log, now, r);
      LatestByIndex(log, PairOf(r));
    }
    forall i: nat | LastOfPair(log, i) && Overdue(log[i], now)
      ensures exists r :: r in rows && Continues(r, log[i], Failed, now)
    {
      LastIsLatest(log, i);
      var r :| r in rows && PairOf(r) == PairOf(log[i]);
      assert TimesOut(log, now, r);
    }
    forall k, l | 0 <= k < l < |rows|
      ensures rows[k].environment != rows[l].environment || rows[k].feature != rows[l].feature
    {
      assert PairOf(rows[k]) != PairOf(rows[l]);
    }
  }

  // ----- Lookup -----

  lemma {:induction false} LatestFound(log: seq<DeployRow>, p: Pair)
    ensures Latest(log, p).Some? ==> Latest(log, p).value in log && PairOf(Latest(log, p).value) == p
    ensures Latest(log, p).None? ==> forall r :: r in log ==> PairOf(r) != p
  {
    if log != [] {
      LatestFound(log[..|log| - 1], p);
    }
  }

  lemma {:induction false} LatestOfDiidFound(log: seq<DeployRow>, d: Diid)
    ensures LatestOfDiid(log, d).Some? ==> LatestOfDiid(log, d).value in log && LatestOfDiid(log, d).value.diid == d
    ensures LatestOfDiid(log, d).None? ==> forall r :: r in log ==> r.diid != d
  {
    if log != [] {
      LatestOfDiidFound(log[..|log| - 1], d);
    }
  }

  lemma {:induction false} FirstOfDiidFound(log: seq<DeployRow>, d: Diid)
    ensures FirstOfDiid(log, d).Some? ==> FirstOfDiid(log, d).value in log && FirstOfDiid(log, d).value.diid == d
    ensures FirstOfDiid(log, d).None? ==> forall r :: r in log ==> r.diid != d
  {
    if log != [] {
      FirstOfDiidFound(log[..|log| - 1], d);
    }
  }

  lemma {:induction false} Appended(log: seq<DeployRow>, r: DeployRow)
    ensures forall p :: Latest(log + [r], p) == if PairOf(r) == p then Some(r) else Latest(log, p)
    ensures forall d :: LatestOfDiid(log + [r], d) == if r.diid == d then Some(r) else LatestOfDiid(log, d)
    ensures forall d :: FirstOfDiid(log + [r], d) == if FirstOfDiid(log, d).None? && r.diid == d then Some(r)
            else FirstOfDiid(log, d)
  {
    assert (log + [r])[..|log|] == log;
  }

  lemma {:induction false} LatestUnaffected(log: seq<DeployRow>, more: seq<DeployRow>, p: Pair)
    requires forall r :: r in more ==> PairOf(r) != p
    ensures Latest(log + more, p) == Latest(log, p)
  {
    if more == [] {
      assert log + more == log;
    } else {
      var n := |more| - 1;
      LatestUnaffected(log, more[..n], p);
      assert log + more == (log + more[..n]) + [more[n]];
      Appended(log + more[..n], more[n]);
    }
  }
}
