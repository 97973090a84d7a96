/** A run the code can take that ends with a deploy in flight which does not own its
    pair's latest row: a status of a timed-out deploy arrives after a redeploy. */
module LateStatus {
  import opened Basics
  import opened Model
  import opened Selection
  import opened Compute
  import opened DeployLog
  import opened Redeploy
  import opened DeployRuns

  const ENV := Environment(1, "dev", "nav", "tenant", map[])
  const FEATURE := Feature("loki", "1.0.0", "oci://loki", [], map[])
  const ASSIGNMENT := Assignment(7, FEATURE, map[], 0)

  function SnapAt(clock: int, latest: map<EnvId, map<string, Instruction>>): Snapshot {
    Snapshot([ENV], [ASSIGNMENT], map[1 := clock], map[], (e: Environment, a: Assignment) => Ready(map[], "h"), latest,
             map[])
  }

  lemma {:induction false} OnlyMatch(env: Environment, a: Assignment)
    requires LabelsContain(env.labels, a.target)
    ensures Matching([a], env) == [a]
  {
    assert [a][..0] == [];
    assert Matching([], env) == [];
  }

  lemma {:induction false} OnlyWinner(a: Assignment, feature: string)
    ensures Winner([a], feature) == if feature == a.feature.name then Some(a) else None
  {
    assert [a][..0] == [];
    assert Winner([], feature) == None;
  }

  lemma {:induction false} OneWinner(clock: int, latest: map<EnvId, map<string, Instruction>>, dep: Assignment)
    ensures Winner(Matching(SnapAt(clock, latest).assignments, ENV), "loki") == Some(ASSIGNMENT)
    ensures WinsIn(SnapAt(clock, latest), ENV, dep) ==> dep == ASSIGNMENT
  {
    OnlyMatch(ENV, ASSIGNMENT);
    OnlyWinner(ASSIGNMENT, "loki");
    OnlyWinner(ASSIGNMENT, dep.feature.name);
  }

  function FirstDecision(): Decision {
    Dispatched(SnapAt(0, map[]), 0, ENV, ASSIGNMENT)
  }

  lemma {:induction false} FirstCycle()
    ensures CompleteResults(SnapAt(0, map[]), 0, [FirstDecision()])
  {
    var snap := SnapAt(0, map[]);
    OneWinner(0, map[], ASSIGNMENT);
    assert DecisionFrom(snap, 0, ENV, ASSIGNMENT, FirstDecision());
    forall d ensures d in [FirstDecision()] <==> IsDecision(snap, 0, d) {
      if IsDecision(snap, 0, d) {
        var env, dep :| DecisionFrom(snap, 0, env, dep, d);
        OneWinner(0, map[], dep);
      }
    }
  }

  function RowAt(diid: Diid, status: DeployStatus, clock: int): DeployRow {
    DeployRow(diid, 1, 7, "loki", "1.0.0", status, "h", clock)
  }

  function Steps(status: DeployStatus): seq<Step> {
    [Cycle(SnapAt(0, map[]), 0, [FirstDecision()], [1], {1}, true),
     Timeout(4000, [RowAt(1, Failed, 4000)]),
     Redeployed(SnapBeforeRedeploy(), 4000, 1, "loki", 2, {2}, true),
     Status({1}, 1, status, 4001)]
  }

  function Logs(status: DeployStatus): seq<seq<DeployRow>> {
    var log1 := [RowAt(1, Sent, 0)];
    var log2 := log1 + [RowAt(1, Failed, 4000)];
    var log3 := log2 + [RowAt(2, Sent, 4000)];
    [[], log1, log2, log3, log3 + [RowAt(1, status, 4001)]]
  }

  lemma {:induction false} OneSent(d: Decision, uuid: Diid, now: int)
    requires d.action == ActionDeploy
    ensures SentRows([d], [uuid], {uuid}, now) == [SentRow(d, uuid, now)]
  {
    assert [d][..0] == [];
    assert SentRows([], [uuid], {uuid}, now) == [];
  }

  lemma {:induction false} CycleTaken(status: DeployStatus)
    ensures Taken(Logs(status)[0], Steps(status)[0], Logs(status)[1])
  {
    FirstCycle();
    OneWinner(0, map[], ASSIGNMENT);
    OneSent(FirstDecision(), 1, 0);
    assert FirstDecision().action == ActionDeploy;
  }

  lemma {:induction false} FirstTimesOut()
    ensures IsTimeout([RowAt(1, Sent, 0)], 4000, [RowAt(1, Failed, 4000)])
  {
    var failed := [RowAt(1, Failed, 4000)];
    Appended([], RowAt(1, Sent, 0));
    assert [] + [RowAt(1, Sent, 0)] == [RowAt(1, Sent, 0)];
    assert failed[0] in failed;
  }

  lemma {:induction false} TimeoutTaken(status: DeployStatus)
    ensures Taken(Logs(status)[1], Steps(status)[1], Logs(status)[2])
  {
    FirstTimesOut();
  }

  lemma {:induction false} ViewBeforeRedeploy(status: DeployStatus)
    ensures forall p :: Latest(Logs(status)[2], p) == if p == Pair(1, "loki") then Some(RowAt(1, Failed, 4000))
            else None
    ensures forall d :: LatestOfDiid(Logs(status)[2], d) == if d == 1 then Some(RowAt(1, Failed, 4000)) else None
  {
    Appended([], RowAt(1, Sent, 0));
    assert [] + [RowAt(1, Sent, 0)] == Logs(status)[1];
    Appended(Logs(status)[1], RowAt(1, Failed, 4000));
  }

  function SnapBeforeRedeploy(): Snapshot {
    SnapAt(4000, map[1 := map["loki" := Instruction("h", Failed)]])
  }

  lemma {:induction false} RedeployReadsLog(status: DeployStatus)
    ensures ReadsLog(SnapBeforeRedeploy(), Logs(status)[2])
  {
    ViewBeforeRedeploy(status);
  }

  lemma {:induction false} InSync()
    ensures var d := Computed(SnapBeforeRedeploy(), ENV, ASSIGNMENT);
            d.action == ActionSkipUnchanged && d.hash == "h" && d.environment == 1 && d.assignment == 7 &&
              d.feature == FEATURE
  {
    assert FirstUnmet(FEATURE.dependencies, {}) == None;
    assert LatestOf(SnapBeforeRedeploy(), 1, "loki") == Some(Instruction("h", Failed));
  }

  lemma {:induction false} RedeployGranted()
    ensures var d := Computed(SnapBeforeRedeploy(), ENV, ASSIGNMENT).(action := ActionDeploy,
                                                                      message := "redeploy requested");
            Requested(SnapBeforeRedeploy(), 4000, 1, "loki") == Ok(d) && SentRow(d, 2, 4000) == RowAt(2, Sent, 4000)
  {
    OneWinner(4000, map[1 := map["loki" := Instruction("h", Failed)]], ASSIGNMENT);
    InSync();
    assert FindEnvironment(SnapBeforeRedeploy().environments, 1) == Some(ENV);
    assert Healthy(SnapBeforeRedeploy(), 4000, 1);
  }

  lemma {:induction false} RedeployTaken(status: DeployStatus)
    ensures Taken(Logs(status)[2], Steps(status)[2], Logs(status)[3])
  {
    RedeployReadsLog(status);
    RedeployGranted();
    ViewBeforeRedeploy(status);
    OneSent(Requested(SnapBeforeRedeploy(), 4000, 1, "loki").value, 2, 4000);
  }

  lemma {:induction false} StatusTaken(status: DeployStatus)
    ensures Taken(Logs(status)[3], Steps(status)[3], Logs(status)[4])
  {
    Appended(Logs(status)[1], RowAt(1, Failed, 4000));
    Appended(Logs(status)[2], RowAt(2, Sent, 4000));
  }

  lemma {:induction false} LateStepTaken(status: DeployStatus, i: nat)
    requires i < 4
    ensures |Logs(status)| == 5 && |Steps(status)| == 4
    ensures Taken(Logs(status)[i], Steps(status)[i], Logs(status)[i + 1])
  {
    if i == 0 {
      CycleTaken(status);
    } else if i == 1 {
      TimeoutTaken(status);
    } else if i == 2 {
      RedeployTaken(status);
    } else {
      StatusTaken(status);
    }
  }

  lemma {:induction false} LateRun(status: DeployStatus)
    ensures IsRun(Logs(status), Steps(status))
  {
    forall i | 0 <= i < |Steps(status)| ensures Taken(Logs(status)[i], Steps(status)[i], Logs(status)[i + 1]) {
      LateStepTaken(status, i);
    }
  }

  /** Whatever the late status says, the redeploy stays in flight behind it. */
  lemma {:induction false} LateStatusIsUnsafe(status: DeployStatus)
    ensures IsRun(Logs(status), Steps(status)) && !Safe(Logs(status)[4])
  {
    LateRun(status);
    var log := Logs(status)[2];
    Appended(log, RowAt(2, Sent, 4000));
    Appended(log + [RowAt(2, Sent, 4000)], RowAt(1, status, 4001));
    assert InFlight(Logs(status)[4], 2) && !OwnsLatest(Logs(status)[4], 2);
  }
}
