/** The worker pool on a snapshot: it delivers the decisions of the sequential loop. */
module PoolCycle {
  import opened Model
  import opened Compute
  import P = WorkerPool

  type WorkItem = (Environment, Assignment)

  function ItemFor(snap: Snapshot, now: int, env: Environment, dep: Assignment): P.Item<WorkItem, Decision> {
    if !Healthy(snap, now, env.id) then P.Skip(Base(env, dep, ActionSkipUnhealthy, "naisd is unhealthy"))
    else if dep.feature.name in DisabledIn(snap, env.id)
      then P.Skip(Base(env, dep, ActionSkipDisabled, "feature reconcile disabled"))
    else P.Job((env, dep))
  }

  /** GOMAXPROCS workers with a work channel of that size, and the caller's channel. */
  function PoolFor(snap: Snapshot, workers: nat, outCap: nat): P.Pool<WorkItem, Decision> {
    P.Pool((w: WorkItem) => Computed(snap, w.0, w.1), workers, outCap)
  }

  ghost function ItemsOf(snap: Snapshot, now: int, env: Environment,
                         winners: seq<Assignment>): seq<P.Item<WorkItem, Decision>> {
    seq(|winners|, k requires 0 <= k < |winners| => ItemFor(snap, now, env, winners[k]))
  }

  /** What the dispatcher sends, in order. */
  ghost function DispatchItems(snap: Snapshot, now: int, choice: seq<seq<Assignment>>,
                               n: nat): seq<P.Item<WorkItem, Decision>>
    requires n <= |choice| && n <= |snap.environments|
  {
    if n == 0 then []
    else DispatchItems(snap, now, choice, n - 1) + ItemsOf(snap, now, snap.environments[n - 1], choice[n - 1])
  }

  lemma {:induction false} ItemsAreDecisions(snap: Snapshot, now: int, choice: seq<seq<Assignment>>, n: nat,
                                             p: P.Pool<WorkItem, Decision>)
    requires n <= |choice| && n <= |snap.environments|
    requires forall w :: p.compute(w) == Computed(snap, w.0, w.1)
    ensures P.Results(p, DispatchItems(snap, now, choice, n)) == Flat(snap, now, choice, n)
  {
    if n > 0 {
      ItemsAreDecisions(snap, now, choice, n - 1, p);
      var before, more := DispatchItems(snap, now, choice, n - 1),
        ItemsOf(snap, now, snap.environments[n - 1], choice[n - 1]);
      assert P.Results(p, more) == DispatchedSeq(snap, now, snap.environments[n - 1], choice[n - 1]);
      assert P.Results(p, before + more) == P.Results(p, before) + P.Results(p, more);
    }
  }

  /** However dispatcher, workers and consumer are scheduled, when no more can happen the
      consumer holds one decision per environment and winner, the loop's decisions. */
  lemma {:induction false} PoolDeliversDecisions(snap: Snapshot, now: int, choice: seq<seq<Assignment>>, workers: nat,
                                                 outCap: nat,
                                                 states: seq<P.State<WorkItem, Decision>>, steps: seq<P.Step>)
    requires DistinctEnvironments(snap) && ValidChoice(snap, choice, |snap.environments|)
    requires workers > 0 && outCap > 0
    requires P.Run(PoolFor(snap, workers, outCap), states, steps)
    requires states[0] == P.Init(DispatchItems(snap, now, choice, |choice|), workers)
    requires P.Stopped(PoolFor(snap, workers, outCap), states[|steps|])
    ensures CompleteResults(snap, now, states[|steps|].received)
  {
    var p := PoolFor(snap, workers, outCap);
    var items := DispatchItems(snap, now, choice, |choice|);
    P.PoolRefinesLoop(p, items, workers, states, steps);
    ItemsAreDecisions(snap, now, choice, |choice|, p);
    FlatComplete(snap, now, choice);
    CompleteInAnyOrder(snap, now, Flat(snap, now, choice, |choice|), states[|steps|].received);
  }
}
