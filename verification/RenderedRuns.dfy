/** Convergence of the loop with the renders it really makes: every cycle renders again,
    from tables that stay, in whatever order Go iterates. */
module RenderedRuns {
  import opened Model
  import opened Compute
  import opened DeployLog
  import opened Convergence
  import opened RenderInputs
  import opened RenderedAction
  import Generate = Computed

  /** Every winner ends as rendering it from the source can end. */
  ghost predicate RendersFrom(src: Source, snap: Snapshot)
    requires ValidTables(src.tables)
  {
    forall env, dep :: Wanted(snap, env, dep) ==> CanEndIn(src, env, dep.feature, snap.render(env, dep))
  }

  /** No winner has a computed key inside another. */
  ghost predicate WinnersNotNested(snap: Snapshot) {
    forall env, dep :: Wanted(snap, env, dep) ==> Generate.NoneNested(dep.feature.values, env.kind)
  }

  /** A round whose cycle renders from the source; nothing is said of how its renders
      compare with those of other cycles. */
  ghost predicate IsRenderedRound(src: Source, desired: Snapshot, log: seq<DeployRow>, r: Round, after: seq<DeployRow>)
    requires ValidTables(src.tables)
  {
    && SameState(r.snap, r.clock, desired) && RendersFrom(src, r.snap)
    && IsCycle(log, r, after)
  }

  ghost predicate AreRenderedRounds(src: Source, desired: Snapshot, logs: seq<seq<DeployRow>>, rounds: seq<Round>)
    requires ValidTables(src.tables)
  {
    && |logs| == |rounds| + 1
    && forall i {:trigger rounds[i]} :: 0 <= i < |rounds| ==>
      IsRenderedRound(src, desired, logs[i], rounds[i], logs[i + 1])
  }

  /** Two snapshots rendered from the same tables render alike. */
  lemma {:induction false} SameTablesSameSnapshot(src: Source, snap: Snapshot, clock: int, desired: Snapshot)
    requires ValidTables(src.tables) && RendersFrom(src, snap) && RendersFrom(src, desired)
    requires SameState(snap, clock, desired) && WinnersNotNested(desired)
    ensures StillDesired(snap, clock, desired)
  {
    forall env, dep | Wanted(desired, env, dep) ensures RendersAlike(snap, desired, env, dep) {
      assert Wanted(snap, env, dep);
      SameTablesSameEnding(src, env, dep.feature, snap.render(env, dep), desired.render(env, dep));
    }
  }

  /** With the tables unchanged, rounds that render anew are rounds of one desired state. */
  lemma {:induction false} RenderedRoundsAreRounds(src: Source, desired: Snapshot, logs: seq<seq<DeployRow>>,
                                                   rounds: seq<Round>)
    requires ValidTables(src.tables) && AreRenderedRounds(src, desired, logs, rounds)
    requires RendersFrom(src, desired) && WinnersNotNested(desired)
    ensures AreRounds(desired, logs, rounds)
  {
    forall i {:trigger rounds[i]} | 0 <= i < |rounds| ensures IsRound(desired, logs[i], rounds[i], logs[i + 1]) {
      assert IsRenderedRound(src, desired, logs[i], rounds[i], logs[i + 1]);
      SameTablesSameSnapshot(src, rounds[i].snap, rounds[i].clock, desired);
    }
  }

  /** From tables to a settled log: with the tables unchanged and as many rounds as ranks,
      everything runs the desired configuration exactly if nothing was stuck. */
  lemma {:induction false} RenderedRunsConverge(src: Source, desired: Snapshot, logs: seq<seq<DeployRow>>,
                                                rounds: seq<Round>,
                                                rank: (EnvId, string) -> nat)
    requires ValidTables(src.tables) && AreRenderedRounds(src, desired, logs, rounds)
    requires RendersFrom(src, desired) && WinnersNotNested(desired) && Deployable(desired)
    requires Start(logs[0]) && Ranked(desired, rank) && RanksBelow(desired, rank, |rounds|)
    ensures AllDone(desired, logs[|rounds|]) <==> NothingStuck(desired, logs[0])
  {
    RenderedRoundsAreRounds(src, desired, logs, rounds);
    ConvergesIffNothingStuck(desired, logs, rounds, rank);
  }

  /** And then the log stops growing, though every cycle renders again. */
  lemma {:induction false} RenderedRunsSettle(src: Source, desired: Snapshot, logs: seq<seq<DeployRow>>,
                                              rounds: seq<Round>,
                                              rank: (EnvId, string) -> nat, n: nat)
    requires ValidTables(src.tables) && AreRenderedRounds(src, desired, logs, rounds)
    requires RendersFrom(src, desired) && WinnersNotNested(desired) && Deployable(desired)
    requires Start(logs[0]) && Ranked(desired, rank) && NothingStuck(desired, logs[0])
    requires n < |rounds| && RanksBelow(desired, rank, n)
    ensures forall d :: d in rounds[n].results ==> d.action == ActionSkipUnchanged
    ensures logs[n + 1] == logs[n]
  {
    RenderedRoundsAreRounds(src, desired, logs, rounds);
    ConvergedIsStill(desired, logs, rounds, rank, n);
  }
}
