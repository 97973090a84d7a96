/** Which assignment of a feature applies: the loops of matchAssignments and
    mostSpecificPerFeature (the reconciler and the featureassignment package hold the
    same loop, on their own types). */
module Selection {
  import opened Basics
  import opened Model

  // ----- Specification -----

  /** The first assignment of the feature that no earlier or later one beats. */
  function Winner(deps: seq<Assignment>, feature: string): Option<Assignment> {
    if deps == [] then None
    else
      var last := deps[|deps| - 1];
      var before := Winner(deps[..|deps| - 1], feature);
      if last.feature.name != feature then before
      else if before.None? || Beats(last, before.value) then Some(last)
      else before
  }

  function Matching(all: seq<Assignment>, env: Environment): seq<Assignment> {
    if all == [] then []
    else
      var last := all[|all| - 1];
      Matching(all[..|all| - 1], env) + if LabelsContain(env.labels, last.target) then [last] else []
  }

  /** One winner per feature, oldest first. */
  ghost predicate IsSelection(result: seq<Assignment>, deps: seq<Assignment>) {
    && (forall i, j :: 0 <= i < j < |result| ==> result[i].feature.name != result[j].feature.name)
    && (forall a :: a in result <==> Winner(deps, a.feature.name) == Some(a))
    && (forall i, j :: 0 <= i < j < |result| ==> result[i].created <= result[j].created)
  }

  // ----- The implementation -----

  method MatchAssignments(all: seq<Assignment>, env: Environment) returns (matched: seq<Assignment>)
    ensures matched == Matching(all, env)
  {
    matched := [];
    for i := 0 to |all|
      invariant matched == Matching(all[..i], env)
    {
      assert all[..i + 1][..i] == all[..i];
      if LabelsContain(env.labels, all[i].target) {
        matched := matched + [all[i]];
      }
    }
    assert all[..|all|] == all;
  }

  ghost predicate Tracks(winners: map<string, Assignment>, deps: seq<Assignment>) {
    forall f :: Winner(deps, f) == if f in winners then Some(winners[f]) else None
  }

  method MostSpecificPerFeature(deps: seq<Assignment>) returns (result: seq<Assignment>)
    ensures IsSelection(result, deps)
  {
    var winners: map<string, Assignment> := map[];
    for i := 0 to |deps|
      invariant Tracks(winners, deps[..i])
    {
      assert deps[..i + 1][..i] == deps[..i];
      var dep := deps[i];
      var f := dep.feature.name;
      assert Winner(deps[..i], f) == if f in winners then Some(winners[f]) else None;
      if f !in winners || IsMoreSpecific(dep.target, winners[f].target, dep.created, winners[f].created) {
        winners := winners[f := dep];
      }
    }
    assert deps[..|deps|] == deps;
    result := CollectWinners(winners, deps);
  }

  method CollectWinners(winners: map<string, Assignment>, ghost deps: seq<Assignment>) returns (result: seq<Assignment>)
    requires Tracks(winners, deps)
    ensures IsSelection(result, deps)
  {
    var order := RangeKeys(winners.Keys);
    var found: seq<Assignment> := [];
    for i := 0 to |order|
      invariant |found| == i && forall j :: 0 <= j < i ==> found[j] == winners[order[j]]
    {
      assert order[i] in winners.Keys;
      found := found + [winners[order[i]]];
    }
    result := Sort(found, OlderFirst);
    SortSorted(found, OlderFirst);
    FoundIsSelection(winners, order, found, result, deps);
  }

  lemma {:induction false} FoundIsSelection(winners: map<string, Assignment>, order: seq<string>,
                                            found: seq<Assignment>, result: seq<Assignment>, deps: seq<Assignment>)
    requires Tracks(winners, deps) && NoDuplicates(order) && |found| == |order|
    requires forall f :: f in order <==> f in winners.Keys
    requires forall j :: 0 <= j < |found| ==> order[j] in winners && found[j] == winners[order[j]]
    requires multiset(result) == multiset(found) && SortedBy(result, OlderFirst)
    ensures IsSelection(result, deps)
  {
    forall f | f in winners ensures winners[f].feature.name == f {
      WinnerBest(deps, f);
    }
    forall a ensures a in result <==> a in found {
      assert a in result <==> a in multiset(found);
    }
    forall a ensures a in found <==> Winner(deps, a.feature.name) == Some(a) {
      assert a.feature.name in order <==> a.feature.name in winners;
    }
    assert NoDuplicates(found);
    PermutationNoDuplicates(found, result);
  }

  predicate OlderFirst(a: Assignment, b: Assignment) {
    a.created <= b.created
  }

  // ----- What a winner is -----

  lemma {:induction false} WinnerBest(deps: seq<Assignment>, f: string)
    ensures Winner(deps, f).None? <==> forall a :: a in deps ==> a.feature.name != f
    ensures Winner(deps, f).Some? ==>
              var w := Winner(deps, f).value;
              w in deps && w.feature.name == f && forall a :: a in deps && a.feature.name == f ==> !Beats(a, w)
  {
    if deps != [] {
      var n := |deps| - 1;
      WinnerBest(deps[..n], f);
      assert deps == deps[..n] + [deps[n]];
    }
  }

  /** The assignment is one of the feature, and the environment has each of its target's
      labels, a missing one counting as empty. */
  ghost predicate Fits(all: seq<Assignment>, env: Environment, feature: string, a: Assignment) {
    && a in all && a.feature.name == feature
    && forall k :: k in a.target ==> a.target[k] == if k in env.labels then env.labels[k] else ""
  }

  /** Of the assignments that fit, this one has the most labels, and is the newest of those. */
  ghost predicate Best(all: seq<Assignment>, env: Environment, feature: string, w: Assignment) {
    && Fits(all, env, feature, w)
    && forall a :: Fits(all, env, feature, a) ==>
         |a.target| < |w.target| || (|a.target| == |w.target| && a.created <= w.created)
  }

  /** What is selected for an environment: the best assignment that fits, and nothing only
      where none fits. */
  lemma {:induction false} SelectsBest(all: seq<Assignment>, env: Environment, feature: string)
    ensures match Winner(Matching(all, env), feature)
            case None => forall a :: !Fits(all, env, feature, a)
            case Some(w) => Best(all, env, feature, w)
  {
    MatchingMembers(all, env);
    WinnerBest(Matching(all, env), feature);
  }

  /** The winners of an environment: of each feature with a fitting assignment the best one,
      once, and those created earlier first. */
  lemma {:induction false} SelectionEntries(result: seq<Assignment>, all: seq<Assignment>, env: Environment)
    requires IsSelection(result, Matching(all, env))
    ensures forall w :: w in result ==> Best(all, env, w.feature.name, w)
    ensures forall a: Assignment :: Fits(all, env, a.feature.name, a) ==>
              exists w :: w in result && w.feature.name == a.feature.name
    ensures forall i, j :: 0 <= i < j < |result| ==>
              result[i].feature.name != result[j].feature.name && result[i].created <= result[j].created
  {
    forall w | w in result ensures Best(all, env, w.feature.name, w) {
      SelectsBest(all, env, w.feature.name);
    }
    forall a: Assignment | Fits(all, env, a.feature.name, a)
      ensures exists w :: w in result && w.feature.name == a.feature.name
    {
      SelectsBest(all, env, a.feature.name);
      var w := Winner(Matching(all, env), a.feature.name).value;
      assert w.feature.name == a.feature.name && w in result;
    }
  }

  /** With distinct creation times the best is selected, whoever it is. */
  lemma {:induction false} BestIsSelected(all: seq<Assignment>, env: Environment, feature: string, w: Assignment)
    requires DistinctCreated(all) && Best(all, env, feature, w)
    ensures Winner(Matching(all, env), feature) == Some(w)
  {
    SelectsBest(all, env, feature);
    assert Fits(all, env, feature, w);
    var v := Winner(Matching(all, env), feature).value;
    assert v in all && w in all;
  }

  /** Matching keeps the order and the repetitions of its input. */
  lemma {:induction false} MatchingJoined(a: seq<Assignment>, b: seq<Assignment>, env: Environment)
    ensures Matching(a + b, env) == Matching(a, env) + Matching(b, env)
  {
    if b == [] {
      assert a + b == a;
    } else {
      var n := |b| - 1;
      assert (a + b)[..|a + b| - 1] == a + b[..n];
      MatchingJoined(a, b[..n], env);
    }
  }

  lemma {:induction false} MatchingMembers(all: seq<Assignment>, env: Environment)
    ensures forall a :: a in Matching(all, env) <==> a in all && LabelsContain(env.labels, a.target)
  {
    if all != [] {
      var n := |all| - 1;
      MatchingMembers(all[..n], env);
      assert all == all[..n] + [all[n]];
    }
  }

  // ----- Main results -----

  ghost predicate DistinctCreated(deps: seq<Assignment>) {
    forall a, b :: a in deps && b in deps && a.created == b.created ==> a == b
  }

  lemma {:induction false} WinnerUnique(deps: seq<Assignment>, w: Assignment)
    requires DistinctCreated(deps) && w in deps
    requires forall a :: a in deps && a.feature.name == w.feature.name ==> !Beats(a, w)
    ensures Winner(deps, w.feature.name) == Some(w)
  {
    WinnerBest(deps, w.feature.name);
    var v := Winner(deps, w.feature.name).value;
    assert !Beats(v, w) && !Beats(w, v);
  }

  /** With distinct creation times, the selection is one sequence: the order of the
      input, duplicates in it and Go's map order do not matter. */
  lemma {:induction false} SelectionUnique(a: seq<Assignment>, b: seq<Assignment>, deps: seq<Assignment>,
                                           deps': seq<Assignment>)
    requires IsSelection(a, deps) && IsSelection(b, deps')
    requires DistinctCreated(deps) && forall d :: d in deps <==> d in deps'
    ensures a == b
  {
    forall x ensures x in a <==> x in b {
      if x in a || x in b {
        WinnerBest(deps, x.feature.name);
        WinnerBest(deps', x.feature.name);
        if x in a {
          WinnerUnique(deps', x);
        } else {
          WinnerUnique(deps, x);
        }
      }
    }
    forall x | x in a ensures x in deps {
      WinnerBest(deps, x.feature.name);
    }
    OldestFirstUnique(a, b);
  }

  lemma {:induction false} OldestFirstUnique(a: seq<Assignment>, b: seq<Assignment>)
    requires forall x :: x in a <==> x in b
    requires DistinctCreated(a)
    requires NoDuplicates(a) && NoDuplicates(b) && SortedBy(a, OlderFirst) && SortedBy(b, OlderFirst)
    ensures a == b
  {
    NoDuplicatesCounts(a);
    NoDuplicatesCounts(b);
    forall x ensures multiset(a)[x] == multiset(b)[x] {
      assert x in multiset(a) <==> x in a;
      assert x in multiset(b) <==> x in b;
    }
    SortedUnique(a, b, OlderFirst);
  }
}
