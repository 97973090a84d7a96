/** The two pages agree with the reconcile loop in every environment exactly under a
    condition on the feature's targets. An environment that has a target's labels, and values
    too long for any other target, shows each half. */
module WinnersExact {
  import opened Basics
  import opened Model
  import opened Selection
  import opened Winners

  // ----- An environment for one target -----

  ghost function LabelKeys(rows: seq<Row>): set<string> {
    set a, k | a in Active(rows) && k in a.target :: k
  }

  function LongText(n: nat): (s: string)
    ensures |s| == n
  {
    seq(n, _ => 'x')
  }

  lemma {:induction false} LengthBound(labels: Labels, keys: set<string>) returns (n: nat)
    requires keys <= labels.Keys
    ensures forall k :: k in keys ==> |labels[k]| < n
    decreases |keys|
  {
    n := 0;
    if keys != {} {
      var k :| k in keys;
      n := LengthBound(labels, keys - {k});
      n := n + |labels[k]| + 1;
    }
  }

  lemma {:induction false} LengthBoundOfAll(found: set<Assignment>) returns (n: nat)
    ensures forall a, k :: a in found && k in a.target ==> |a.target[k]| < n
    decreases |found|
  {
    n := 0;
    if found != {} {
      var a :| a in found;
      var m := LengthBoundOfAll(found - {a});
      n := LengthBound(a.target, a.target.Keys);
      n := n + m;
    }
  }

  /** The target's own labels, and for every other label a value no target has. */
  ghost function OnlyFor(rows: seq<Row>, target: Labels, n: nat): Labels {
    map k | k in LabelKeys(rows) + target.Keys :: if k in target then target[k] else LongText(n)
  }

  ghost predicate Within(a: Labels, b: Labels) {
    forall k :: k in a ==> k in b && a[k] == b[k]
  }

  lemma {:induction false} WithinSize(a: Labels, b: Labels)
    requires Within(a, b)
    ensures |a| <= |b| && (|a| == |b| ==> a == b)
  {
    assert |a| == |a.Keys| && |b| == |b.Keys|;
    assert a.Keys <= b.Keys;
    SubsetSize(a.Keys, b.Keys);
  }

  lemma {:induction false} SubsetSize<T>(a: set<T>, b: set<T>)
    requires a <= b
    ensures |a| <= |b| && (|a| == |b| ==> a == b)
  {
    assert |b - a| == |b| - |a|;
  }

  /** The candidates of an environment reach no further than the target. */
  ghost predicate MadeFor(rows: seq<Row>, env: Environment, feature: string, d: Assignment) {
    && Candidate(rows, env, feature, d)
    && forall a :: Candidate(rows, env, feature, a) ==> Within(a.target, d.target)
  }

  lemma {:induction false} MadeForTarget(rows: seq<Row>, feature: string, d: Assignment, dropped: set<string>)
    returns (env: Environment)
    requires d in Active(rows) && d.feature.name == feature
    requires forall k :: k in dropped ==> k in d.target && d.target[k] == ""
    ensures MadeFor(rows, env, feature, d) && forall k :: k in dropped ==> k !in env.labels
  {
    var n := LengthBoundOfAll(Active(rows));
    var labels := OnlyFor(rows, d.target, n) - dropped;
    env := Environment(0, "", "", "", labels);
    assert forall k :: k in labels ==> k in d.target || |labels[k]| == n;
    forall a | Candidate(rows, env, feature, a) ensures Within(a.target, d.target) {
      forall k | k in a.target ensures k in d.target && a.target[k] == d.target[k] {
        assert k in LabelKeys(rows);
      }
    }
  }

  // ----- What applies there -----

  lemma {:induction false} SomeoneApplies(rows: seq<Row>, env: Environment, feature: string, items: seq<Assignment>,
                                          d: Assignment)
    returns (v: Assignment)
    requires LatestAssignments(rows, items) && Candidate(rows, env, feature, d)
    ensures Applies(rows, env, feature, v)
  {
    ReconcilerFindsWinner(rows, env, feature, items);
    var w := Winner(Matching(items, env), feature);
    assert w.Some? || !Applies(rows, env, feature, d);
    if w.None? {
      BeatenBySomeone(rows, env, feature, items, d);
    }
    v := w.value;
  }

  lemma {:induction false} BeatenBySomeone(rows: seq<Row>, env: Environment, feature: string, items: seq<Assignment>,
                                           d: Assignment)
    requires LatestAssignments(rows, items) && Candidate(rows, env, feature, d)
    ensures Winner(Matching(items, env), feature).Some?
  {
    MatchingMembers(items, env);
    WinnerBest(Matching(items, env), feature);
    assert GroupListed(items, d);
    var b :| b in items && SameGroup(d, b);
    assert b in Matching(items, env);
  }

  /** In an environment made for a target, exactly assignments of that target apply. */
  lemma {:induction false} OnlyThatTargetApplies(rows: seq<Row>, env: Environment, feature: string, d: Assignment,
                                                 w: Assignment)
    requires MadeFor(rows, env, feature, d) && Applies(rows, env, feature, w)
    ensures w.target == d.target
  {
    WithinSize(w.target, d.target);
    assert !Beats(d, w);
  }

  /** So a path that lists none of them does not find what applies. */
  lemma {:induction false} NotFound(rows: seq<Row>, env: Environment, feature: string, d: Assignment, v: Assignment,
                                    found: Option<Assignment>)
    requires MadeFor(rows, env, feature, d) && Applies(rows, env, feature, v)
    requires found.Some? ==> found.value.target != d.target
    ensures !FindsWinner(found, rows, env, feature)
  {
    if found.Some? && Applies(rows, env, feature, found.value) {
      OnlyThatTargetApplies(rows, env, feature, d, found.value);
    }
  }

  // ----- What the queries can return -----

  lemma {:induction false} LatestOfGroup(rows: seq<Row>, found: set<Assignment>, a: Assignment) returns (b: Assignment)
    requires found <= Active(rows) && a in found
    ensures b in found && SameGroup(a, b) && forall c :: c in found && SameGroup(a, c) ==> c.created <= b.created
    decreases |found|
  {
    b := a;
    if c :| c in found && c != a && SameGroup(a, c) {
      if c.created <= a.created {
        b := LatestOfGroup(rows, found - {c}, a);
      } else {
        b := LatestOfGroup(rows, found - {a}, c);
      }
    }
  }

  lemma {:induction false} Listing(found: set<Assignment>) returns (items: seq<Assignment>)
    ensures forall a :: a in items <==> a in found
    decreases |found|
  {
    items := [];
    if found != {} {
      var a :| a in found;
      items := Listing(found - {a});
      items := items + [a];
    }
  }

  lemma {:induction false} LatestExist(rows: seq<Row>) returns (items: seq<Assignment>)
    ensures LatestAssignments(rows, items)
  {
    items := Listing(set a | a in Active(rows) && LatestInGroup(rows, a));
    forall a | a in Active(rows) ensures GroupListed(items, a) {
      var b := LatestOfGroup(rows, Active(rows), a);
      assert LatestInGroup(rows, b);
      assert b in items && SameGroup(a, b);
    }
  }

  lemma {:induction false} EnvironmentListExists(rows: seq<Row>, env: Environment) returns (items: seq<Assignment>)
    ensures LatestForEnvironment(rows, env, items)
  {
    items := Listing(set a | a in Active(rows) && LatestInGroup(rows, a) && JsonContains(env.labels, a.target));
    forall a | a in Active(rows) && JsonContains(env.labels, a.target) ensures GroupListed(items, a) {
      var b := LatestOfGroup(rows, Active(rows), a);
      assert LatestInGroup(rows, b);
      assert b in items && SameGroup(a, b);
    }
  }

  // ----- Main results -----

  ghost predicate PageIsRight(rows: seq<Row>, feature: string, latest: seq<Assignment>) {
    forall env :: FindsWinner(Winner(Matching(latest, env), feature), rows, env, feature)
  }

  /** Of two targets with one key, the page drops the one whose first row comes later. */
  lemma {:induction false} DroppedTarget(items: seq<Assignment>, latest: seq<Assignment>, a: Assignment, b: Assignment)
    returns (d: Assignment)
    requires FirstPerTarget(items, latest) && a in items && b in items
    requires TargetKeyOf(a.target) == TargetKeyOf(b.target) && a.target != b.target
    ensures d == a || d == b
    ensures forall x :: x in latest ==> x.target != d.target
  {
    var i :| 0 <= i < |items| && items[i] == a;
    var m := FirstOccurrence(items, i);
    d := if items[m].target != a.target then a else b;
    forall x | x in latest ensures x.target != d.target {
      var n: nat :| FirstAt(items, n, x);
      assert n == m || TargetKeyOf(items[n].target) != TargetKeyOf(items[m].target);
    }
  }

  /** The feature page finds the assignment that applies, in every environment, exactly if
      no two active targets of the feature share a key. */
  lemma {:induction false} FeaturePageExactly(rows: seq<Row>, feature: string, items: seq<Assignment>,
                                              latest: seq<Assignment>)
    requires ActiveNewestFirst(rows, feature, items) && FirstPerTarget(items, latest)
    ensures PageIsRight(rows, feature, latest) <==> DistinctKeys(rows, feature)
  {
    if DistinctKeys(rows, feature) {
      forall env ensures FindsWinner(Winner(Matching(latest, env), feature), rows, env, feature) {
        FeaturePageFindsWinner(rows, env, feature, items, latest);
      }
    } else {
      var a, b :| SharesKey(rows, feature, a, b) && a.target != b.target;
      var d := DroppedTarget(items, latest, a, b);
      var env := MadeForTarget(rows, feature, d, {});
      var all := LatestExist(rows);
      var v := SomeoneApplies(rows, env, feature, all, d);
      MatchingMembers(latest, env);
      WinnerBest(Matching(latest, env), feature);
      NotFound(rows, env, feature, d, v, Winner(Matching(latest, env), feature));
    }
  }

  ghost predicate ListIsRight(rows: seq<Row>, feature: string) {
    forall env, items :: LatestForEnvironment(rows, env, items) ==>
      FindsWinner(Winner(items, feature), rows, env, feature)
  }

  /** The list of an environment finds it, in every environment, exactly if no active
      target of the feature has an empty value. */
  lemma {:induction false} EnvironmentListExactly(rows: seq<Row>, feature: string)
    ensures ListIsRight(rows, feature) <==> NoEmptyValues(rows, feature)
  {
    if NoEmptyValues(rows, feature) {
      forall env, items | LatestForEnvironment(rows, env, items)
        ensures FindsWinner(Winner(items, feature), rows, env, feature) {
        EnvironmentListFindsWinner(rows, env, feature, items);
      }
    } else {
      var d, k :| d in Active(rows) && d.feature.name == feature && k in d.target && d.target[k] == "";
      var env := MadeForTarget(rows, feature, d, {k});
      var all := LatestExist(rows);
      var v := SomeoneApplies(rows, env, feature, all, d);
      var items := EnvironmentListExists(rows, env);
      WinnerBest(items, feature);
      forall x | x in items ensures x.target != d.target {
        assert JsonContains(env.labels, x.target);
      }
      NotFound(rows, env, feature, d, v, Winner(items, feature));
    }
  }

  /** In every environment the loop, the list of the environment and the feature page pick
      the same assignment. */
  ghost predicate PagesAgree(rows: seq<Row>, feature: string, latest: seq<Assignment>) {
    forall env, bulk, listed :: LatestAssignments(rows, bulk) && LatestForEnvironment(rows, env, listed) ==>
      Winner(Matching(bulk, env), feature) == Winner(listed, feature) == Winner(Matching(latest, env), feature)
  }

  /** With distinct creation times the three ways agree, in every environment, exactly if no
      active target of the feature has an empty value and no two share a key. */
  lemma {:induction false} ThreeWaysExactly(rows: seq<Row>, feature: string, items: seq<Assignment>,
                                            latest: seq<Assignment>)
    requires DistinctTimes(rows) && ActiveNewestFirst(rows, feature, items) && FirstPerTarget(items, latest)
    ensures PagesAgree(rows, feature, latest) <==> NoEmptyValues(rows, feature) && DistinctKeys(rows, feature)
  {
    if NoEmptyValues(rows, feature) && DistinctKeys(rows, feature) {
      forall env, bulk, listed | LatestAssignments(rows, bulk) && LatestForEnvironment(rows, env, listed)
        ensures Winner(Matching(bulk, env), feature) == Winner(listed, feature) ==
                Winner(Matching(latest, env), feature)
      {
        ThreeWaysOneWinner(rows, env, feature, bulk, listed, items, latest);
      }
    }
    if PagesAgree(rows, feature, latest) {
      AgreeingIsRight(rows, feature, latest);
      EnvironmentListExactly(rows, feature);
      FeaturePageExactly(rows, feature, items, latest);
    }
  }

  lemma {:induction false} AgreeingIsRight(rows: seq<Row>, feature: string, latest: seq<Assignment>)
    requires PagesAgree(rows, feature, latest)
    ensures ListIsRight(rows, feature) && PageIsRight(rows, feature, latest)
  {
    var bulk := LatestExist(rows);
    forall env, listed | LatestForEnvironment(rows, env, listed)
      ensures FindsWinner(Winner(listed, feature), rows, env, feature)
    {
      ReconcilerFindsWinner(rows, env, feature, bulk);
    }
    forall env ensures FindsWinner(Winner(Matching(latest, env), feature), rows, env, feature) {
      var listed := EnvironmentListExists(rows, env);
      ReconcilerFindsWinner(rows, env, feature, bulk);
    }
  }

  /** Targets with clean labels and no empty values: the three ways agree. */
  lemma {:induction false} CleanTargetsAgree(rows: seq<Row>, feature: string, items: seq<Assignment>,
                                             latest: seq<Assignment>)
    requires DistinctTimes(rows) && ActiveNewestFirst(rows, feature, items) && FirstPerTarget(items, latest)
    requires CleanTargets(rows, feature)
    ensures PagesAgree(rows, feature, latest)
  {
    CleanTargetsAreDistinct(rows, feature);
    ThreeWaysExactly(rows, feature, items, latest);
  }
}
