/** The assignment table, and the three ways the repository finds the assignment that
    applies to a feature in an environment: the reconcile loop, the per-environment
    list, and the feature page. */
module Winners {
  import opened Basics
  import opened Model
  import opened Selection

  datatype Row = Row(assignment: Assignment, active: bool)

  // ----- What the three are meant to find -----

  ghost function Active(rows: seq<Row>): set<Assignment> {
    set i | 0 <= i < |rows| && rows[i].active :: rows[i].assignment
  }

  ghost predicate Candidate(rows: seq<Row>, env: Environment, feature: string, a: Assignment) {
    a in Active(rows) && a.feature.name == feature && LabelsContain(env.labels, a.target)
  }

  /** Of the active assignments of the feature that match the environment, the one with
      the most target labels, and of those the latest. */
  ghost predicate Applies(rows: seq<Row>, env: Environment, feature: string, w: Assignment) {
    && Candidate(rows, env, feature, w)
    && forall a :: Candidate(rows, env, feature, a) ==> !Beats(a, w)
  }

  ghost predicate DistinctTimes(rows: seq<Row>) {
    forall a, b :: a in Active(rows) && b in Active(rows) && a.created == b.created ==> a == b
  }

  // ----- SQL: DISTINCT ON (feature_name, target) ... ORDER BY created DESC -----

  /** Postgres `labels @> target`. */
  predicate JsonContains(labels: Labels, target: Labels) {
    forall k :: k in target ==> k in labels && labels[k] == target[k]
  }

  ghost predicate SameGroup(a: Assignment, b: Assignment) {
    a.feature.name == b.feature.name && a.target == b.target
  }

  ghost predicate LatestInGroup(rows: seq<Row>, a: Assignment) {
    a in Active(rows) && forall b :: b in Active(rows) && SameGroup(a, b) ==> b.created <= a.created
  }

  ghost predicate GroupListed(items: seq<Assignment>, a: Assignment) {
    exists b :: b in items && SameGroup(a, b)
  }

  /** ListLatestFeatureAssignments: what the query may return. */
  ghost predicate LatestAssignments(rows: seq<Row>, items: seq<Assignment>) {
    && (forall a :: a in items ==> LatestInGroup(rows, a))
    && (forall a {:trigger GroupListed(items, a)} :: a in Active(rows) ==> GroupListed(items, a))
  }

  /** ListFeatureAssignmentsForEnvironment: the same, for the rows whose target the
      environment's labels contain. */
  ghost predicate LatestForEnvironment(rows: seq<Row>, env: Environment, items: seq<Assignment>) {
    && (forall a :: a in items ==> LatestInGroup(rows, a) && JsonContains(env.labels, a.target))
    && (forall a {:trigger GroupListed(items, a)} :: a in Active(rows) && JsonContains(env.labels, a.target) ==>
        GroupListed(items, a))
  }

  /** ListFeatureAssignmentsByFeature: all active rows of the feature, newest first. */
  ghost predicate ActiveNewestFirst(rows: seq<Row>, feature: string, items: seq<Assignment>) {
    && (forall a :: a in items <==> a in Active(rows) && a.feature.name == feature)
    && (forall i, j :: 0 <= i < j < |items| ==> items[i].created >= items[j].created)
  }

  // ----- The feature page -----

  function EncodeLabels(keys: seq<string>, labels: Labels): string
    requires forall k :: k in keys ==> k in labels
  {
    if keys == [] then "" else keys[0] + "=" + labels[keys[0]] + ";" + EncodeLabels(keys[1..], labels)
  }

  ghost function TargetKeyOf(labels: Labels): string {
    EncodeLabels(SortedElements(labels.Keys), labels)
  }

  method TargetKey(labels: Labels) returns (ret: string)
    ensures ret == TargetKeyOf(labels)
  {
    var keys := RangeKeys(labels.Keys);
    SortStrings(keys);
    keys := Sort(keys, StrLeq);
    SortedListUnique(keys, SortedElements(labels.Keys));
    ret := "";
    for i := 0 to |keys|
      invariant forall k :: k in keys ==> k in labels
      invariant ret == EncodeLabels(keys[..i], labels)
    {
      assert keys[i] in labels;
      EncodeSnoc(keys[..i], keys[i], labels);
      assert keys[..i + 1] == keys[..i] + [keys[i]];
      ret := ret + (keys[i] + "=" + labels[keys[i]] + ";");
    }
    assert keys[..|keys|] == keys;
  }

  lemma {:induction false} EncodeSnoc(keys: seq<string>, k: string, labels: Labels)
    requires k in labels && forall l :: l in keys ==> l in labels
    ensures EncodeLabels(keys + [k], labels) == EncodeLabels(keys, labels) + (k + "=" + labels[k] + ";")
  {
    if keys == [] {
      assert [] + [k] == [k] && [k][1..] == [];
    } else {
      assert (keys + [k])[1..] == keys[1..] + [k];
      EncodeSnoc(keys[1..], k, labels);
    }
  }

  ghost predicate FirstWithKey(fas: seq<Assignment>, i: nat)
    requires i < |fas|
  {
    forall j :: 0 <= j < i ==> TargetKeyOf(fas[j].target) != TargetKeyOf(fas[i].target)
  }

  ghost predicate FirstAt(fas: seq<Assignment>, i: nat, a: Assignment) {
    i < |fas| && fas[i] == a && FirstWithKey(fas, i)
  }

  /** Both are first of their keys, and the one comes before the other. */
  ghost predicate InOrder(fas: seq<Assignment>, a: Assignment, b: Assignment) {
    exists i: nat, j: nat :: i < j && FirstAt(fas, i, a) && FirstAt(fas, j, b)
  }

  /** The first assignment of each key, once each, in the order of the list. */
  ghost predicate FirstPerTarget(fas: seq<Assignment>, ret: seq<Assignment>) {
    && (forall a :: a in ret <==> exists i: nat :: FirstAt(fas, i, a))
    && (forall m, n :: 0 <= m < n < |ret| ==> InOrder(fas, ret[m], ret[n]))
  }

  /** Where the loop stands after the first i assignments. */
  ghost predicate FirstsUpTo(fas: seq<Assignment>, ret: seq<Assignment>, i: nat) {
    && (forall a :: a in ret <==> exists j: nat :: j < i && FirstAt(fas, j, a))
    && (forall m, n :: 0 <= m < n < |ret| ==> InOrder(fas, ret[m], ret[n]))
  }

  lemma {:induction false} FirstsStep(fas: seq<Assignment>, ret: seq<Assignment>, i: nat)
    requires i < |fas| && FirstsUpTo(fas, ret, i)
    ensures FirstsUpTo(fas, if FirstWithKey(fas, i) then ret + [fas[i]] else ret, i + 1)
  {
    if FirstWithKey(fas, i) {
      var longer := ret + [fas[i]];
      assert FirstAt(fas, i, fas[i]);
      forall m, n | 0 <= m < n < |longer| ensures InOrder(fas, longer[m], longer[n]) {
        if n == |ret| {
          assert ret[m] in ret;
          var j: nat :| j < i && FirstAt(fas, j, ret[m]);
        } else {
          assert InOrder(fas, ret[m], ret[n]);
        }
      }
    }
  }

  ghost predicate SeenKeys(fas: seq<Assignment>, seen: set<string>, i: nat) {
    i <= |fas| && forall k :: k in seen <==> exists j :: 0 <= j < i && TargetKeyOf(fas[j].target) == k
  }

  lemma {:induction false} SeenStep(fas: seq<Assignment>, seen: set<string>, i: nat)
    requires i < |fas| && SeenKeys(fas, seen, i)
    ensures SeenKeys(fas, seen + {TargetKeyOf(fas[i].target)}, i + 1)
    ensures TargetKeyOf(fas[i].target) in seen ==> SeenKeys(fas, seen, i + 1)
    ensures FirstWithKey(fas, i) <==> TargetKeyOf(fas[i].target) !in seen
  {}

  method LatestAssignmentPerTarget(fas: seq<Assignment>) returns (ret: seq<Assignment>)
    ensures FirstPerTarget(fas, ret)
  {
    var seen: set<string> := {};
    ret := [];
    for i := 0 to |fas|
      invariant SeenKeys(fas, seen, i) && FirstsUpTo(fas, ret, i)
    {
      var key := TargetKey(fas[i].target);
      FirstsStep(fas, ret, i);
      SeenStep(fas, seen, i);
      if key in seen {
        continue;
      }
      seen := seen + {key};
      ret := ret + [fas[i]];
    }
  }

  method WinningAssignments(assignments: seq<Assignment>, envs: seq<Environment>)
    returns (winners: map<EnvId, Assignment>)
    requires forall i, j :: 0 <= i < j < |envs| ==> envs[i].id != envs[j].id
    requires forall a, b :: a in assignments && b in assignments ==> a.feature.name == b.feature.name
    ensures forall e, f :: e in envs && (forall a :: a in assignments ==> a.feature.name == f) ==>
              (if e.id in winners then Some(winners[e.id]) else None) == Winner(Matching(assignments, e), f)
  {
    winners := map[];
    for n := 0 to |envs|
      invariant forall m :: 0 <= m < n ==> WinnerIs(winners, envs[m], assignments)
      invariant forall m :: n <= m < |envs| ==> envs[m].id !in winners
    {
      var env := envs[n];
      for i := 0 to |assignments|
        invariant forall m :: 0 <= m < n ==> WinnerIs(winners, envs[m], assignments)
        invariant forall m :: n < m < |envs| ==> envs[m].id !in winners
        invariant WinnerIs(winners, env, assignments[..i])
      {
        assert assignments[..i + 1][..i] == assignments[..i];
        ghost var matched, f := Matching(assignments[..i], env), assignments[i].feature.name;
        MatchingMembers(assignments[..i], env);
        assert WinnerIs(winners, env, assignments[..i]);
        if !LabelsContain(env.labels, assignments[i].target) {
          assert Matching(assignments[..i + 1], env) == matched;
          continue;
        }
        assert Matching(assignments[..i + 1], env)[..|matched|] == matched;
        if env.id !in winners || Beats(assignments[i], winners[env.id]) {
          winners := winners[env.id := assignments[i]];
        }
      }
      assert assignments[..|assignments|] == assignments;
    }
    forall e, f | e in envs && (forall a :: a in assignments ==> a.feature.name == f)
      ensures (if e.id in winners then Some(winners[e.id]) else None) == Winner(Matching(assignments, e), f)
    {
      var m :| 0 <= m < |envs| && envs[m] == e;
      assert WinnerIs(winners, envs[m], assignments);
    }
  }

  ghost predicate WinnerIs(winners: map<EnvId, Assignment>, env: Environment, assignments: seq<Assignment>) {
    forall f :: (forall a :: a in assignments ==> a.feature.name == f) ==>
      (if env.id in winners then Some(winners[env.id]) else None) == Winner(Matching(assignments, env), f)
  }

  // ----- Target keys identify targets -----

  /** The first `=` ends a key, the next `;` its value. */
  predicate CleanLabels(labels: Labels) {
    forall k :: k in labels ==> '=' !in k && ';' !in labels[k]
  }

  /** A separator that neither part contains splits a text in one way. */
  lemma {:induction false} SplitAtSeparator(a: string, b: string, x: string, y: string, sep: char)
    requires sep !in a && sep !in b
    requires a + [sep] + x == b + [sep] + y
    ensures a == b && x == y
  {
    var s, t := a + [sep] + x, b + [sep] + y;
    assert forall i :: 0 <= i < |b| ==> t[i] != sep;
    assert forall i :: 0 <= i < |a| ==> s[i] != sep;
    assert s[|a|] == sep && t[|b|] == sep;
    assert |a| == |b|;
    assert a == s[..|a|] && b == t[..|a|];
    assert x == s[|a| + 1..] && y == t[|a| + 1..];
  }

  lemma {:induction false} EncodingInjective(ks: seq<string>, a: Labels, ls: seq<string>, b: Labels)
    requires forall k :: k in ks ==> k in a
    requires forall k :: k in ls ==> k in b
    requires CleanLabels(a) && CleanLabels(b)
    requires EncodeLabels(ks, a) == EncodeLabels(ls, b)
    ensures ks == ls && forall k :: k in ks ==> a[k] == b[k]
  {
    if ks != [] && ls != [] {
      assert ks[0] in a && ls[0] in b;
      var x, y := EncodeLabels(ks[1..], a), EncodeLabels(ls[1..], b);
      assert EncodeLabels(ks, a) == ks[0] + ['='] + (a[ks[0]] + ";" + x);
      assert EncodeLabels(ls, b) == ls[0] + ['='] + (b[ls[0]] + ";" + y);
      SplitAtSeparator(ks[0], ls[0], a[ks[0]] + ";" + x, b[ls[0]] + ";" + y, '=');
      assert a[ks[0]] + ";" + x == a[ks[0]] + [';'] + x && b[ls[0]] + ";" + y == b[ls[0]] + [';'] + y;
      SplitAtSeparator(a[ks[0]], b[ls[0]], x, y, ';');
      EncodingInjective(ks[1..], a, ls[1..], b);
      assert ks == [ks[0]] + ks[1..] && ls == [ls[0]] + ls[1..];
    }
  }

  lemma {:induction false} TargetKeyInjective(a: Labels, b: Labels)
    requires CleanLabels(a) && CleanLabels(b) && TargetKeyOf(a) == TargetKeyOf(b)
    ensures a == b
  {
    EncodingInjective(SortedElements(a.Keys), a, SortedElements(b.Keys), b);
    forall k ensures k in a <==> k in b {
      assert k in SortedElements(a.Keys) <==> k in a.Keys;
      assert k in SortedElements(b.Keys) <==> k in b.Keys;
    }
    assert a.Keys == b.Keys;
    forall k | k in a ensures a[k] == b[k] {
      assert k in SortedElements(a.Keys);
    }
  }

  /** Labels with separators in them can share a key, and then the feature page drops one. */
  lemma {:induction false} TargetKeyCollision()
    ensures TargetKeyOf(map["a" := "b;c=d"]) == TargetKeyOf(map["a" := "b", "c" := "d"])
  {
    var one, two := map["a" := "b;c=d"], map["a" := "b", "c" := "d"];
    SortedListUnique(SortedElements(one.Keys), ["a"]);
    assert StrLess("a", "c");
    SortedListUnique(SortedElements(two.Keys), ["a", "c"]);
    assert ["a"][1..] == [] && ["a", "c"][1..] == ["c"] && ["c"][1..] == [];
    assert EncodeLabels(["c"], two) == "c=d;";
  }

  // ----- Main results -----

  /** The two readings of a target differ only on labels the environment lacks. */
  lemma {:induction false} ContainmentsAgree(labels: Labels, target: Labels)
    ensures JsonContains(labels, target) <==> LabelsContain(labels, target) && target.Keys <= labels.Keys
  {
    if JsonContains(labels, target) {
      forall k | k in target.Keys ensures k in labels.Keys {
      }
    }
  }

  lemma {:induction false} AppliesUnique(rows: seq<Row>, env: Environment, feature: string, v: Assignment,
                                         w: Assignment)
    requires DistinctTimes(rows) && Applies(rows, env, feature, v) && Applies(rows, env, feature, w)
    ensures v == w
  {
    assert !Beats(v, w) && !Beats(w, v);
  }

  ghost predicate HasPeer(found: seq<Assignment>, feature: string, a: Assignment) {
    exists b :: b in found && b.feature.name == feature && |a.target| == |b.target| && a.created <= b.created
  }

  /** The assignments a path looks at are candidates, and no candidate beats all of them. */
  ghost predicate Represents(found: seq<Assignment>, rows: seq<Row>, env: Environment, feature: string) {
    && (forall a :: a in found && a.feature.name == feature ==> Candidate(rows, env, feature, a))
    && (forall a :: Candidate(rows, env, feature, a) ==> HasPeer(found, feature, a))
  }

  ghost predicate FindsWinner(found: Option<Assignment>, rows: seq<Row>, env: Environment, feature: string) {
    match found
    case Some(w) => Applies(rows, env, feature, w)
    case None => forall w :: !Applies(rows, env, feature, w)
  }

  lemma {:induction false} PeerUnbeaten(found: seq<Assignment>, feature: string, w: Assignment, a: Assignment)
    requires HasPeer(found, feature, a)
    requires forall b :: b in found && b.feature.name == feature ==> !Beats(b, w)
    ensures !Beats(a, w)
  {
    var b :| b in found && b.feature.name == feature && |a.target| == |b.target| && a.created <= b.created;
    assert !Beats(b, w);
  }

  lemma {:induction false} RepresentativesSuffice(found: seq<Assignment>, rows: seq<Row>, env: Environment,
                                                  feature: string)
    requires Represents(found, rows, env, feature)
    ensures FindsWinner(Winner(found, feature), rows, env, feature)
  {
    WinnerBest(found, feature);
    var winner := Winner(found, feature);
    if winner.Some? {
      var w := winner.value;
      assert forall b :: b in found && b.feature.name == feature ==> !Beats(b, w);
      forall a | Candidate(rows, env, feature, a) ensures !Beats(a, w) {
        PeerUnbeaten(found, feature, w, a);
      }
    } else {
      forall w ensures !Applies(rows, env, feature, w) {
        assert Candidate(rows, env, feature, w) ==> HasPeer(found, feature, w);
      }
    }
  }

  /** The reconcile loop finds the assignment that applies, and finds one iff there is one. */
  lemma {:induction false} ReconcilerFindsWinner(rows: seq<Row>, env: Environment, feature: string,
                                                 items: seq<Assignment>)
    requires LatestAssignments(rows, items)
    ensures FindsWinner(Winner(Matching(items, env), feature), rows, env, feature)
  {
    var matched := Matching(items, env);
    MatchingMembers(items, env);
    forall a | a in matched ensures a in Active(rows) {
      assert LatestInGroup(rows, a);
    }
    forall a | Candidate(rows, env, feature, a) ensures HasPeer(matched, feature, a) {
      assert GroupListed(items, a);
      var b :| b in items && SameGroup(a, b);
      assert LatestInGroup(rows, b) && SameGroup(b, a);
      assert b in matched;
    }
    RepresentativesSuffice(matched, rows, env, feature);
  }

  ghost predicate NoEmptyValues(rows: seq<Row>, feature: string) {
    forall a, k :: a in Active(rows) && a.feature.name == feature && k in a.target ==> a.target[k] != ""
  }

  /** So does the per-environment list, where the feature's targets have no empty values. */
  lemma {:induction false} EnvironmentListFindsWinner(rows: seq<Row>, env: Environment, feature: string,
                                                      items: seq<Assignment>)
    requires LatestForEnvironment(rows, env, items) && NoEmptyValues(rows, feature)
    ensures FindsWinner(Winner(items, feature), rows, env, feature)
  {
    forall a | a in items && a.feature.name == feature ensures Candidate(rows, env, feature, a) {
      assert LatestInGroup(rows, a);
      ContainmentsAgree(env.labels, a.target);
    }
    forall a | Candidate(rows, env, feature, a) ensures HasPeer(items, feature, a) {
      forall k | k in a.target.Keys ensures k in env.labels.Keys {
        assert a.target[k] != "";
      }
      ContainmentsAgree(env.labels, a.target);
      assert GroupListed(items, a);
      var b :| b in items && SameGroup(a, b);
      assert LatestInGroup(rows, b) && SameGroup(b, a);
    }
    RepresentativesSuffice(items, rows, env, feature);
  }

  /** No two active targets of the feature share a key. */
  ghost predicate DistinctKeys(rows: seq<Row>, feature: string) {
    forall a, b :: SharesKey(rows, feature, a, b) ==> a.target == b.target
  }

  ghost predicate SharesKey(rows: seq<Row>, feature: string, a: Assignment, b: Assignment) {
    && a in Active(rows) && b in Active(rows) && a.feature.name == feature == b.feature.name
    && TargetKeyOf(a.target) == TargetKeyOf(b.target)
  }

  /** What labels of the usual form satisfy: the active targets of the feature have clean
      labels and no empty values. */
  ghost predicate CleanTargets(rows: seq<Row>, feature: string) {
    && NoEmptyValues(rows, feature)
    && forall a :: a in Active(rows) && a.feature.name == feature ==> CleanLabels(a.target)
  }

  lemma {:induction false} CleanTargetsAreDistinct(rows: seq<Row>, feature: string)
    requires CleanTargets(rows, feature)
    ensures DistinctKeys(rows, feature)
  {
    forall a, b | SharesKey(rows, feature, a, b) ensures a.target == b.target {
      TargetKeyInjective(a.target, b.target);
    }
  }

  /** So does the feature page, where no two targets share a key. */
  lemma {:induction false} FeaturePageFindsWinner(rows: seq<Row>, env: Environment, feature: string,
                                                  items: seq<Assignment>, latest: seq<Assignment>)
    requires ActiveNewestFirst(rows, feature, items) && FirstPerTarget(items, latest)
    requires DistinctKeys(rows, feature)
    ensures FindsWinner(Winner(Matching(latest, env), feature), rows, env, feature)
  {
    var matched := Matching(latest, env);
    MatchingMembers(latest, env);
    forall a | a in latest ensures a in items {
      var i: nat :| FirstAt(items, i, a);
    }
    forall a | Candidate(rows, env, feature, a) ensures HasPeer(matched, feature, a) {
      NewestOfKey(rows, env, feature, items, latest, a);
    }
    RepresentativesSuffice(matched, rows, env, feature);
  }

  lemma {:induction false} NewestOfKey(rows: seq<Row>, env: Environment, feature: string,
                                       items: seq<Assignment>, latest: seq<Assignment>, a: Assignment)
    requires ActiveNewestFirst(rows, feature, items) && FirstPerTarget(items, latest)
    requires DistinctKeys(rows, feature) && Candidate(rows, env, feature, a)
    ensures HasPeer(Matching(latest, env), feature, a)
  {
    MatchingMembers(latest, env);
    assert a in items;
    var i :| 0 <= i < |items| && items[i] == a;
    var j := FirstOccurrence(items, i);
    var b := items[j];
    assert b in items && FirstAt(items, j, b);
    assert SharesKey(rows, feature, a, b);
    assert b.target == a.target && b in latest;
  }

  lemma {:induction false} FirstOccurrence(fas: seq<Assignment>, i: nat) returns (j: nat)
    requires i < |fas|
    ensures j <= i && TargetKeyOf(fas[j].target) == TargetKeyOf(fas[i].target) && FirstWithKey(fas, j)
  {
    if FirstWithKey(fas, i) {
      j := i;
    } else {
      var k :| 0 <= k < i && TargetKeyOf(fas[k].target) == TargetKeyOf(fas[i].target);
      j := FirstOccurrence(fas, k);
    }
  }

  /** All three find the same assignment, or all three find none. */
  lemma {:induction false} ThreeWaysOneWinner(rows: seq<Row>, env: Environment, feature: string,
                                              bulk: seq<Assignment>, listed: seq<Assignment>,
                                              items: seq<Assignment>, latest: seq<Assignment>)
    requires LatestAssignments(rows, bulk) && LatestForEnvironment(rows, env, listed)
    requires ActiveNewestFirst(rows, feature, items) && FirstPerTarget(items, latest)
    requires DistinctTimes(rows) && NoEmptyValues(rows, feature) && DistinctKeys(rows, feature)
    ensures Winner(Matching(bulk, env), feature) == Winner(listed, feature) == Winner(Matching(latest, env), feature)
  {
    ReconcilerFindsWinner(rows, env, feature, bulk);
    EnvironmentListFindsWinner(rows, env, feature, listed);
    FeaturePageFindsWinner(rows, env, feature, items, latest);
    SameFind(rows, env, feature, Winner(Matching(bulk, env), feature), Winner(listed, feature));
    SameFind(rows, env, feature, Winner(listed, feature), Winner(Matching(latest, env), feature));
  }

  lemma {:induction false} SameFind(rows: seq<Row>, env: Environment, feature: string, x: Option<Assignment>,
                                    y: Option<Assignment>)
    requires DistinctTimes(rows) && FindsWinner(x, rows, env, feature) && FindsWinner(y, rows, env, feature)
    ensures x == y
  {
    if x.Some? && y.Some? {
      AppliesUnique(rows, env, feature, x.value, y.value);
    }
  }
}
