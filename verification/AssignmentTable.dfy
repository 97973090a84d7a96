/** Creating and deactivating assignments, and what that does to the winners. */
module AssignmentTable {
  import opened Model
  import opened Winners

  /** UPDATE ... SET active = FALSE WHERE feature_name = $1 AND target = $2 AND active. */
  function DeactivatedGroup(rows: seq<Row>, feature: string, target: Labels): seq<Row> {
    seq(|rows|, i requires 0 <= i < |rows| =>
      if rows[i].assignment.feature.name == feature && rows[i].assignment.target == target
      then rows[i].(active := false) else rows[i])
  }

  function DeactivatedId(rows: seq<Row>, id: AssignmentId): seq<Row> {
    seq(|rows|, i requires 0 <= i < |rows| =>
      if rows[i].assignment.id == id then rows[i].(active := false) else rows[i])
  }

  function Created(rows: seq<Row>, a: Assignment): seq<Row> {
    DeactivatedGroup(rows, a.feature.name, a.target) + [Row(a, true)]
  }

  /** The unique index of the table: one active row per feature and target. */
  ghost predicate OneActivePerTarget(rows: seq<Row>) {
    forall i, j :: 0 <= i < j < |rows| && rows[i].active && rows[j].active ==>
      !SameGroup(rows[i].assignment, rows[j].assignment)
  }

  /** Every row is still there, with its assignment, and none is activated again. */
  predicate KeepsHistory(before: seq<Row>, after: seq<Row>) {
    |before| <= |after| && forall i :: 0 <= i < |before| ==>
      after[i].assignment == before[i].assignment && (after[i].active ==> before[i].active)
  }

  class FeatureAssignments {
    var rows: seq<Row>

    constructor ()
      ensures rows == []
    {
      rows := [];
    }

    /** createFeatureAssignment: deactivate the target's active row, insert the new one. */
    method Create(feature: Feature, target: Labels, id: AssignmentId, now: int)
      requires OneActivePerTarget(rows)
      modifies this
      ensures rows == Created(old(rows), Assignment(id, feature, target, now))
      ensures OneActivePerTarget(rows)
      ensures var a := Assignment(id, feature, target, now);
              forall b :: b in Active(rows) <==> b == a || (b in Active(old(rows)) && !SameGroup(a, b))
      ensures KeepsHistory(old(rows), rows) && |rows| == |old(rows)| + 1
    {
      DeactivateByFeatureAndTarget(feature.name, target);
      rows := rows + [Row(Assignment(id, feature, target, now), true)];
      CreateKeepsIndex(old(rows), Assignment(id, feature, target, now));
      ActiveAfterCreate(old(rows), Assignment(id, feature, target, now));
    }

    method Deactivate(id: AssignmentId)
      requires OneActivePerTarget(rows)
      modifies this
      ensures rows == DeactivatedId(old(rows), id)
      ensures OneActivePerTarget(rows)
      ensures forall b :: b in Active(rows) <==> b in Active(old(rows)) && b.id != id
      ensures KeepsHistory(old(rows), rows) && |rows| == |old(rows)|
    {
      rows := DeactivatedId(rows, id);
      ActiveAfterDeactivate(old(rows), id);
    }

    method DeactivateByFeatureAndTarget(feature: string, target: Labels)
      requires OneActivePerTarget(rows)
      modifies this
      ensures rows == DeactivatedGroup(old(rows), feature, target)
      ensures OneActivePerTarget(rows)
      ensures forall b :: b in Active(rows) <==>
              b in Active(old(rows)) && !(b.feature.name == feature && b.target == target)
      ensures KeepsHistory(old(rows), rows) && |rows| == |old(rows)|
    {
      rows := DeactivatedGroup(rows, feature, target);
      ActiveAfterDeactivation(old(rows), feature, target);
    }
  }

  lemma {:induction false} CreateKeepsIndex(rows: seq<Row>, a: Assignment)
    requires OneActivePerTarget(rows)
    ensures OneActivePerTarget(Created(rows, a))
  {
    var after := Created(rows, a);
    forall i, j | 0 <= i < j < |after| && after[i].active && after[j].active
      ensures !SameGroup(after[i].assignment, after[j].assignment)
    {
      if j < |rows| {
        assert after[i] == rows[i] && after[j] == rows[j];
      }
    }
  }

  lemma {:induction false} ActiveAfterDeactivate(rows: seq<Row>, id: AssignmentId)
    ensures forall b :: b in Active(DeactivatedId(rows, id)) <==> b in Active(rows) && b.id != id
  {
    var after := DeactivatedId(rows, id);
    forall b | b in Active(rows) && b.id != id ensures b in Active(after) {
      var i :| 0 <= i < |rows| && rows[i].active && rows[i].assignment == b;
      assert after[i] == rows[i];
    }
    forall b | b in Active(after) ensures b in Active(rows) && b.id != id {
      var i :| 0 <= i < |after| && after[i].active && after[i].assignment == b;
      assert after[i] == rows[i];
    }
  }

  lemma {:induction false} ActiveAfterDeactivation(rows: seq<Row>, feature: string, target: Labels)
    ensures forall b :: b in Active(DeactivatedGroup(rows, feature, target)) <==>
              b in Active(rows) && !(b.feature.name == feature && b.target == target)
  {
    var after := DeactivatedGroup(rows, feature, target);
    forall b | b in Active(rows) && !(b.feature.name == feature && b.target == target) ensures b in Active(after) {
      var i :| 0 <= i < |rows| && rows[i].active && rows[i].assignment == b;
      assert after[i] == rows[i];
    }
    forall b | b in Active(after) ensures b in Active(rows) && !(b.feature.name == feature && b.target == target) {
      var i :| 0 <= i < |after| && after[i].active && after[i].assignment == b;
      assert after[i] == rows[i];
    }
  }

  lemma {:induction false} ActiveAfterCreate(rows: seq<Row>, a: Assignment)
    ensures forall b :: b in Active(Created(rows, a)) <==> b == a || (b in Active(rows) && !SameGroup(a, b))
  {
    var kept := DeactivatedGroup(rows, a.feature.name, a.target);
    var after := Created(rows, a);
    ActiveAfterDeactivation(rows, a.feature.name, a.target);
    assert after[|kept|] == Row(a, true);
    forall b ensures b in Active(after) <==> b == a || b in Active(kept) {
      if b in Active(after) {
        var i :| 0 <= i < |after| && after[i].active && after[i].assignment == b;
        assert i < |kept| ==> kept[i] == after[i];
      }
      if b in Active(kept) {
        var i :| 0 <= i < |kept| && kept[i].active && kept[i].assignment == b;
        assert after[i] == kept[i];
      }
    }
  }

  // ----- Main results -----

  /** A new assignment applies to exactly the environments its target matches and no
      active assignment with more target labels matches. */
  lemma {:induction false} CreateApplies(rows: seq<Row>, a: Assignment, env: Environment)
    requires forall b :: b in Active(rows) ==> b.created < a.created
    ensures Applies(Created(rows, a), env, a.feature.name, a) <==>
            LabelsContain(env.labels, a.target) &&
            forall b :: Candidate(rows, env, a.feature.name, b) ==> |b.target| <= |a.target|
  {
    ActiveAfterCreate(rows, a);
    var after, f := Created(rows, a), a.feature.name;
    if Applies(after, env, f, a) {
      forall b | Candidate(rows, env, f, b) ensures |b.target| <= |a.target| {
        assert !SameGroup(a, b) ==> Candidate(after, env, f, b);
      }
    }
    if LabelsContain(env.labels, a.target) && forall b :: Candidate(rows, env, f, b) ==> |b.target| <= |a.target| {
      forall b | Candidate(after, env, f, b) ensures !Beats(b, a) {
        assert b != a ==> Candidate(rows, env, f, b);
      }
    }
  }

  /** Creating an assignment changes no other feature's winners. */
  lemma {:induction false} CreateLeavesOtherFeatures(rows: seq<Row>, a: Assignment, env: Environment, feature: string,
                                                     w: Assignment)
    requires feature != a.feature.name
    ensures Applies(Created(rows, a), env, feature, w) <==> Applies(rows, env, feature, w)
  {
    ActiveAfterCreate(rows, a);
    assert forall b :: Candidate(Created(rows, a), env, feature, b) <==> Candidate(rows, env, feature, b);
  }

  /** Deactivating a target after a create removes the new assignment, but does not bring
      back the one the create replaced. */
  lemma {:induction false} DeactivateDoesNotUndoCreate(rows: seq<Row>, a: Assignment)
    ensures Active(DeactivatedGroup(Created(rows, a), a.feature.name, a.target)) ==
            Active(DeactivatedGroup(rows, a.feature.name, a.target))
  {
    ActiveAfterCreate(rows, a);
    ActiveAfterDeactivation(Created(rows, a), a.feature.name, a.target);
    ActiveAfterDeactivation(rows, a.feature.name, a.target);
  }
}
