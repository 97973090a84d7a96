/** The decision log: change detection, and what the log says about a run of cycles. */
module DecisionLog {
  import opened Basics
  import opened Model
  import opened Compute

  datatype DecisionRow = DecisionRow(
    environment: EnvId,
    assignment: AssignmentId,
    feature: string,
    version: string,
    action: Action,
    message: string)

  function PairOf(r: DecisionRow): Pair {
    Pair(r.environment, r.feature)
  }

  /** The part of a decision the log keeps, and change detection compares. */
  function RowOf(d: Decision): DecisionRow {
    DecisionRow(d.environment, d.assignment, d.feature.name, d.feature.version, d.action, d.message)
  }

  function RowsOf(log: seq<DecisionRow>, p: Pair): seq<DecisionRow> {
    if log == [] then []
    else
      var n := |log| - 1;
      RowsOf(log[..n], p) + if PairOf(log[n]) == p then [log[n]] else []
  }

  /** The decision_status view: the last row of each pair. */
  function LatestRow(log: seq<DecisionRow>, p: Pair): Option<DecisionRow> {
    if log == [] then None
    else
      var n := |log| - 1;
      if PairOf(log[n]) == p then Some(log[n]) else LatestRow(log[..n], p)
  }

  ghost predicate IsCurrent(log: seq<DecisionRow>, current: map<Pair, DecisionRow>) {
    forall p :: LatestRow(log, p) == if p in current then Some(current[p]) else None
  }

  /** The rows of the results that differ from their pair's row in the view. */
  function Changed(log: seq<DecisionRow>, results: seq<Decision>): seq<DecisionRow> {
    if results == [] then []
    else
      var n := |results| - 1;
      var row := RowOf(results[n]);
      Changed(log, results[..n]) + if LatestRow(log, PairOf(row)) == Some(row) then [] else [row]
  }

  /** decision_log with decision_current, which a trigger maintains. */
  class DecisionTable {
    var log: seq<DecisionRow>
    var current: map<Pair, DecisionRow>

    ghost predicate Valid()
      reads this
    {
      IsCurrent(log, current)
    }

    constructor ()
      ensures Valid() && log == []
    {
      log, current := [], map[];
    }

    method AppendDecisions(rows: seq<DecisionRow>)
      requires Valid()
      modifies this
      ensures Valid() && log == old(log) + rows
    {
      for i := 0 to |rows|
        invariant Valid() && log == old(log) + rows[..i]
      {
        var row := rows[i];
        assert rows[..i + 1] == rows[..i] + [row];
        assert (log + [row])[..|log|] == log;
        log := log + [row];
        current := current[PairOf(row) := row];
      }
    }

    /** One row per pair; their order does not matter to the reader. */
    method ListLatestDecisions() returns (rows: seq<DecisionRow>)
      requires Valid()
      ensures forall r :: r in rows <==> LatestRow(log, PairOf(r)) == Some(r)
    {
      var pairs := RangeKeys(current.Keys);
      rows := [];
      for i := 0 to |pairs|
        invariant forall r :: r in rows <==> PairOf(r) in pairs[..i] && current[PairOf(r)] == r
      {
        LatestRowPair(log, pairs[i]);
        rows := rows + [current[pairs[i]]];
      }
      assert pairs[..|pairs|] == pairs;
    }

    method WriteResultLogs(results: seq<Decision>)
      requires Valid()
      modifies this
      ensures Valid() && log == old(log) + Changed(old(log), results)
    {
      var latest := ListLatestDecisions();
      var prev: map<Pair, DecisionRow> := map[];
      for i := 0 to |latest|
        invariant forall p :: p in prev ==> prev[p] in latest[..i] && PairOf(prev[p]) == p
        invariant forall k :: 0 <= k < i ==> PairOf(latest[k]) in prev
      {
        prev := prev[PairOf(latest[i]) := latest[i]];
      }
      PrevIsView(log, latest, prev);
      var changed: seq<DecisionRow> := [];
      for i := 0 to |results|
        invariant changed == Changed(log, results[..i])
        invariant log == old(log) && Valid()
      {
        assert results[..i + 1][..i] == results[..i];
        var res := results[i];
        var key := Pair(res.environment, res.feature.name);
        if key in prev
           && prev[key].assignment == res.assignment
           && prev[key].version == res.feature.version
           && prev[key].action == res.action
           && prev[key].message == res.message
        {
          assert prev[key] == RowOf(res);
          continue;
        }
        changed := changed + [DecisionRow(res.environment, res.assignment, res.feature.name, res.feature.version,
                                          res.action, res.message)];
      }
      assert results[..|results|] == results;
      if |changed| > 0 {
        AppendDecisions(changed);
      }
    }
  }

  lemma {:induction false} LatestRowPair(log: seq<DecisionRow>, p: Pair)
    ensures LatestRow(log, p).Some? ==> PairOf(LatestRow(log, p).value) == p
  {
    if log != [] {
      LatestRowPair(log[..|log| - 1], p);
    }
  }

  lemma {:induction false} PrevIsView(log: seq<DecisionRow>, latest: seq<DecisionRow>, prev: map<Pair, DecisionRow>)
    requires forall r :: r in latest <==> LatestRow(log, PairOf(r)) == Some(r)
    requires forall p :: p in prev ==> prev[p] in latest && PairOf(prev[p]) == p
    requires forall k :: 0 <= k < |latest| ==> PairOf(latest[k]) in prev
    ensures IsCurrent(log, prev)
  {
    forall p | p in prev ensures LatestRow(log, p) == Some(prev[p]) {
      assert prev[p] in latest;
    }
    forall p | LatestRow(log, p).Some? ensures p in prev {
      LatestRowPair(log, p);
      var r := LatestRow(log, p).value;
      assert r in latest;
      var k :| 0 <= k < |latest| && latest[k] == r;
      assert PairOf(latest[k]) in prev;
    }
  }

  // ----- What is written -----

  predicate IsOf(r: DecisionRow, p: Pair) {
    r.environment == p.environment && r.feature == p.feature
  }

  /** The view shows of each pair the row after which the pair has no other. */
  lemma {:induction false} LatestRowByIndex(log: seq<DecisionRow>, p: Pair)
    ensures match LatestRow(log, p)
            case None => forall i :: 0 <= i < |log| ==> !IsOf(log[i], p)
            case Some(r) => exists i ::
              0 <= i < |log| && log[i] == r && IsOf(r, p) && forall j :: i < j < |log| ==> !IsOf(log[j], p)
  {
    if log != [] {
      var n := |log| - 1;
      LatestRowByIndex(log[..n], p);
      if PairOf(log[n]) != p && LatestRow(log[..n], p).Some? {
        var i :|
          0 <= i < n && log[..n][i] == LatestRow(log, p).value && IsOf(log[i], p) &&
          forall j :: i < j < n ==> !IsOf(log[..n][j], p);
        assert forall j :: i < j < |log| ==> !IsOf(log[j], p);
      }
    }
  }

  /** The row records the decision: whom it is about, the assignment and version, what was
      decided and why. */
  predicate Records(r: DecisionRow, d: Decision) {
    && r.environment == d.environment && r.feature == d.feature.name
    && r.assignment == d.assignment && r.version == d.feature.version
    && r.action == d.action && r.message == d.message
  }

  /** The decision is not what the view shows: there is no row of its pair, or one that
      differs in assignment, version, action or message. */
  predicate IsNews(log: seq<DecisionRow>, d: Decision) {
    match LatestRow(log, Pair(d.environment, d.feature.name))
    case None => true
    case Some(r) =>
      || r.assignment != d.assignment || r.version != d.feature.version
      || r.action != d.action || r.message != d.message
  }

  lemma {:induction false} NewsIsChange(log: seq<DecisionRow>, d: Decision)
    ensures IsNews(log, d) <==> LatestRow(log, PairOf(RowOf(d))) != Some(RowOf(d))
  {
    LatestRowPair(log, PairOf(RowOf(d)));
  }

  /** The rows are the records of the results at these positions. */
  predicate RecordsAt(rows: seq<DecisionRow>, results: seq<Decision>, which: seq<nat>) {
    Picks(which, |results|) && |which| == |rows| &&
    forall k :: 0 <= k < |which| ==> Records(rows[k], results[which[k]])
  }

  lemma {:induction false} RecordsNext(rows: seq<DecisionRow>, results: seq<Decision>, which: seq<nat>, take: bool)
    requires results != [] && RecordsAt(rows, results[..|results| - 1], which)
    ensures var n := |results| - 1;
            RecordsAt(rows + if take then [RowOf(results[n])] else [], results, PickNext(which, n, take))
  {
    PicksNext(which, |results| - 1, take);
  }

  /** The rows appended are those of the decisions that are news, in the order of the
      results. */
  lemma {:induction false} AppendsNews(log: seq<DecisionRow>, results: seq<Decision>) returns (which: seq<nat>)
    ensures RecordsAt(Changed(log, results), results, which)
    ensures forall i: nat :: i in which <==> i < |results| && IsNews(log, results[i])
  {
    if results == [] {
      which := [];
    } else {
      var n := |results| - 1;
      var earlier := AppendsNews(log, results[..n]);
      var take := IsNews(log, results[n]);
      NewsIsChange(log, results[n]);
      RecordsNext(Changed(log, results[..n]), results, earlier, take);
      PicksNext(earlier, n, take);
      which := PickNext(earlier, n, take);
      forall i: nat ensures i in which <==> i < |results| && IsNews(log, results[i]) {
        assert i < n ==> results[..n][i] == results[i];
      }
    }
  }

  /** After a cycle with one decision per pair the view shows each decision as it is, and a
      row was appended for it exactly if it was news. */
  lemma {:induction false} WrittenExactly(log: seq<DecisionRow>, results: seq<Decision>, d: Decision)
    requires OnePerPair(results) && d in results
    ensures var shown := LatestRow(log + Changed(log, results), Pair(d.environment, d.feature.name));
            shown.Some? && Records(shown.value, d)
    ensures (exists r :: r in Changed(log, results) && IsOf(r, Pair(d.environment, d.feature.name))) <==> IsNews(log, d)
  {
    var i :| 0 <= i < |results| && results[i] == d;
    var p := PairOf(RowOf(d));
    ChangedRows(log, results, p);
    DecidedRowsOf(results, i);
    NewsIsChange(log, d);
    RowsOfAppended(log, Changed(log, results), p);
    LatestIsLastRow(log + Changed(log, results), p);
    LatestIsLastRow(log, p);
    InRowsOf(Changed(log, results), p);
  }

  lemma {:induction false} InRowsOf(log: seq<DecisionRow>, p: Pair)
    ensures (exists r :: r in log && IsOf(r, p)) <==> RowsOf(log, p) != []
  {
    if log != [] {
      var n := |log| - 1;
      InRowsOf(log[..n], p);
      assert log == log[..n] + [log[n]];
      if IsOf(log[n], p) {
        assert log[n] in log;
      } else {
        assert forall r :: r in log && IsOf(r, p) ==> r in log[..n];
        assert forall r :: r in log[..n] ==> r in log;
      }
    }
  }

  // ----- Runs -----

  /** One reconcile cycle: its results, and whether the append succeeded. */
  datatype Cycle = Cycle(results: seq<Decision>, stored: bool)

  ghost function LogAfter(log: seq<DecisionRow>, run: seq<Cycle>): seq<DecisionRow> {
    if run == [] then log
    else
      var n := |run| - 1;
      var before := LogAfter(log, run[..n]);
      if run[n].stored then before + Changed(before, run[n].results) else before
  }

  /** What the cycles decided for a pair, oldest first. */
  ghost function Decided(run: seq<Cycle>, p: Pair): seq<DecisionRow> {
    if run == [] then []
    else
      var n := |run| - 1;
      Decided(run[..n], p) + if run[n].stored then DecidedRows(run[n].results, p) else []
  }

  ghost function DecidedRows(results: seq<Decision>, p: Pair): seq<DecisionRow> {
    if results == [] then []
    else
      var n := |results| - 1;
      DecidedRows(results[..n], p) + if PairOf(RowOf(results[n])) == p then [RowOf(results[n])] else []
  }

  /** A history with each run of equal neighbours reduced to one. */
  ghost function Destutter(rows: seq<DecisionRow>): seq<DecisionRow> {
    if rows == [] then []
    else
      var n := |rows| - 1;
      var before := Destutter(rows[..n]);
      if before != [] && before[|before| - 1] == rows[n] then before else before + [rows[n]]
  }

  ghost predicate StutterFree(log: seq<DecisionRow>) {
    forall p :: NeighboursDiffer(RowsOf(log, p))
  }

  ghost predicate NeighboursDiffer(rows: seq<DecisionRow>) {
    forall i :: 0 <= i < |rows| - 1 ==> rows[i] != rows[i + 1]
  }

  lemma {:induction false} RowsOfAppended(a: seq<DecisionRow>, b: seq<DecisionRow>, p: Pair)
    ensures RowsOf(a + b, p) == RowsOf(a, p) + RowsOf(b, p)
  {
    if b == [] {
      assert a + b == a;
    } else {
      var n := |b| - 1;
      assert (a + b)[..|a + b| - 1] == a + b[..n];
      RowsOfAppended(a, b[..n], p);
    }
  }

  lemma {:induction false} LatestIsLastRow(log: seq<DecisionRow>, p: Pair)
    ensures var rows := RowsOf(log, p);
            LatestRow(log, p) == if rows == [] then None else Some(rows[|rows| - 1])
  {
    if log != [] {
      LatestIsLastRow(log[..|log| - 1], p);
    }
  }

  lemma {:induction false} NotDecided(results: seq<Decision>, p: Pair)
    requires forall i :: 0 <= i < |results| ==> PairOf(RowOf(results[i])) != p
    ensures DecidedRows(results, p) == []
  {
    if results != [] {
      NotDecided(results[..|results| - 1], p);
    }
  }

  lemma {:induction false} DecidedOnce(results: seq<Decision>, p: Pair)
    requires OnePerPair(results)
    ensures |DecidedRows(results, p)| <= 1
  {
    if results != [] {
      var n := |results| - 1;
      if PairOf(RowOf(results[n])) == p {
        NotDecided(results[..n], p);
      } else {
        DecidedOnce(results[..n], p);
      }
    }
  }

  lemma {:induction false} DecidedRowsOf(results: seq<Decision>, i: nat)
    requires OnePerPair(results) && i < |results|
    ensures DecidedRows(results, PairOf(RowOf(results[i]))) == [RowOf(results[i])]
  {
    var n := |results| - 1;
    var p := PairOf(RowOf(results[i]));
    if i == n {
      NotDecided(results[..n], p);
    } else {
      DecidedRowsOf(results[..n], i);
    }
  }

  ghost function Unless(view: Option<DecisionRow>, rows: seq<DecisionRow>): seq<DecisionRow> {
    if rows != [] && view != Some(rows[0]) then rows else []
  }

  /** Of one pair, a cycle appends its decision unless the view already shows it. */
  lemma {:induction false} ChangedRows(log: seq<DecisionRow>, results: seq<Decision>, p: Pair)
    requires OnePerPair(results)
    ensures RowsOf(Changed(log, results), p) == Unless(LatestRow(log, p), DecidedRows(results, p))
  {
    if results != [] {
      var n := |results| - 1;
      var row := RowOf(results[n]);
      var last := if LatestRow(log, PairOf(row)) == Some(row) then [] else [row];
      ChangedRows(log, results[..n], p);
      RowsOfAppended(Changed(log, results[..n]), last, p);
      if PairOf(row) == p {
        NotDecided(results[..n], p);
      }
    }
  }

  lemma {:induction false} DestutterNeighbours(rows: seq<DecisionRow>)
    ensures NeighboursDiffer(Destutter(rows))
    ensures rows != [] ==> Destutter(rows) != [] && Destutter(rows)[|Destutter(rows)| - 1] == rows[|rows| - 1]
  {
    if rows != [] {
      DestutterNeighbours(rows[..|rows| - 1]);
    }
  }

  /** Over any run of cycles the log of a pair is the history of its decisions with
      repetitions removed: nothing is lost, nothing is recorded twice. */
  lemma {:induction false} LogIsDestutteredHistory(run: seq<Cycle>, p: Pair)
    requires forall c :: c in run ==> OnePerPair(c.results)
    ensures RowsOf(LogAfter([], run), p) == Destutter(Decided(run, p))
  {
    if run != [] {
      var n := |run| - 1;
      var c := run[n];
      var before := LogAfter([], run[..n]);
      LogIsDestutteredHistory(run[..n], p);
      if c.stored {
        RowsOfAppended(before, Changed(before, c.results), p);
        ChangedRows(before, c.results, p);
        LatestIsLastRow(before, p);
        DecidedOnce(c.results, p);
        var now := DecidedRows(c.results, p);
        if now == [] {
          assert Decided(run, p) == Decided(run[..n], p);
        } else {
          assert now == [now[0]];
          assert Decided(run, p)[..|Decided(run, p)| - 1] == Decided(run[..n], p);
        }
      } else {
        assert Decided(run, p) == Decided(run[..n], p);
      }
    }
  }

  lemma {:induction false} RunsAreStutterFree(run: seq<Cycle>)
    requires forall c :: c in run ==> OnePerPair(c.results)
    ensures StutterFree(LogAfter([], run))
  {
    forall p ensures NeighboursDiffer(RowsOf(LogAfter([], run), p)) {
      LogIsDestutteredHistory(run, p);
      DestutterNeighbours(Decided(run, p));
    }
  }

  /** After a cycle the view shows the cycle's decisions, and what it showed before for
      the pairs the cycle did not decide. */
  lemma {:induction false} ViewAfterCycle(log: seq<DecisionRow>, results: seq<Decision>, p: Pair)
    requires OnePerPair(results)
    ensures var after := LatestRow(log + Changed(log, results), p);
            && (forall d :: d in results && PairOf(RowOf(d)) == p ==> after == Some(RowOf(d)))
            && ((forall d :: d in results ==> PairOf(RowOf(d)) != p) ==> after == LatestRow(log, p))
  {
    RowsOfAppended(log, Changed(log, results), p);
    ChangedRows(log, results, p);
    LatestIsLastRow(log, p);
    LatestIsLastRow(log + Changed(log, results), p);
    forall d | d in results && PairOf(RowOf(d)) == p
      ensures LatestRow(log + Changed(log, results), p) == Some(RowOf(d))
    {
      var i :| 0 <= i < |results| && results[i] == d;
      DecidedRowsOf(results, i);
    }
    if forall d :: d in results ==> PairOf(RowOf(d)) != p {
      NotDecided(results, p);
    }
  }

  lemma {:induction false} NothingChanged(log: seq<DecisionRow>, results: seq<Decision>)
    requires forall d :: d in results ==> LatestRow(log, PairOf(RowOf(d))) == Some(RowOf(d))
    ensures Changed(log, results) == []
  {
    if results != [] {
      NothingChanged(log, results[..|results| - 1]);
      assert results[|results| - 1] in results;
    }
  }

  /** Writing the same results again, in whatever order they arrive, appends nothing. */
  lemma {:induction false} RepeatingAppendsNothing(log: seq<DecisionRow>, results: seq<Decision>, again: seq<Decision>)
    requires OnePerPair(results) && forall d :: d in again ==> d in results
    ensures Changed(log + Changed(log, results), again) == []
  {
    var after := log + Changed(log, results);
    forall d | d in again ensures LatestRow(after, PairOf(RowOf(d))) == Some(RowOf(d)) {
      ViewAfterCycle(log, results, PairOf(RowOf(d)));
    }
    NothingChanged(after, again);
  }

  lemma {:induction false} ChangedFromEmpty(results: seq<Decision>)
    ensures |Changed([], results)| == |results|
    ensures forall i :: 0 <= i < |results| ==> Changed([], results)[i] == RowOf(results[i])
  {
    if results != [] {
      ChangedFromEmpty(results[..|results| - 1]);
    }
  }

  lemma {:induction false} RowsOfOne(row: DecisionRow)
    ensures RowsOf([row], PairOf(row)) == [row]
  {
    assert [row][..0] == [];
  }

  /** Change detection alone does not do it: it compares with the view of the previous
      cycle, so two equal decisions for one pair would both be written. */
  lemma {:induction false} StutterNeedsOnePerPair(d: Decision)
    ensures !OnePerPair([d, d]) && !StutterFree(Changed([], [d, d]))
  {
    var row := RowOf(d);
    ChangedFromEmpty([d, d]);
    assert Changed([], [d, d]) == [row] + [row];
    RowsOfAppended([row], [row], PairOf(row));
    RowsOfOne(row);
    var rows := RowsOf(Changed([], [d, d]), PairOf(row));
    assert rows[0] == rows[1] && !NeighboursDiffer(rows);
    assert [d, d][0].environment == [d, d][1].environment;
  }
}
