/** deploy_current and decision_current: a table kept by an insert trigger in place of a
    DISTINCT ON over the whole log. */
module CurrentView {

  /** A log row: the pair it is about, the transaction's time, the serial id, the rest. */
  datatype LogRow<K, V> = LogRow(pair: K, created: int, id: int, content: V)

  predicate After<K, V>(a: LogRow<K, V>, b: LogRow<K, V>) {
    a.created > b.created || (a.created == b.created && a.id > b.id)
  }

  ghost predicate UniqueIds<K, V>(rows: seq<LogRow<K, V>>) {
    forall i, j :: 0 <= i < j < |rows| ==> rows[i].id != rows[j].id
  }

  /** DISTINCT ON (pair) ORDER BY created DESC, id DESC. */
  ghost predicate IsLatest<K, V>(r: LogRow<K, V>, rows: seq<LogRow<K, V>>) {
    r in rows && forall s :: s in rows && s.pair == r.pair && s != r ==> After(r, s)
  }

  ghost predicate ShowsLatest<K, V>(current: map<K, LogRow<K, V>>, rows: seq<LogRow<K, V>>) {
    && (forall r :: r in rows ==> r.pair in current)
    && (forall p :: p in current ==> current[p].pair == p && IsLatest(current[p], rows))
  }

  lemma {:induction false} NewId<K, V>(rows: seq<LogRow<K, V>>, row: LogRow<K, V>)
    requires UniqueIds(rows + [row])
    ensures forall r :: r in rows ==> r.id != row.id
  {
    var all := rows + [row];
    forall r | r in rows ensures r.id != row.id {
      var k :| 0 <= k < |rows| && rows[k] == r;
      assert all[k].id != all[|rows|].id;
    }
  }

  lemma {:induction false} AfterAsymmetric<K, V>(a: LogRow<K, V>, b: LogRow<K, V>)
    ensures !After(a, b) || !After(b, a)
  {}

  /** The trigger, once per inserted row: insert, or update where the guard holds. */
  method OnInsert<K(==), V>(current: map<K, LogRow<K, V>>, row: LogRow<K, V>, ghost rows: seq<LogRow<K, V>>)
    returns (now: map<K, LogRow<K, V>>)
    requires ShowsLatest(current, rows) && UniqueIds(rows + [row])
    ensures ShowsLatest(now, rows + [row])
  {
    NewId(rows, row);
    if row.pair !in current {
      now := current[row.pair := row];
    } else if After(row, current[row.pair]) {
      now := current[row.pair := row];
    } else {
      now := current;
    }
  }

  /** Inserting a whole log gives its view, whatever the order of the commits. */
  method InsertAll<K(==), V>(rows: seq<LogRow<K, V>>) returns (current: map<K, LogRow<K, V>>)
    requires UniqueIds(rows)
    ensures ShowsLatest(current, rows)
  {
    current := map[];
    for n := 0 to |rows|
      invariant ShowsLatest(current, rows[..n])
    {
      assert rows[..n + 1] == rows[..n] + [rows[n]];
      current := OnInsert(current, rows[n], rows[..n]);
    }
    assert rows[..|rows|] == rows;
  }

  /** There is one such table per set of rows: reordering the commits cannot be seen. */
  lemma {:induction false} ViewUnique<K, V>(a: map<K, LogRow<K, V>>, b: map<K, LogRow<K, V>>, rows: seq<LogRow<K, V>>,
                                            reordered: seq<LogRow<K, V>>)
    requires multiset(rows) == multiset(reordered)
    requires ShowsLatest(a, rows) && ShowsLatest(b, reordered)
    ensures a == b
  {
    forall r ensures r in rows <==> r in reordered {
      assert r in rows <==> r in multiset(rows);
    }
    forall p ensures p in a <==> p in b {
      if p in a {
        assert a[p] in reordered;
      }
      if p in b {
        assert b[p] in rows;
      }
    }
    forall p | p in a ensures a[p] == b[p] {
      assert a[p] in reordered && b[p] in rows;
      AfterAsymmetric(a[p], b[p]);
    }
  }

  /** Where rows arrive in order, the view is the last row of each pair. */
  lemma {:induction false} InOrderLastRow<K, V>(current: map<K, LogRow<K, V>>, rows: seq<LogRow<K, V>>, i: nat)
    requires ShowsLatest(current, rows) && i < |rows|
    requires forall j, k :: 0 <= j < k < |rows| ==> After(rows[k], rows[j])
    requires forall k :: i < k < |rows| ==> rows[k].pair != rows[i].pair
    ensures rows[i].pair in current && current[rows[i].pair] == rows[i]
  {
    assert rows[i] in rows;
    var r := current[rows[i].pair];
    var k :| 0 <= k < |rows| && rows[k] == r;
    assert k <= i;
    AfterAsymmetric(r, rows[i]);
  }

  /** A row of the table is the newest of its pair: no other one was created later, and of
      those created at the same time none has a larger id. */
  lemma {:induction false} ShowsNewest<K, V>(current: map<K, LogRow<K, V>>, rows: seq<LogRow<K, V>>, r: LogRow<K, V>)
    requires ShowsLatest(current, rows) && r in rows
    ensures r.pair in current && current[r.pair] in rows && current[r.pair].pair == r.pair
    ensures var newest := current[r.pair];
            newest.created > r.created || (newest.created == r.created && newest.id >= r.id)
  {
    assert IsLatest(current[r.pair], rows);
  }
}
