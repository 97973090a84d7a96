/** Overlaying a feature's environment configuration on its global configuration.
    The repository does this twice: MergeConfigs on database rows (one environment
    at a time) and mergeConfigRows on rows the reconciler fetched in bulk. */
module ConfigMerge {
  import opened Basics

  datatype GlobalConfig = GlobalConfig(id: nat, key: string, value: string, secret: bool, created: int)

  datatype EnvConfig = EnvConfig(id: nat, key: string, value: string, secret: bool, created: int, environmentId: nat)

  datatype MergedRow = MergedRow(id: nat, key: string, value: string, secret: bool, created: int,
                                 environmentId: Option<nat>)

  function FromGlobal(g: GlobalConfig): MergedRow {
    MergedRow(g.id, g.key, g.value, g.secret, g.created, None)
  }

  function FromEnv(e: EnvConfig): MergedRow {
    MergedRow(e.id, e.key, e.value, e.secret, e.created, Some(e.environmentId))
  }

  // ----- What an overlay is -----

  /** An empty filter lets every key through. */
  predicate Allowed(key: string, includeKeys: seq<string>) {
    includeKeys == [] || key in includeKeys
  }

  function LastWith(rows: seq<MergedRow>, key: string): Option<MergedRow> {
    if rows == [] then None
    else if rows[|rows| - 1].key == key then Some(rows[|rows| - 1])
    else LastWith(rows[..|rows| - 1], key)
  }

  /** The row in force for a key: the last environment row, else the last global row. */
  function InForce(global: seq<MergedRow>, env: seq<MergedRow>, key: string): Option<MergedRow> {
    if LastWith(env, key).Some? then LastWith(env, key) else LastWith(global, key)
  }

  predicate StrictlyKeySorted(rows: seq<MergedRow>) {
    forall i, j :: 0 <= i < j < |rows| ==> StrLess(rows[i].key, rows[j].key)
  }

  ghost predicate IsOverlay(rows: seq<MergedRow>, global: seq<MergedRow>, env: seq<MergedRow>,
                            includeKeys: seq<string>) {
    && StrictlyKeySorted(rows)
    && forall row :: row in rows <==> Allowed(row.key, includeKeys) && InForce(global, env, row.key) == Some(row)
  }

  // ----- The two implementations -----

  /** mergeConfigRows in the reconciler. */
  method MergeConfigRows(global: seq<MergedRow>, env: seq<MergedRow>, includeKeys: seq<string>)
    returns (result: seq<MergedRow>)
    ensures IsOverlay(result, global, env, includeKeys)
  {
    var m: map<string, MergedRow> := map[];
    for i := 0 to |global|
      invariant Holds(m, global[..i], [], includeKeys)
    {
      assert global[..i + 1][..i] == global[..i];
      if !Allowed(global[i].key, includeKeys) {
        continue;
      }
      m := m[global[i].key := global[i]];
    }
    assert global[..|global|] == global;
    for i := 0 to |env|
      invariant Holds(m, global, env[..i], includeKeys)
    {
      assert env[..i + 1][..i] == env[..i];
      if !Allowed(env[i].key, includeKeys) {
        continue;
      }
      m := m[env[i].key := env[i]];
    }
    assert env[..|env|] == env;
    result := SortedRows(m, global, env, includeKeys);
  }

  /** MergeConfigs in the feature package. */
  method MergeConfigs(global: seq<GlobalConfig>, env: seq<EnvConfig>, includeKeys: seq<string>)
    returns (result: seq<MergedRow>)
    ensures IsOverlay(result, GlobalRows(global), EnvRows(env), includeKeys)
  {
    var m: map<string, MergedRow> := map[];
    for i := 0 to |global|
      invariant Holds(m, GlobalRows(global)[..i], [], includeKeys)
    {
      var g := global[i];
      assert GlobalRows(global)[..i + 1][..i] == GlobalRows(global)[..i];
      if !Allowed(g.key, includeKeys) {
        continue;
      }
      m := m[g.key := MergedRow(g.id, g.key, g.value, g.secret, g.created, None)];
    }
    assert GlobalRows(global)[..|global|] == GlobalRows(global);
    for i := 0 to |env|
      invariant Holds(m, GlobalRows(global), EnvRows(env)[..i], includeKeys)
    {
      var e := env[i];
      assert EnvRows(env)[..i + 1][..i] == EnvRows(env)[..i];
      if !Allowed(e.key, includeKeys) {
        continue;
      }
      m := m[e.key := MergedRow(e.id, e.key, e.value, e.secret, e.created, Some(e.environmentId))];
    }
    assert EnvRows(env)[..|env|] == EnvRows(env);
    result := SortedRows(m, GlobalRows(global), EnvRows(env), includeKeys);
  }

  ghost function GlobalRows(global: seq<GlobalConfig>): seq<MergedRow> {
    seq(|global|, i requires 0 <= i < |global| => FromGlobal(global[i]))
  }

  ghost function EnvRows(env: seq<EnvConfig>): seq<MergedRow> {
    seq(|env|, i requires 0 <= i < |env| => FromEnv(env[i]))
  }

  ghost predicate Holds(m: map<string, MergedRow>, global: seq<MergedRow>, env: seq<MergedRow>,
                        includeKeys: seq<string>) {
    && (forall k :: k in m <==> Allowed(k, includeKeys) && InForce(global, env, k).Some?)
    && (forall k :: k in m ==> Some(m[k]) == InForce(global, env, k))
  }

  predicate KeyLeq(a: MergedRow, b: MergedRow) {
    StrLeq(a.key, b.key)
  }

  lemma {:induction false} KeyLeqTotal()
    ensures TotalPreorder(KeyLeq)
  {
    forall x, y ensures KeyLeq(x, y) || KeyLeq(y, x) {
      StrLessTotal(x.key, y.key);
    }
    forall x, y, z | KeyLeq(x, y) && KeyLeq(y, z) ensures KeyLeq(x, z) {
      if x.key != y.key && y.key != z.key {
        StrLessTransitive(x.key, y.key, z.key);
      }
    }
  }

  lemma {:induction false} LastWithKey(rows: seq<MergedRow>, key: string)
    ensures LastWith(rows, key).Some? ==> LastWith(rows, key).value.key == key
  {
    if rows != [] {
      LastWithKey(rows[..|rows| - 1], key);
    }
  }

  /** The common tail: take the map's rows in map order and sort them by key. */
  method SortedRows(m: map<string, MergedRow>, ghost global: seq<MergedRow>, ghost env: seq<MergedRow>,
                    includeKeys: seq<string>)
    returns (result: seq<MergedRow>)
    requires Holds(m, global, env, includeKeys)
    ensures IsOverlay(result, global, env, includeKeys)
  {
    var order := RangeKeys(m.Keys);
    var rows: seq<MergedRow> := [];
    for i := 0 to |order|
      invariant |rows| == i
      invariant forall j :: 0 <= j < i ==> rows[j] == m[order[j]]
    {
      rows := rows + [m[order[i]]];
    }
    result := Sort(rows, KeyLeq);
    forall k | k in m ensures m[k].key == k {
      LastWithKey(global, k);
      LastWithKey(env, k);
    }
    KeyLeqTotal();
    SortSorted(rows, KeyLeq);
    DistinctKeysSort(rows, result);
    forall row ensures row in result <==> Allowed(row.key, includeKeys) && InForce(global, env, row.key) == Some(row) {
      assert row in result <==> row in multiset(rows);
      if row in rows {
        var j :| 0 <= j < |rows| && rows[j] == row;
        assert order[j] in m.Keys;
      }
      if Allowed(row.key, includeKeys) && InForce(global, env, row.key) == Some(row) {
        assert row.key in order;
      }
    }
  }

  lemma {:induction false} DistinctKeysSort(rows: seq<MergedRow>, sorted: seq<MergedRow>)
    requires forall i, j :: 0 <= i < j < |rows| ==> rows[i].key != rows[j].key
    requires multiset(sorted) == multiset(rows) && SortedBy(sorted, KeyLeq)
    ensures StrictlyKeySorted(sorted)
  {
    assert NoDuplicates(rows);
    PermutationNoDuplicates(rows, sorted);
    forall row | row in sorted ensures row in rows {
      assert row in multiset(sorted);
    }
    forall i, j | 0 <= i < j < |sorted| ensures StrLess(sorted[i].key, sorted[j].key) {
      assert KeyLeq(sorted[i], sorted[j]);
      assert sorted[i] in rows && sorted[j] in rows;
    }
  }

  // ----- Main results -----

  lemma {:induction false} SortedRowsEqual(a: seq<MergedRow>, b: seq<MergedRow>)
    requires StrictlyKeySorted(a) && StrictlyKeySorted(b)
    requires forall row :: row in a <==> row in b
    ensures a == b
  {
    if a == [] {
      EmptyTogether(a, b);
    } else {
      assert a[0] in b && (b == [] || b[0] in a);
      var i :| 0 <= i < |a| && a[i] == b[0];
      var j :| 0 <= j < |b| && b[j] == a[0];
      if i > 0 && j > 0 {
        StrLessTransitive(a[0].key, a[i].key, a[0].key);
        StrLessIrreflexive(a[0].key);
      }
      assert a[0] == b[0];
      forall row ensures row in a[1..] <==> row in b[1..] {
        StrLessIrreflexive(a[0].key);
        assert row in a <==> row == a[0] || row in a[1..];
        assert row in b <==> row == b[0] || row in b[1..];
        assert a[0] !in a[1..] && b[0] !in b[1..];
      }
      SortedRowsEqual(a[1..], b[1..]);
    }
  }

  /** There is one overlay: map order and sorting algorithm cannot be seen. With
      global := GlobalRows(g) and env := EnvRows(e) this says that the bulk path
      and the single-environment path return the same rows. */
  lemma {:induction false} OverlayUnique(a: seq<MergedRow>, b: seq<MergedRow>, global: seq<MergedRow>,
                                         env: seq<MergedRow>, includeKeys: seq<string>)
    requires IsOverlay(a, global, env, includeKeys)
    requires IsOverlay(b, global, env, includeKeys)
    ensures a == b
  {
    forall row ensures row in a <==> row in b {
    }
    SortedRowsEqual(a, b);
  }

  /** The row is the last one with its key. */
  predicate LastOfKeyAt(rows: seq<MergedRow>, i: nat) {
    i < |rows| && forall j :: i < j < |rows| ==> rows[j].key != rows[i].key
  }

  predicate NoneOfKey(rows: seq<MergedRow>, key: string) {
    forall i :: 0 <= i < |rows| ==> rows[i].key != key
  }

  lemma {:induction false} LastWithAt(rows: seq<MergedRow>, key: string)
    ensures match LastWith(rows, key)
            case None => NoneOfKey(rows, key)
            case Some(r) => exists i: nat :: LastOfKeyAt(rows, i) && rows[i] == r && r.key == key
  {
    if rows != [] {
      var n := |rows| - 1;
      LastWithAt(rows[..n], key);
      if rows[n].key == key {
        assert LastOfKeyAt(rows, n);
      } else if LastWith(rows[..n], key).Some? {
        var i: nat :| LastOfKeyAt(rows[..n], i) && rows[i] == LastWith(rows[..n], key).value;
        assert LastOfKeyAt(rows, i);
      }
    }
  }

  /** Which rows are in the overlay: of an allowed key the environment's last row, or where
      the environment has none the last global row; and no other row. */
  lemma {:induction false} OverlayRows(rows: seq<MergedRow>, global: seq<MergedRow>, env: seq<MergedRow>,
                                       includeKeys: seq<string>)
    requires IsOverlay(rows, global, env, includeKeys)
    ensures forall i: nat :: LastOfKeyAt(env, i) && (includeKeys == [] || env[i].key in includeKeys) ==> env[i] in rows
    ensures forall i: nat ::
              LastOfKeyAt(global, i) && (includeKeys == [] || global[i].key in includeKeys) &&
                NoneOfKey(env, global[i].key) ==>
                global[i] in rows
    ensures forall row :: row in rows ==>
              && (includeKeys == [] || row.key in includeKeys)
              && ((exists i: nat :: LastOfKeyAt(env, i) && env[i] == row) ||
                  (NoneOfKey(env, row.key) && exists i: nat :: LastOfKeyAt(global, i) && global[i] == row))
    ensures forall i, j :: 0 <= i < j < |rows| ==> StrLess(rows[i].key, rows[j].key)
  {
    forall i: nat | LastOfKeyAt(env, i) && (includeKeys == [] || env[i].key in includeKeys) ensures env[i] in rows {
      LastWithAt(env, env[i].key);
    }
    forall i: nat | LastOfKeyAt(global, i) && (includeKeys == [] || global[i].key in includeKeys) &&
                    NoneOfKey(env, global[i].key)
      ensures global[i] in rows
    {
      LastWithAt(env, global[i].key);
      LastWithAt(global, global[i].key);
    }
    forall row | row in rows
      ensures (exists i: nat :: LastOfKeyAt(env, i) && env[i] == row) ||
              (NoneOfKey(env, row.key) && exists i: nat :: LastOfKeyAt(global, i) && global[i] == row)
    {
      LastWithAt(env, row.key);
      LastWithAt(global, row.key);
    }
  }

  /** The filter is a set: listing the keys in another order or twice changes nothing. */
  lemma {:induction false} OverlayFilterIsASet(a: seq<MergedRow>, b: seq<MergedRow>, global: seq<MergedRow>,
                                               env: seq<MergedRow>, ks: seq<string>, ls: seq<string>)
    requires forall k :: k in ks <==> k in ls
    requires IsOverlay(a, global, env, ks) && IsOverlay(b, global, env, ls)
    ensures a == b
  {
    assert ks == [] <==> ls == [] by {
      if ks != [] { assert ks[0] in ls; }
      if ls != [] { assert ls[0] in ks; }
    }
    OverlayUnique(a, b, global, env, ks);
  }
}
