/** Small vocabulary shared by all modules: results, Go's string order, sorting
    and iteration over a map in an order the program cannot predict. */
module Basics {
  datatype Option<+T> = None | Some(value: T) {
    function UnwrapOr(default: T): T {
      if Some? then value else default
    }
  }

  datatype Result<+T, +E> = Ok(value: T) | Err(error: E)

  predicate NoDuplicates<T(==)>(xs: seq<T>) {
    forall i, j :: 0 <= i < j < |xs| ==> xs[i] != xs[j]
  }

  /** Go's `<` on strings: lexicographic. */
  predicate StrLess(a: string, b: string) {
    |b| > 0 && (|a| == 0 || a[0] < b[0] || (a[0] == b[0] && StrLess(a[1..], b[1..])))
  }

  predicate StrLeq(a: string, b: string) {
    a == b || StrLess(a, b)
  }

  lemma {:induction false} StrLessTransitive(a: string, b: string, c: string)
    requires StrLess(a, b) && StrLess(b, c)
    ensures StrLess(a, c)
  {
    if |a| > 0 && a[0] == b[0] && b[0] == c[0] {
      StrLessTransitive(a[1..], b[1..], c[1..]);
    }
  }

  lemma {:induction false} StrLessTotal(a: string, b: string)
    ensures StrLess(a, b) || StrLess(b, a) || a == b
  {
    if |a| > 0 && |b| > 0 && a[0] == b[0] {
      StrLessTotal(a[1..], b[1..]);
      assert a == [a[0]] + a[1..] && b == [b[0]] + b[1..];
    }
  }

  lemma {:induction false} StrLessIrreflexive(a: string)
    ensures !StrLess(a, a)
  {
    if |a| > 0 {
      StrLessIrreflexive(a[1..]);
    }
  }

  /** The first position at which the texts differ, or at which the first of them ends. */
  predicate LessAt(a: string, b: string, i: nat) {
    i <= |a| && i < |b| && a[..i] == b[..i] && (i == |a| || a[i] < b[i])
  }

  lemma {:induction false} SameHeadBefore(a: string, b: string, i: nat)
    ensures LessAt(a, b, i) && i > 0 ==> a[0] == b[0]
  {
    if LessAt(a, b, i) && i > 0 {
      assert a[..i][0] == a[0] && b[..i][0] == b[0];
    }
  }

  /** Lexicographic: less at the first difference, a prefix before what it is a prefix of. */
  lemma {:induction false} StrLessExactly(a: string, b: string)
    ensures StrLess(a, b) <==> exists i :: LessAt(a, b, i)
  {
    if a == [] && b != [] {
      assert LessAt(a, b, 0);
    } else if a != [] && b != [] && a[0] == b[0] {
      StrLessExactly(a[1..], b[1..]);
      if i: nat :| LessAt(a[1..], b[1..], i) {
        assert a == [a[0]] + a[1..] && b == [b[0]] + b[1..];
        assert a[..i + 1] == [a[0]] + a[1..][..i] && b[..i + 1] == [b[0]] + b[1..][..i];
        assert LessAt(a, b, i + 1);
      }
      if i: nat :| LessAt(a, b, i) {
        if i > 0 {
          assert a[1..][..i - 1] == a[..i][1..] && b[1..][..i - 1] == b[..i][1..];
          assert LessAt(a[1..], b[1..], i - 1);
        }
      }
    } else if a != [] && b != [] && a[0] != b[0] {
      forall i: nat ensures LessAt(a, b, i) ==> i == 0 {
        SameHeadBefore(a, b, i);
      }
      if a[0] < b[0] {
        assert LessAt(a, b, 0);
      }
    }
  }

  lemma {:induction false} StrictPrefixIsLess(a: string, b: string)
    requires |a| < |b| && b[..|a|] == a
    ensures StrLess(a, b)
  {
    if |a| > 0 {
      assert a[0] == b[0];
      assert b[1..][..|a| - 1] == b[..|a|][1..];
      StrictPrefixIsLess(a[1..], b[1..]);
    }
  }

  ghost predicate TotalPreorder<T(!new)>(le: (T, T) -> bool) {
    && (forall x, y :: le(x, y) || le(y, x))
    && (forall x, y, z :: le(x, y) && le(y, z) ==> le(x, z))
  }

  ghost predicate SortedBy<T>(xs: seq<T>, le: (T, T) -> bool) {
    forall i, j :: 0 <= i < j < |xs| ==> le(xs[i], xs[j])
  }

  function Insert<T>(x: T, xs: seq<T>, le: (T, T) -> bool): (r: seq<T>)
    ensures multiset(r) == multiset(xs) + multiset{x}
    ensures |r| == |xs| + 1
  {
    if xs == [] then [x]
    else if le(x, xs[0]) then [x] + xs
    else
      assert xs == [xs[0]] + xs[1..];
      [xs[0]] + Insert(x, xs[1..], le)
  }

  /** The library sort; which algorithm it uses does not matter, see SortedUnique. */
  function Sort<T>(xs: seq<T>, le: (T, T) -> bool): (r: seq<T>)
    ensures multiset(r) == multiset(xs)
    ensures |r| == |xs|
  {
    if xs == [] then []
    else
      assert xs == [xs[0]] + xs[1..];
      Insert(xs[0], Sort(xs[1..], le), le)
  }

  lemma {:induction false} InsertSorted<T(!new)>(x: T, xs: seq<T>, le: (T, T) -> bool)
    requires TotalPreorder(le) && SortedBy(xs, le)
    ensures SortedBy(Insert(x, xs, le), le)
  {
    if xs == [] {
    } else if le(x, xs[0]) {
    } else {
      var rest := Insert(x, xs[1..], le);
      InsertSorted(x, xs[1..], le);
      forall k | 0 <= k < |rest| ensures le(xs[0], rest[k]) {
        assert rest[k] in multiset(rest);
        assert rest[k] == x || rest[k] in xs[1..];
      }
    }
  }

  lemma {:induction false} SortSorted<T(!new)>(xs: seq<T>, le: (T, T) -> bool)
    requires TotalPreorder(le)
    ensures SortedBy(Sort(xs, le), le)
  {
    if xs != [] {
      SortSorted(xs[1..], le);
      InsertSorted(xs[0], Sort(xs[1..], le), le);
    }
  }

  /** The order separates the elements. */
  ghost predicate Antisymmetric<T(!new)>(xs: seq<T>, le: (T, T) -> bool) {
    forall x, y :: x in xs && y in xs && le(x, y) && le(y, x) ==> x == y
  }

  lemma {:induction false} TailAntisymmetric<T(!new)>(xs: seq<T>, le: (T, T) -> bool)
    requires xs != [] && Antisymmetric(xs, le)
    ensures Antisymmetric(xs[1..], le)
  {
    assert forall x :: x in xs[1..] ==> x in xs;
  }

  /** Where the order separates the elements, a sorted permutation is unique, so
      neither the algorithm nor the input order can be seen in the result. */
  lemma {:induction false} SortedUnique<T(!new)>(a: seq<T>, b: seq<T>, le: (T, T) -> bool)
    requires multiset(a) == multiset(b)
    requires TotalPreorder(le) && SortedBy(a, le) && SortedBy(b, le) && Antisymmetric(a, le)
    ensures a == b
  {
    if a == [] {
      assert |multiset(b)| == 0;
    } else {
      SameHead(a, b, le);
      WithoutHead(a);
      WithoutHead(b);
      TailAntisymmetric(a, le);
      SortedUnique(a[1..], b[1..], le);
      assert a == [a[0]] + a[1..] && b == [b[0]] + b[1..];
    }
  }

  lemma {:induction false} SameHead<T(!new)>(a: seq<T>, b: seq<T>, le: (T, T) -> bool)
    requires a != [] && multiset(a) == multiset(b)
    requires TotalPreorder(le) && SortedBy(a, le) && SortedBy(b, le)
    requires forall x, y :: x in a && y in a && le(x, y) && le(y, x) ==> x == y
    ensures b != [] && a[0] == b[0]
  {
    assert a[0] in multiset(b);
    assert b[0] in multiset(a);
    var i :| 0 <= i < |a| && a[i] == b[0];
    var j :| 0 <= j < |b| && b[j] == a[0];
    assert le(a[0], a[0]) && le(b[0], b[0]);
    assert le(a[0], b[0]) && le(b[0], a[0]);
  }

  lemma {:induction false} WithoutHead<T>(xs: seq<T>)
    requires xs != []
    ensures multiset(xs[1..]) == multiset(xs) - multiset{xs[0]}
  {
    assert xs == [xs[0]] + xs[1..];
  }

  /** Positions below n, in order. */
  predicate Picks(which: seq<nat>, n: nat) {
    && (forall k :: 0 <= k < |which| ==> which[k] < n)
    && (forall k, l :: 0 <= k < l < |which| ==> which[k] < which[l])
  }

  function PickNext(which: seq<nat>, n: nat, take: bool): seq<nat> {
    if take then which + [n] else which
  }

  lemma {:induction false} PicksNext(which: seq<nat>, n: nat, take: bool)
    requires Picks(which, n)
    ensures Picks(PickNext(which, n, take), n + 1)
    ensures forall i: nat :: i in PickNext(which, n, take) <==> i in which || (take && i == n)
  {}

  lemma {:induction false} NoDuplicatesCounts<T>(xs: seq<T>)
    ensures NoDuplicates(xs) <==> forall x :: multiset(xs)[x] <= 1
  {
    if xs != [] {
      var h, t := xs[0], xs[1..];
      assert xs == [h] + t;
      assert multiset(xs) == multiset{h} + multiset(t);
      NoDuplicatesCounts(t);
      if h in t {
        var j :| 0 <= j < |t| && t[j] == h;
        assert xs[0] == xs[j + 1];
        assert multiset(xs)[h] >= 2;
      } else if NoDuplicates(t) {
        forall i, j | 0 <= i < j < |xs| ensures xs[i] != xs[j] {
          assert xs[j] == t[j - 1] && (i > 0 ==> xs[i] == t[i - 1]);
        }
      } else {
        var i, j :| 0 <= i < j < |t| && t[i] == t[j];
        assert xs[i + 1] == xs[j + 1];
        var x :| multiset(t)[x] > 1;
        assert multiset(xs)[x] > 1;
      }
    }
  }

  lemma {:induction false} PermutationNoDuplicates<T>(a: seq<T>, b: seq<T>)
    requires NoDuplicates(a) && multiset(a) == multiset(b)
    ensures NoDuplicates(b)
  {
    NoDuplicatesCounts(a);
    NoDuplicatesCounts(b);
  }

  /** `range` over a Go map: every key once, in an order chosen by the runtime. */
  method RangeKeys<K(==)>(keys: set<K>) returns (order: seq<K>)
    ensures NoDuplicates(order)
    ensures forall k :: k in order <==> k in keys
  {
    order := [];
    var rest := keys;
    while rest != {}
      invariant NoDuplicates(order)
      invariant forall k :: k in keys <==> k in order || k in rest
      invariant forall k :: !(k in order && k in rest)
      decreases |rest|
    {
      var k :| k in rest;
      order := order + [k];
      rest := rest - {k};
    }
  }

  predicate StrictlySorted(xs: seq<string>) {
    forall i, j :: 0 <= i < j < |xs| ==> StrLess(xs[i], xs[j])
  }

  lemma {:induction false} StrLeqTotal()
    ensures TotalPreorder(StrLeq)
  {
    forall x, y ensures StrLeq(x, y) || StrLeq(y, x) {
      StrLessTotal(x, y);
    }
    forall x, y, z | StrLeq(x, y) && StrLeq(y, z) ensures StrLeq(x, z) {
      if x != y && y != z {
        StrLessTransitive(x, y, z);
      }
    }
  }

  lemma {:induction false} EmptyTogether<T>(a: seq<T>, b: seq<T>)
    requires forall x :: x in a <==> x in b
    ensures a == [] <==> b == []
  {
    assert a == [] || a[0] in b;
    assert b == [] || b[0] in a;
  }

  lemma {:induction false} SortedListUnique(a: seq<string>, b: seq<string>)
    requires StrictlySorted(a) && StrictlySorted(b)
    requires forall x :: x in a <==> x in b
    ensures a == b
  {
    if a == [] {
      EmptyTogether(a, b);
    } else {
      assert a[0] in b;
      assert b[0] in a;
      var i :| 0 <= i < |a| && a[i] == b[0];
      var j :| 0 <= j < |b| && b[j] == a[0];
      if i > 0 && j > 0 {
        StrLessTransitive(a[0], a[i], a[0]);
        StrLessIrreflexive(a[0]);
      }
      forall x ensures x in a[1..] <==> x in b[1..] {
        StrLessIrreflexive(a[0]);
        assert x in a <==> x == a[0] || x in a[1..];
        assert x in b <==> x == b[0] || x in b[1..];
      }
      SortedListUnique(a[1..], b[1..]);
    }
  }

  lemma {:induction false} RangeKeysExist(keys: set<string>) returns (order: seq<string>)
    ensures NoDuplicates(order) && forall k :: k in order <==> k in keys
    decreases |keys|
  {
    order := [];
    if keys != {} {
      var k :| k in keys;
      order := RangeKeysExist(keys - {k});
      order := order + [k];
    }
  }

  /** The elements of a set of strings, as sort.Strings would list them. */
  ghost function SortedElements(s: set<string>): (xs: seq<string>)
    ensures StrictlySorted(xs) && forall x :: x in xs <==> x in s
  {
    SortedElementsExist(s);
    var xs :| StrictlySorted(xs) && forall x :: x in xs <==> x in s;
    xs
  }

  lemma {:induction false} SortedElementsExist(s: set<string>)
    ensures exists xs :: StrictlySorted(xs) && forall x :: x in xs <==> x in s
  {
    var order := RangeKeysExist(s);
    SortStrings(order);
  }

  lemma {:induction false} SortStrings(xs: seq<string>)
    requires NoDuplicates(xs)
    ensures StrictlySorted(Sort(xs, StrLeq)) && forall x :: x in Sort(xs, StrLeq) <==> x in xs
  {
    var ys := Sort(xs, StrLeq);
    StrLeqTotal();
    SortSorted(xs, StrLeq);
    PermutationNoDuplicates(xs, ys);
    forall x ensures x in ys <==> x in xs {
      assert x in ys <==> x in multiset(xs);
    }
  }
}
