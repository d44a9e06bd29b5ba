/**
 * Python's `sorted(xs, key=f)` for keys that are pairs of integers compared
 * as tuples: a stable sort, modelled as insertion of each element after all
 * earlier elements whose key is not greater.
 */
module StableSort {

  type SortKey = (int, int)

  /** Tuple order `a < b`. */
  predicate KeyLess(a: SortKey, b: SortKey)
  {
    a.0 < b.0 || (a.0 == b.0 && a.1 < b.1)
  }

  predicate SortedBy<T>(s: seq<T>, key: T -> SortKey)
  {
    forall i, j :: 0 <= i < j < |s| ==> !KeyLess(key(s[j]), key(s[i]))
  }

  /** Inserts `x` before the first element whose key is greater than its own. */
  function InsertStable<T>(x: T, s: seq<T>, key: T -> SortKey): (r: seq<T>)
    ensures |r| == |s| + 1
    ensures multiset(r) == multiset(s) + multiset{x}
  {
    if s == [] then [x]
    else if KeyLess(key(x), key(s[0])) then [x] + s
    else
      assert s == [s[0]] + s[1..];
      [s[0]] + InsertStable(x, s[1..], key)
  }

  function Sorted<T>(xs: seq<T>, key: T -> SortKey): (r: seq<T>)
    ensures multiset(r) == multiset(xs)
  {
    if xs == [] then []
    else
      assert xs == xs[..|xs| - 1] + [xs[|xs| - 1]];
      InsertStable(xs[|xs| - 1], Sorted(xs[..|xs| - 1], key), key)
  }

  lemma {:induction false} InsertStableSorted<T>(x: T, s: seq<T>, key: T -> SortKey)
    requires SortedBy(s, key)
    ensures SortedBy(InsertStable(x, s, key), key)
    decreases |s|
  {
    if s != [] && !KeyLess(key(x), key(s[0])) {
      InsertStableSorted(x, s[1..], key);
      var r := InsertStable(x, s, key);
      forall j | 1 <= j < |r| ensures !KeyLess(key(r[j]), key(r[0])) {
        assert r[j] in multiset(s[1..]) + multiset{x};
        if r[j] != x {
          var m :| 0 <= m < |s[1..]| && s[1..][m] == r[j];
          assert r[j] == s[m + 1];
        }
      }
    }
  }

  lemma SplitLast<T>(xs: seq<T>)
    requires xs != []
    ensures xs == xs[..|xs| - 1] + [xs[|xs| - 1]]
  {
  }

  /** The elements of `s` with key `k`, in order. */
  function TiesOf<T>(s: seq<T>, key: T -> SortKey, k: SortKey): seq<T>
  {
    if s == [] then [] else (if key(s[0]) == k then [s[0]] else []) + TiesOf(s[1..], key, k)
  }

  lemma {:induction false} TiesOfAppend<T>(a: seq<T>, b: seq<T>, key: T -> SortKey, k: SortKey)
    ensures TiesOf(a + b, key, k) == TiesOf(a, key, k) + TiesOf(b, key, k)
    decreases |a|
  {
    if a == [] {
      assert a + b == b;
    } else {
      assert (a + b)[0] == a[0];
      assert (a + b)[1..] == a[1..] + b;
      TiesOfAppend(a[1..], b, key, k);
    }
  }

  lemma {:induction false} NoTiesBelow<T>(s: seq<T>, key: T -> SortKey, k: SortKey)
    requires SortedBy(s, key)
    requires s != [] && KeyLess(k, key(s[0]))
    ensures TiesOf(s, key, k) == []
    decreases |s|
  {
    if |s| > 1 {
      assert !KeyLess(key(s[1]), key(s[0]));
      NoTiesBelow(s[1..], key, k);
    }
  }

  lemma {:induction false} InsertStableTies<T>(x: T, s: seq<T>, key: T -> SortKey, k: SortKey)
    requires SortedBy(s, key)
    ensures TiesOf(InsertStable(x, s, key), key, k) == TiesOf(s, key, k) + (if key(x) == k then [x] else [])
    decreases |s|
  {
    if s == [] {
    } else if KeyLess(key(x), key(s[0])) {
      var r := [x] + s;
      assert r[0] == x && r[1..] == s;
      if key(x) == k {
        NoTiesBelow(s, key, k);
      }
    } else {
      var r := InsertStable(x, s, key);
      assert r[0] == s[0] && r[1..] == InsertStable(x, s[1..], key);
      InsertStableTies(x, s[1..], key, k);
    }
  }

  /**
   * The result is ordered by key and stable: for every key, the elements
   * with that key appear in their input order. A sorted permutation with
   * that property is unique, so this is the list `sorted` returns.
   */
  lemma SortedSpec<T>(xs: seq<T>, key: T -> SortKey)
    ensures SortedBy(Sorted(xs, key), key)
    ensures forall k :: TiesOf(Sorted(xs, key), key, k) == TiesOf(xs, key, k)
  {
    SortedOrdered(xs, key);
    SortedStable(xs, key);
  }

  lemma {:induction false} SortedOrdered<T>(xs: seq<T>, key: T -> SortKey)
    ensures SortedBy(Sorted(xs, key), key)
    decreases |xs|
  {
    if xs != [] {
      var prefix := xs[..|xs| - 1];
      SortedOrdered(prefix, key);
      InsertStableSorted(xs[|xs| - 1], Sorted(prefix, key), key);
    }
  }

  lemma SortedStable<T>(xs: seq<T>, key: T -> SortKey)
    ensures forall k :: TiesOf(Sorted(xs, key), key, k) == TiesOf(xs, key, k)
  {
    forall k ensures TiesOf(Sorted(xs, key), key, k) == TiesOf(xs, key, k) {
      SortedTies(xs, key, k);
    }
  }

  lemma {:induction false} SortedTies<T>(xs: seq<T>, key: T -> SortKey, k: SortKey)
    ensures TiesOf(Sorted(xs, key), key, k) == TiesOf(xs, key, k)
    decreases |xs|
  {
    if xs != [] {
      var prefix := xs[..|xs| - 1];
      var last := xs[|xs| - 1];
      var tail := if key(last) == k then [last] else [];
      var sp := Sorted(prefix, key);
      assert Sorted(xs, key) == InsertStable(last, sp, key);
      SortedTies(prefix, key, k);
      SortedOrdered(prefix, key);
      InsertStableTies(last, sp, key, k);
      assert TiesOf(Sorted(xs, key), key, k) == TiesOf(prefix, key, k) + tail;
      SplitLast(xs);
      TiesOfAppend(prefix, [last], key, k);
      assert TiesOf([last], key, k) == tail + TiesOf([last][1..], key, k);
      assert [last][1..] == [];
      assert TiesOf(xs, key, k) == TiesOf(prefix, key, k) + tail;
    }
  }

  /** How many elements of `s` satisfy `p`. */
  function CountWhere<T>(s: seq<T>, p: T -> bool): nat
  {
    if s == [] then 0 else (if p(s[0]) then 1 else 0) + CountWhere(s[1..], p)
  }

  lemma {:induction false} CountWhereAppend<T>(a: seq<T>, b: seq<T>, p: T -> bool)
    ensures CountWhere(a + b, p) == CountWhere(a, p) + CountWhere(b, p)
    decreases |a|
  {
    if a == [] {
      assert a + b == b;
    } else {
      assert (a + b)[0] == a[0];
      assert (a + b)[1..] == a[1..] + b;
      CountWhereAppend(a[1..], b, p);
    }
  }

  lemma {:induction false} CountWhereInsert<T>(x: T, s: seq<T>, key: T -> SortKey, p: T -> bool)
    ensures CountWhere(InsertStable(x, s, key), p) == CountWhere(s, p) + (if p(x) then 1 else 0)
    decreases |s|
  {
    if s == [] {
    } else if KeyLess(key(x), key(s[0])) {
      var r := [x] + s;
      assert r[0] == x && r[1..] == s;
    } else {
      var r := InsertStable(x, s, key);
      assert r[0] == s[0] && r[1..] == InsertStable(x, s[1..], key);
      CountWhereInsert(x, s[1..], key, p);
    }
  }

  lemma CountWhereLast<T>(xs: seq<T>, p: T -> bool)
    requires xs != []
    ensures CountWhere(xs, p) == CountWhere(xs[..|xs| - 1], p) + (if p(xs[|xs| - 1]) then 1 else 0)
  {
    var last := xs[|xs| - 1];
    CountWhereAppend(xs[..|xs| - 1], [last], p);
    assert [last][1..] == [];
    SplitLast(xs);
  }

  /** Sorting neither adds nor drops elements with any property. */
  lemma {:induction false} CountWhereSorted<T>(xs: seq<T>, key: T -> SortKey, p: T -> bool)
    ensures CountWhere(Sorted(xs, key), p) == CountWhere(xs, p)
    decreases |xs|
  {
    if xs != [] {
      var prefix := xs[..|xs| - 1];
      var last := xs[|xs| - 1];
      CountWhereSorted(prefix, key, p);
      CountWhereInsert(last, Sorted(prefix, key), key, p);
      CountWhereLast(xs, p);
    }
  }
}
