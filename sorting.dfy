/** Python's `sorted(xs, key=key)` and `list.sort(key=key)`: a stable sort,
    written as an insertion sort on values. */
module Sorting {
  /** `less` is a strict total order, the order Python's `<` gives on the keys used here. */
  ghost predicate StrictTotalOrder<K(!new)>(less: (K, K) -> bool) {
    (forall a :: !less(a, a))
    && (forall a, b, c :: less(a, b) && less(b, c) ==> less(a, c))
    && (forall a, b :: a == b || less(a, b) || less(b, a))
  }

  predicate SortedBy<T, K>(s: seq<T>, key: T -> K, less: (K, K) -> bool) {
    forall i, j :: 0 <= i < j < |s| ==> !less(key(s[j]), key(s[i]))
  }

  /** Where `x` goes in `s`: after the last element whose key is not greater than its own. */
  function InsertAt<T, K>(x: T, s: seq<T>, key: T -> K, less: (K, K) -> bool): (m: nat)
    ensures m <= |s|
  {
    if |s| == 0 || !less(key(x), key(s[|s| - 1])) then |s|
    else InsertAt(x, s[..|s| - 1], key, less)
  }

  /** Everything `x` is placed before has a strictly greater key; the element just before it does not. */
  lemma InsertAtBounds<T, K>(x: T, s: seq<T>, key: T -> K, less: (K, K) -> bool)
    ensures var m := InsertAt(x, s, key, less);
      (forall i :: m <= i < |s| ==> less(key(x), key(s[i])))
      && (m > 0 ==> !less(key(x), key(s[m - 1])))
  {
    if |s| > 0 && less(key(x), key(s[|s| - 1])) {
      InsertAtBounds(x, s[..|s| - 1], key, less);
    }
  }

  function Insert<T, K>(x: T, s: seq<T>, key: T -> K, less: (K, K) -> bool): (r: seq<T>)
    ensures |r| == |s| + 1
  {
    var m := InsertAt(x, s, key, less);
    s[..m] + [x] + s[m..]
  }

  function SortBy<T, K>(xs: seq<T>, key: T -> K, less: (K, K) -> bool): (r: seq<T>)
    ensures |r| == |xs|
  {
    if |xs| == 0 then [] else Insert(xs[|xs| - 1], SortBy(xs[..|xs| - 1], key, less), key, less)
  }

  /** Inserting adds exactly `x` to the elements. */
  lemma InsertPermutes<T, K>(x: T, s: seq<T>, key: T -> K, less: (K, K) -> bool)
    ensures multiset(Insert(x, s, key, less)) == multiset(s) + multiset{x}
  {
    var m := InsertAt(x, s, key, less);
    assert s == s[..m] + s[m..];
    assert Insert(x, s, key, less) == s[..m] + ([x] + s[m..]);
  }

  lemma {:induction false} SortByPermutes<T, K>(xs: seq<T>, key: T -> K, less: (K, K) -> bool)
    ensures multiset(SortBy(xs, key, less)) == multiset(xs)
  {
    if |xs| > 0 {
      var xs' := xs[..|xs| - 1];
      SortByPermutes(xs', key, less);
      InsertPermutes(xs[|xs| - 1], SortBy(xs', key, less), key, less);
      assert xs == xs' + [xs[|xs| - 1]];
    }
  }

  lemma InsertSorted<T, K(!new)>(x: T, s: seq<T>, key: T -> K, less: (K, K) -> bool)
    requires StrictTotalOrder(less) && SortedBy(s, key, less)
    ensures SortedBy(Insert(x, s, key, less), key, less)
  {
    var m := InsertAt(x, s, key, less);
    var r := Insert(x, s, key, less);
    InsertAtBounds(x, s, key, less);
    forall i, j | 0 <= i < j < |r| ensures !less(key(r[j]), key(r[i])) {
      if j == m {
        assert r[i] == s[i];
        assert !less(key(x), key(s[m - 1]));
        if i < m - 1 { assert !less(key(s[m - 1]), key(s[i])); }
      } else if i == m {
        assert r[j] == s[j - 1];
      } else {
        assert r[i] == (if i < m then s[i] else s[i - 1]);
        assert r[j] == (if j < m then s[j] else s[j - 1]);
      }
    }
  }

  lemma {:induction false} SortByIsSorted<T, K(!new)>(xs: seq<T>, key: T -> K, less: (K, K) -> bool)
    requires StrictTotalOrder(less)
    ensures SortedBy(SortBy(xs, key, less), key, less)
  {
    if |xs| > 0 {
      SortByIsSorted(xs[..|xs| - 1], key, less);
      InsertSorted(xs[|xs| - 1], SortBy(xs[..|xs| - 1], key, less), key, less);
    }
  }

  /** The elements of `s` whose key equals `k`, in order. */
  function WithKey<T, K(==)>(s: seq<T>, key: T -> K, k: K): seq<T> {
    if |s| == 0 then []
    else WithKey(s[..|s| - 1], key, k) + (if key(s[|s| - 1]) == k then [s[|s| - 1]] else [])
  }

  lemma WithKeyAppend<T, K>(a: seq<T>, b: seq<T>, key: T -> K, k: K)
    ensures WithKey(a + b, key, k) == WithKey(a, key, k) + WithKey(b, key, k)
    decreases |b|
  {
    if |b| == 0 {
      assert a + b == a;
    } else {
      assert (a + b)[..|a + b| - 1] == a + b[..|b| - 1];
      WithKeyAppend(a, b[..|b| - 1], key, k);
    }
  }

  lemma InsertStable<T, K>(x: T, s: seq<T>, key: T -> K, less: (K, K) -> bool, k: K)
    requires forall a :: !less(a, a)
    ensures WithKey(Insert(x, s, key, less), key, k) == WithKey(s, key, k) + WithKey([x], key, k)
  {
    var m := InsertAt(x, s, key, less);
    InsertWithKey(x, s, m, key, k);
    if key(x) == k {
      PassedOverHaveOtherKeys(x, s, key, less);
    } else {
      assert WithKey([x], key, k) == [];
    }
    SwapAroundEmpty(WithKey(s[..m], key, k), WithKey([x], key, k), WithKey(s[m..], key, k));
  }

  lemma SwapAroundEmpty<T>(a: seq<T>, b: seq<T>, c: seq<T>)
    requires b == [] || c == []
    ensures a + b + c == a + c + b
  {
  }

  /** No element `x` is inserted in front of shares its key. */
  lemma PassedOverHaveOtherKeys<T, K>(x: T, s: seq<T>, key: T -> K, less: (K, K) -> bool)
    requires forall a :: !less(a, a)
    ensures WithKey(s[InsertAt(x, s, key, less)..], key, key(x)) == []
  {
    var m := InsertAt(x, s, key, less);
    InsertAtBounds(x, s, key, less);
    assert forall i :: 0 <= i < |s[m..]| ==> s[m..][i] == s[m + i];
    NoneWithKey(s[m..], key, key(x), less);
  }

  /** Splitting at `m` and putting `x` between the halves, key by key. */
  lemma InsertWithKey<T, K>(x: T, s: seq<T>, m: nat, key: T -> K, k: K)
    requires m <= |s|
    ensures WithKey(s[..m] + [x] + s[m..], key, k) == WithKey(s[..m], key, k) + WithKey([x], key, k) + WithKey(s[m..], key, k)
    ensures WithKey(s, key, k) == WithKey(s[..m], key, k) + WithKey(s[m..], key, k)
  {
    var a, b := s[..m], s[m..];
    assert s == a + b;
    WithKeyAppend(a + [x], b, key, k);
    WithKeyAppend(a, [x], key, k);
    WithKeyAppend(a, b, key, k);
  }

  lemma NoneWithKey<T, K>(t: seq<T>, key: T -> K, k: K, less: (K, K) -> bool)
    requires forall a :: !less(a, a)
    requires forall i :: 0 <= i < |t| ==> less(k, key(t[i]))
    ensures WithKey(t, key, k) == []
  {
    if |t| > 0 {
      NoneWithKey(t[..|t| - 1], key, k, less);
    }
  }

  /** Stability: the elements sharing one key keep their relative order. */
  lemma {:induction false} SortByStable<T, K>(xs: seq<T>, key: T -> K, less: (K, K) -> bool, k: K)
    requires forall a :: !less(a, a)
    ensures WithKey(SortBy(xs, key, less), key, k) == WithKey(xs, key, k)
  {
    if |xs| > 0 {
      var xs' := xs[..|xs| - 1];
      var x := xs[|xs| - 1];
      SortByStable(xs', key, less, k);
      InsertStable(x, SortBy(xs', key, less), key, less, k);
      assert xs == xs' + [x];
      WithKeyAppend(xs', [x], key, k);
    }
  }
}
