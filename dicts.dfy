/** Python dictionaries and list filters as values.  A `Dict` keeps its
    entries in insertion order with each key at most once; assigning to a
    present key replaces its value in place, a new key goes to the end. */
module Dicts {
  import opened Wrappers

  type Dict<K, V> = seq<(K, V)>

  predicate KeysUnique<K(==), V>(d: Dict<K, V>) {
    forall i, j :: 0 <= i < j < |d| ==> d[i].0 != d[j].0
  }

  predicate HasKey<K(==), V>(d: Dict<K, V>, k: K) {
    exists i :: 0 <= i < |d| && d[i].0 == k
  }

  function Keys<K(==), V>(d: Dict<K, V>): (ks: seq<K>)
    ensures |ks| == |d| && forall i :: 0 <= i < |d| ==> ks[i] == d[i].0
  {
    if |d| == 0 then [] else Keys(d[..|d| - 1]) + [d[|d| - 1].0]
  }

  function Values<K(==), V>(d: Dict<K, V>): (vs: seq<V>)
    ensures |vs| == |d| && forall i :: 0 <= i < |d| ==> vs[i] == d[i].1
  {
    if |d| == 0 then [] else Values(d[..|d| - 1]) + [d[|d| - 1].1]
  }

  /** The position of key `k`, or -1. */
  function Find<K(==), V>(d: Dict<K, V>, k: K): (i: int)
    ensures -1 <= i < |d|
    ensures i >= 0 ==> d[i].0 == k
    ensures i >= 0 <==> HasKey(d, k)
    ensures i >= 0 ==> forall j :: 0 <= j < i ==> d[j].0 != k
  {
    if |d| == 0 then -1
    else if d[0].0 == k then 0
    else
      var i := Find(d[1..], k);
      if i < 0 then
        assert !HasKey(d, k) by {
          forall j | 0 <= j < |d| ensures d[j].0 != k {
            if j > 0 { assert d[1..][j - 1] == d[j]; }
          }
        }
        -1
      else i + 1
  }

  /** `d.get(k)`. */
  function Get<K(==), V>(d: Dict<K, V>, k: K): (r: Option<V>)
    ensures r.Some? <==> HasKey(d, k)
    ensures r.Some? ==> exists i :: 0 <= i < |d| && d[i] == (k, r.value)
  {
    var i := Find(d, k);
    if i < 0 then None else Some(d[i].1)
  }

  /** `d[k] = v`. */
  function Put<K(==), V>(d: Dict<K, V>, k: K, v: V): (r: Dict<K, V>)
    ensures KeysUnique(d) ==> KeysUnique(r)
    ensures Keys(r) == if HasKey(d, k) then Keys(d) else Keys(d) + [k]
    ensures forall j :: 0 <= j < |d| && d[j].0 != k ==> r[j] == d[j]
  {
    var i := Find(d, k);
    if i < 0 then d + [(k, v)] else d[i := (k, v)]
  }

  lemma GetPut<K, V>(d: Dict<K, V>, k: K, v: V, k': K)
    requires KeysUnique(d)
    ensures Get(Put(d, k, v), k') == if k' == k then Some(v) else Get(d, k')
  {
    var r := Put(d, k, v);
    var i := Find(d, k);
    if k' == k {
      var j := Find(r, k);
      if i < 0 { assert r[|d|] == (k, v); assert j == |d|; } else { assert r[i] == (k, v); assert j == i; }
    } else {
      var j := Find(d, k');
      var j' := Find(r, k');
      if j >= 0 { assert r[j] == d[j]; assert j' == j; }
    }
  }

  /** The Python comprehension `{key(x): x for x in xs}`. */
  function FromSeq<K(==), T(==)>(xs: seq<T>, key: T -> K): (d: Dict<K, T>)
    ensures KeysUnique(d)
    ensures forall i :: 0 <= i < |d| ==> d[i].1 in xs && key(d[i].1) == d[i].0
    ensures forall i :: 0 <= i < |xs| ==> HasKey(d, key(xs[i]))
  {
    if |xs| == 0 then []
    else
      var xs' := xs[..|xs| - 1];
      var x := xs[|xs| - 1];
      var d' := FromSeq(xs', key);
      var d := Put(d', key(x), x);
      assert forall i :: 0 <= i < |d| ==> d[i].1 in xs && key(d[i].1) == d[i].0 by {
        forall i | 0 <= i < |d| ensures d[i].1 in xs && key(d[i].1) == d[i].0 {
          if d[i].0 != key(x) { assert i < |d'| && d[i] == d'[i]; assert xs' <= xs; }
          else { assert Keys(d)[i] == key(x); FindUnique(d, i, key(x)); }
        }
      }
      assert forall i :: 0 <= i < |xs| ==> HasKey(d, key(xs[i])) by {
        forall i | 0 <= i < |xs| ensures HasKey(d, key(xs[i])) {
          if i < |xs'| { assert xs'[i] == xs[i]; var j := Find(d', key(xs[i])); KeysKept(d', key(x), x, j); }
        }
      }
      d
  }

  lemma FindUnique<K, V>(d: Dict<K, V>, i: int, k: K)
    requires KeysUnique(d) && 0 <= i < |d| && d[i].0 == k
    ensures Find(d, k) == i
  {
  }

  /** A key already present stays present, at the same place. */
  lemma KeysKept<K, V>(d: Dict<K, V>, k: K, v: V, j: int)
    requires 0 <= j < |d|
    ensures Keys(Put(d, k, v))[j] == d[j].0 && HasKey(Put(d, k, v), d[j].0)
  {
    var r := Put(d, k, v);
    assert Keys(r)[j] == Keys(d)[j];
    assert r[j].0 == d[j].0;
  }

  /** The list comprehension `[x for x in xs if p(x)]`. */
  function Filter<T(==)>(xs: seq<T>, p: T -> bool): (r: seq<T>)
    ensures |r| <= |xs|
    ensures forall i :: 0 <= i < |r| ==> r[i] in xs && p(r[i])
    ensures forall i :: 0 <= i < |xs| && p(xs[i]) ==> xs[i] in r
  {
    if |xs| == 0 then []
    else Filter(xs[..|xs| - 1], p) + (if p(xs[|xs| - 1]) then [xs[|xs| - 1]] else [])
  }

  lemma FilterAppend<T>(a: seq<T>, b: seq<T>, p: T -> bool)
    ensures Filter(a + b, p) == Filter(a, p) + Filter(b, p)
    decreases |b|
  {
    if |b| == 0 {
      assert a + b == a;
    } else {
      var b' := b[..|b| - 1];
      assert (a + b)[..|a + b| - 1] == a + b';
      FilterAppend(a, b', p);
    }
  }

  /** A filter every element passes keeps the whole list. */
  lemma {:induction false} FilterAll<T>(xs: seq<T>, p: T -> bool)
    requires forall i :: 0 <= i < |xs| ==> p(xs[i])
    ensures Filter(xs, p) == xs
  {
    if |xs| > 0 {
      FilterAll(xs[..|xs| - 1], p);
    }
  }

  /** Assigning to a new key appends the entry. */
  lemma PutAbsent<K, V>(d: Dict<K, V>, k: K, v: V)
    requires !HasKey(d, k)
    ensures Put(d, k, v) == d + [(k, v)]
  {
  }

  /** Assigning to a present key replaces its entry in place. */
  lemma PutPresent<K, V>(d: Dict<K, V>, k: K, v: V)
    requires HasKey(d, k)
    ensures |Put(d, k, v)| == |d| && Put(d, k, v)[Find(d, k)] == (k, v)
    ensures forall j :: 0 <= j < |d| && j != Find(d, k) ==> Put(d, k, v)[j] == d[j]
  {
  }

  /** `if k not in d: d[k] = v`: a present key is never overwritten. */
  function SetDefault<K(==), V>(d: Dict<K, V>, k: K, v: V): (r: Dict<K, V>)
    ensures HasKey(r, k) && d <= r
    ensures HasKey(d, k) ==> r == d
    ensures !HasKey(d, k) ==> r == d + [(k, v)]
    ensures KeysUnique(d) ==> KeysUnique(r)
  {
    if HasKey(d, k) then d else assert (d + [(k, v)])[|d|].0 == k; d + [(k, v)]
  }

  /** The keys after `SetDefault`: the old ones and the new one. */
  lemma SetDefaultKeys<K, V>(d: Dict<K, V>, k: K, v: V, k': K)
    ensures HasKey(SetDefault(d, k, v), k') <==> HasKey(d, k') || k' == k
  {
    var r := SetDefault(d, k, v);
    if HasKey(r, k') && !HasKey(d, k') {
      var i :| 0 <= i < |r| && r[i].0 == k';
      assert i == |d|;
    }
    if HasKey(d, k') {
      var i :| 0 <= i < |d| && d[i].0 == k';
      assert r[i] == d[i];
    }
  }

  /** The Python comprehension `{key(x): x for x in xs}` grows one `Put` at a time. */
  lemma FromSeqSnoc<K, T>(xs: seq<T>, x: T, key: T -> K)
    ensures FromSeq(xs + [x], key) == Put(FromSeq(xs, key), key(x), x)
  {
    assert (xs + [x])[..|xs|] == xs;
  }

  /** Rebuilding a dict from its own values, keyed as it is, gives it back. */
  lemma {:induction false} FromSeqValues<K, V>(d: Dict<K, V>, key: V -> K)
    requires KeysUnique(d) && forall i :: 0 <= i < |d| ==> key(d[i].1) == d[i].0
    ensures FromSeq(Values(d), key) == d
  {
    if |d| > 0 {
      var d' := d[..|d| - 1];
      var (k, v) := d[|d| - 1];
      assert d == d' + [(k, v)];
      assert !HasKey(d', k) by {
        forall i | 0 <= i < |d'| ensures d'[i].0 != k { assert d'[i] == d[i]; }
      }
      forall i | 0 <= i < |d'| ensures key(d'[i].1) == d'[i].0 { assert d'[i] == d[i]; }
      FromSeqValues(d', key);
      FromSeqValuesStep(d', k, v, key);
    }
  }

  lemma FromSeqValuesStep<K, V>(d: Dict<K, V>, k: K, v: V, key: V -> K)
    requires FromSeq(Values(d), key) == d && !HasKey(d, k) && key(v) == k
    ensures FromSeq(Values(d + [(k, v)]), key) == d + [(k, v)]
  {
    assert (d + [(k, v)])[..|d|] == d;
    assert Values(d + [(k, v)]) == Values(d) + [v];
    FromSeqSnoc(Values(d), v, key);
    PutAbsent(d, k, v);
  }
}
