/**
 * Python's `sorted(xs, key=f)` and `xs.sort(key=f)`: a stable sort by a key
 * that is computed once per element. `lt` is the order in which keys come
 * out: `<` for an ascending sort and `>` for `reverse=True`, which Python
 * documents as stable too (equal keys keep their input order).
 *
 * The sort is written as an insertion sort; what the rest of the model uses
 * are its three properties, proved below: the output is a permutation of the
 * input, it is ordered by `lt`, and the elements that share a key appear in
 * the same relative order as in the input.
 */
module StableSort {

  /** `lt` is irreflexive, transitive and total on distinct keys. */
  ghost predicate StrictTotalOrder<K(!new)>(lt: (K, K) -> bool) {
    && (forall a :: !lt(a, a))
    && (forall a, b, c :: lt(a, b) && lt(b, c) ==> lt(a, c))
    && (forall a, b :: a != b ==> lt(a, b) || lt(b, a))
  }

  /** No element is followed by one whose key comes strictly before its own. */
  ghost predicate SortedBy<T, K>(s: seq<T>, key: T -> K, lt: (K, K) -> bool) {
    forall i, j :: 0 <= i < j < |s| ==> !lt(key(s[j]), key(s[i]))
  }

  /** The elements of `s` whose key is `k`, in the order of `s`. */
  function WithKey<T, K(==)>(s: seq<T>, key: T -> K, k: K): (r: seq<T>)
    ensures |r| <= |s|
    ensures forall x :: x in r ==> x in s && key(x) == k
  {
    if s == [] then []
    else (if key(s[0]) == k then [s[0]] else []) + WithKey(s[1..], key, k)
  }

  /** Puts `x` in front of the first element of `s` whose key does not come before `x`'s. */
  function Insert<T, K>(x: T, s: seq<T>, key: T -> K, lt: (K, K) -> bool): (r: seq<T>)
    ensures multiset(r) == multiset(s) + multiset{x}
  {
    if s == [] || !lt(key(s[0]), key(x)) then [x] + s
    else
      assert s == [s[0]] + s[1..];
      [s[0]] + Insert(x, s[1..], key, lt)
  }

  /** The stable sort of `s` by `key` in the order `lt`. */
  function SortBy<T, K>(s: seq<T>, key: T -> K, lt: (K, K) -> bool): (r: seq<T>)
    ensures multiset(r) == multiset(s)
    ensures |r| == |s|
  {
    if s == [] then []
    else
      assert s == [s[0]] + s[1..];
      Insert(s[0], SortBy(s[1..], key, lt), key, lt)
  }

  /** Inserting `x` puts it ahead of every element that shares its key. */
  lemma {:induction false} InsertWithKey<T, K(!new)>(x: T, s: seq<T>, key: T -> K, lt: (K, K) -> bool, k: K)
    requires forall a :: !lt(a, a)
    ensures WithKey(Insert(x, s, key, lt), key, k)
         == (if key(x) == k then [x] else []) + WithKey(s, key, k)
  {
    if s == [] || !lt(key(s[0]), key(x)) {
      assert ([x] + s)[1..] == s;
    } else {
      var rest := Insert(x, s[1..], key, lt);
      var r := [s[0]] + rest;
      assert Insert(x, s, key, lt) == r;
      assert r[0] == s[0] && r[1..] == rest;
      var head := if key(s[0]) == k then [s[0]] else [];
      InsertWithKey(x, s[1..], key, lt, k);
      assert WithKey(r, key, k) == head + WithKey(rest, key, k);
      assert WithKey(s, key, k) == head + WithKey(s[1..], key, k);
      if key(x) == k {
        assert !lt(key(x), key(x));
        assert head == [];
        assert WithKey(r, key, k) == WithKey(rest, key, k);
        assert WithKey(s, key, k) == WithKey(s[1..], key, k);
      } else {
        assert WithKey(rest, key, k) == WithKey(s[1..], key, k);
      }
    }
  }

  /** Equal keys keep their input order. */
  lemma {:induction false} SortByIsStable<T, K(!new)>(s: seq<T>, key: T -> K, lt: (K, K) -> bool, k: K)
    requires forall a :: !lt(a, a)
    ensures WithKey(SortBy(s, key, lt), key, k) == WithKey(s, key, k)
  {
    if s != [] {
      SortByIsStable(s[1..], key, lt, k);
      InsertWithKey(s[0], SortBy(s[1..], key, lt), key, lt, k);
    }
  }

  lemma {:induction false} InsertSorted<T, K(!new)>(x: T, s: seq<T>, key: T -> K, lt: (K, K) -> bool)
    requires StrictTotalOrder(lt)
    requires SortedBy(s, key, lt)
    ensures SortedBy(Insert(x, s, key, lt), key, lt)
  {
    var r := Insert(x, s, key, lt);
    if s == [] || !lt(key(s[0]), key(x)) {
      forall j | 0 <= j < |s|
        ensures !lt(key(s[j]), key(x))
      {
        if j > 0 {
          assert !lt(key(s[j]), key(s[0]));
        }
        if key(s[0]) != key(x) {
          assert lt(key(x), key(s[0]));
        }
      }
      ConsSorted(x, s, key, lt);
    } else {
      var rest := Insert(x, s[1..], key, lt);
      InsertSorted(x, s[1..], key, lt);
      assert r == [s[0]] + rest;
      forall j | 0 <= j < |rest|
        ensures !lt(key(rest[j]), key(s[0]))
      {
        assert rest[j] in multiset(rest);
        if rest[j] != x {
          assert rest[j] in multiset(s[1..]);
          var m :| 0 <= m < |s[1..]| && s[1..][m] == rest[j];
          assert s[1 + m] == rest[j];
        }
      }
      ConsSorted(s[0], rest, key, lt);
    }
  }

  /** Putting in front an element whose key no later key precedes keeps a list sorted. */
  lemma ConsSorted<T, K>(h: T, t: seq<T>, key: T -> K, lt: (K, K) -> bool)
    requires SortedBy(t, key, lt)
    requires forall j :: 0 <= j < |t| ==> !lt(key(t[j]), key(h))
    ensures SortedBy([h] + t, key, lt)
  {
    var r := [h] + t;
    forall i, j | 0 <= i < j < |r|
      ensures !lt(key(r[j]), key(r[i]))
    {
      assert r[j] == t[j - 1];
      if i > 0 {
        assert r[i] == t[i - 1];
      }
    }
  }

  /** The output is ordered by `lt`. */
  lemma {:induction false} SortByIsSorted<T, K(!new)>(s: seq<T>, key: T -> K, lt: (K, K) -> bool)
    requires StrictTotalOrder(lt)
    ensures SortedBy(SortBy(s, key, lt), key, lt)
  {
    if s != [] {
      SortByIsSorted(s[1..], key, lt);
      InsertSorted(s[0], SortBy(s[1..], key, lt), key, lt);
    }
  }
}
