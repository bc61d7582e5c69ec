/**
 * Stable ordering by an integer key: the model of SQL `orderBy` on a column and of
 * PHP 8's `usort`, which keeps equal elements in their input order.
 */
module Sorting {

  ghost predicate SortedBy<T>(s: seq<T>, key: T -> int)
  {
    forall i, j :: 0 <= i < j < |s| ==> key(s[i]) <= key(s[j])
  }

  /** Insert `x` before the first element whose key is not smaller than its own. */
  function Insert<T>(x: T, s: seq<T>, key: T -> int): (r: seq<T>)
    ensures |r| == |s| + 1
    ensures multiset(r) == multiset(s) + multiset{x}
  {
    if s == [] then [x]
    else if key(x) <= key(s[0]) then [x] + s
    else
      assert s == [s[0]] + s[1..];
      [s[0]] + Insert(x, s[1..], key)
  }

  /** Insertion sort; earlier elements are inserted last, so they end up first among equals. */
  function SortBy<T>(s: seq<T>, key: T -> int): (r: seq<T>)
    ensures |r| == |s|
    ensures multiset(r) == multiset(s)
  {
    if s == [] then []
    else
      assert s == [s[0]] + s[1..];
      Insert(s[0], SortBy(s[1..], key), key)
  }

  /** The elements of `s` whose key is `k`, in the order of `s`. */
  function WithKey<T>(s: seq<T>, key: T -> int, k: int): seq<T>
  {
    if s == [] then []
    else (if key(s[0]) == k then [s[0]] else []) + WithKey(s[1..], key, k)
  }

  lemma {:induction false} InsertSorted<T>(x: T, s: seq<T>, key: T -> int)
    requires SortedBy(s, key)
    ensures SortedBy(Insert(x, s, key), key)
  {
    if s != [] && key(x) > key(s[0]) {
      InsertSorted(x, s[1..], key);
      var t := Insert(x, s[1..], key);
      InsertHead(x, s[1..], key);
      assert forall j :: 0 <= j < |t| ==> key(s[0]) <= key(t[j]);
    }
  }

  /** Every element of an insertion result is `x` or an element of `s`. */
  lemma {:induction false} InsertHead<T>(x: T, s: seq<T>, key: T -> int)
    ensures forall j :: 0 <= j < |Insert(x, s, key)| ==>
      Insert(x, s, key)[j] == x || Insert(x, s, key)[j] in s
  {
    var r := Insert(x, s, key);
    forall j | 0 <= j < |r| ensures r[j] == x || r[j] in s {
      assert r[j] in multiset(r);
    }
  }

  /** The sorted sequence is ordered by key. */
  lemma {:induction false} SortBySorted<T>(s: seq<T>, key: T -> int)
    ensures SortedBy(SortBy(s, key), key)
  {
    if s != [] {
      SortBySorted(s[1..], key);
      InsertSorted(s[0], SortBy(s[1..], key), key);
    }
  }

  /** `WithKey` of a sequence with one element in front. */
  lemma WithKeyCons<T>(a: T, s: seq<T>, key: T -> int, k: int)
    ensures WithKey([a] + s, key, k) == (if key(a) == k then [a] else []) + WithKey(s, key, k)
  {
    assert ([a] + s)[1..] == s;
  }

  lemma {:induction false} WithKeyInsert<T>(x: T, s: seq<T>, key: T -> int, k: int)
    requires SortedBy(s, key)
    ensures WithKey(Insert(x, s, key), key, k) == (if key(x) == k then [x] else []) + WithKey(s, key, k)
  {
    if s == [] {
    } else if key(x) <= key(s[0]) {
      WithKeyCons(x, s, key, k);
    } else {
      assert SortedBy(s[1..], key);
      WithKeyInsert(x, s[1..], key, k);
      WithKeyInsertStep(x, s, key, k);
    }
  }

  /** The step of `WithKeyInsert` where `x` goes past the first element. */
  lemma WithKeyInsertStep<T>(x: T, s: seq<T>, key: T -> int, k: int)
    requires s != [] && key(x) > key(s[0])
    requires WithKey(Insert(x, s[1..], key), key, k) == (if key(x) == k then [x] else []) + WithKey(s[1..], key, k)
    ensures WithKey(Insert(x, s, key), key, k) == (if key(x) == k then [x] else []) + WithKey(s, key, k)
  {
    var t := Insert(x, s[1..], key);
    var head: seq<T> := if key(s[0]) == k then [s[0]] else [];
    var mine: seq<T> := if key(x) == k then [x] else [];
    var rest := WithKey(s[1..], key, k);
    assert Insert(x, s, key) == [s[0]] + t;
    WithKeyCons(s[0], t, key, k);
    WithKeyCons(s[0], s[1..], key, k);
    assert s == [s[0]] + s[1..];
    if head == [] {
      assert head + (mine + rest) == mine + rest;
    } else {
      assert mine == [];
      assert head + (mine + rest) == head + rest;
    }
  }

  /** Stability: the elements with any one key keep their relative input order. */
  lemma {:induction false} SortByStable<T>(s: seq<T>, key: T -> int, k: int)
    ensures WithKey(SortBy(s, key), key, k) == WithKey(s, key, k)
  {
    if s != [] {
      SortByStable(s[1..], key, k);
      SortBySorted(s[1..], key);
      WithKeyInsert(s[0], SortBy(s[1..], key), key, k);
    }
  }

  /** An input that is already ordered comes back unchanged. */
  lemma {:induction false} SortBySortedIdentity<T>(s: seq<T>, key: T -> int)
    requires SortedBy(s, key)
    ensures SortBy(s, key) == s
  {
    if s != [] {
      SortBySortedIdentity(s[1..], key);
      assert SortBy(s[1..], key) == s[1..];
      if |s| > 1 {
        assert key(s[0]) <= key(s[1]);
        assert [s[0]] + s[1..] == s;
      }
    }
  }
}
