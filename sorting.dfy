/** The stable sort that `Array.prototype.sort` performs with a numeric
    comparator `(a, b) => key(a) - key(b)`: ascending by key, elements with
    equal keys kept in their input order. */
module Sorting {

  /** Keys never decrease along the sequence. */
  ghost predicate SortedBy<T>(s: seq<T>, key: T -> real)
  {
    forall i, j :: 0 <= i < j < |s| ==> key(s[i]) <= key(s[j])
  }

  /** Insert `x` into `s` after every element whose key is not larger. */
  function Insert<T>(x: T, s: seq<T>, key: T -> real): (r: seq<T>)
    ensures |r| == |s| + 1
    ensures multiset(r) == multiset(s) + multiset{x}
  {
    if s == [] then [x]
    else if key(x) < key(s[0]) then [x] + s
    else
      assert s == [s[0]] + s[1..];
      [s[0]] + Insert(x, s[1..], key)
  }

  lemma {:induction false} InsertSorted<T>(x: T, s: seq<T>, key: T -> real)
    requires SortedBy(s, key)
    ensures SortedBy(Insert(x, s, key), key)
  {
    if s != [] && key(x) >= key(s[0]) {
      InsertSorted(x, s[1..], key);
      InsertAbove(x, s[1..], key, key(s[0]));
    }
  }

  /** Inserting an element whose key is at least `m` into elements whose keys
      are at least `m` keeps every key at least `m`. */
  lemma {:induction false} InsertAbove<T>(x: T, s: seq<T>, key: T -> real, m: real)
    requires m <= key(x) && forall k :: 0 <= k < |s| ==> m <= key(s[k])
    ensures forall k :: 0 <= k < |s| + 1 ==> m <= key(Insert(x, s, key)[k])
  {
    if s != [] && key(x) >= key(s[0]) {
      InsertAbove(x, s[1..], key, m);
    }
  }

  /** Insertion sort: each element, in input order, is inserted into the
      sorted prefix, so equal keys keep their relative order. */
  function SortBy<T>(s: seq<T>, key: T -> real): (r: seq<T>)
    ensures |r| == |s|
    ensures multiset(r) == multiset(s)
  {
    if s == [] then []
    else
      assert s == s[..|s| - 1] + [s[|s| - 1]];
      Insert(s[|s| - 1], SortBy(s[..|s| - 1], key), key)
  }

  /** The result is ordered by key (and, by `SortBy`'s contract, a permutation). */
  lemma {:induction false} SortBySorted<T>(s: seq<T>, key: T -> real)
    ensures SortedBy(SortBy(s, key), key)
  {
    if s != [] {
      SortBySorted(s[..|s| - 1], key);
      InsertSorted(s[|s| - 1], SortBy(s[..|s| - 1], key), key);
    }
  }

  /** The elements whose key is `v`, in the order they come in. */
  function WithKey<T>(s: seq<T>, key: T -> real, v: real): seq<T>
  {
    if s == [] then [] else (if key(s[0]) == v then [s[0]] else []) + WithKey(s[1..], key, v)
  }

  lemma {:induction false} WithKeyAppend<T>(a: seq<T>, x: T, key: T -> real, v: real)
    ensures WithKey(a + [x], key, v) == WithKey(a, key, v) + (if key(x) == v then [x] else [])
  {
    if a != [] {
      assert (a + [x])[1..] == a[1..] + [x];
      WithKeyAppend(a[1..], x, key, v);
    }
  }

  lemma {:induction false} NoneWithKey<T>(s: seq<T>, key: T -> real, v: real)
    requires forall k :: 0 <= k < |s| ==> key(s[k]) > v
    ensures WithKey(s, key, v) == []
  {
    if s != [] {
      NoneWithKey(s[1..], key, v);
    }
  }

  /** Inserting into a sorted sequence puts `x` after every element with the
      same key. */
  lemma {:induction false} InsertWithKey<T>(x: T, s: seq<T>, key: T -> real, v: real)
    requires SortedBy(s, key)
    ensures WithKey(Insert(x, s, key), key, v) == WithKey(s, key, v) + (if key(x) == v then [x] else [])
  {
    var own: seq<T> := if key(x) == v then [x] else [];
    if s == [] {
      assert Insert(x, s, key) == [x];
    } else if key(x) < key(s[0]) {
      var r := [x] + s;
      assert Insert(x, s, key) == r;
      assert r[1..] == s;
      assert WithKey(r, key, v) == own + WithKey(s, key, v);
      if key(x) == v {
        assert forall k :: 0 <= k < |s| ==> key(s[0]) <= key(s[k]);
        NoneWithKey(s, key, v);
      }
    } else {
      var head: seq<T> := if key(s[0]) == v then [s[0]] else [];
      var tail := Insert(x, s[1..], key);
      var r := [s[0]] + tail;
      assert Insert(x, s, key) == r;
      assert r[1..] == tail;
      assert WithKey(r, key, v) == head + WithKey(tail, key, v);
      SortedTail(s, key);
      InsertWithKey(x, s[1..], key, v);
      assert WithKey(s, key, v) == head + WithKey(s[1..], key, v);
      assert WithKey(r, key, v) == head + (WithKey(s[1..], key, v) + own);
    }
  }

  lemma SortedTail<T>(s: seq<T>, key: T -> real)
    requires s != [] && SortedBy(s, key)
    ensures SortedBy(s[1..], key)
  {
    forall i, j | 0 <= i < j < |s| - 1
      ensures key(s[1..][i]) <= key(s[1..][j])
    {
      assert s[1..][i] == s[i + 1] && s[1..][j] == s[j + 1];
    }
  }

  /** The sort is stable: the elements of any one key come out in the order
      they went in. */
  lemma {:induction false} SortByStable<T>(s: seq<T>, key: T -> real, v: real)
    ensures WithKey(SortBy(s, key), key, v) == WithKey(s, key, v)
  {
    if s != [] {
      var init, last := s[..|s| - 1], s[|s| - 1];
      assert s == init + [last];
      var sorted := SortBy(init, key);
      var own: seq<T> := if key(last) == v then [last] else [];
      assert SortBy(s, key) == Insert(last, sorted, key);
      SortBySorted(init, key);
      InsertWithKey(last, sorted, key, v);
      SortByStable(init, key, v);
      assert WithKey(SortBy(s, key), key, v) == WithKey(init, key, v) + own;
      WithKeyAppend(init, last, key, v);
    }
  }

  /** Descending order on plain numbers. */
  ghost predicate Descending(s: seq<real>)
  {
    forall i, j :: 0 <= i < j < |s| ==> s[i] >= s[j]
  }

  /** Two descending sequences holding the same numbers are equal: a sort of
      numbers has only one possible outcome, whatever the input order. */
  lemma {:induction false} DescendingUnique(a: seq<real>, b: seq<real>)
    requires Descending(a) && Descending(b) && multiset(a) == multiset(b)
    ensures a == b
  {
    if a != [] {
      assert |b| == |multiset(b)| == |multiset(a)| == |a|;
      HeadIsMaximum(a, b);
      HeadIsMaximum(b, a);
      assert a == [a[0]] + a[1..];
      assert b == [b[0]] + b[1..];
      assert multiset(a[1..]) == multiset(a) - multiset{a[0]};
      assert multiset(b[1..]) == multiset(b) - multiset{b[0]};
      DescendingUnique(a[1..], b[1..]);
    }
  }

  lemma HeadIsMaximum(a: seq<real>, b: seq<real>)
    requires Descending(a) && Descending(b) && multiset(a) == multiset(b) && a != [] && b != []
    ensures a[0] >= b[0]
  {
    assert b[0] in multiset(a);
    var j :| 0 <= j < |a| && a[j] == b[0];
  }
}
