/** A stable sort on an integer key, ascending or descending: the shape of
    `Array.prototype.sort` with a comparator `a.k - b.k` (ascending) or
    `b.k - a.k` (descending), which the response chart and the response
    list use. */
module Sorting {
  import opened Basics

  /** `x` may stay in front of `y`: the comparator does not return a
      positive number for the pair. */
  predicate InOrder<T>(key: T -> int, descending: bool, x: T, y: T) {
    if descending then key(x) >= key(y) else key(x) <= key(y)
  }

  predicate Ordered<T>(s: seq<T>, key: T -> int, descending: bool) {
    forall i, j | 0 <= i < j < |s| :: InOrder(key, descending, s[i], s[j])
  }

  function SumBy<T>(s: seq<T>, f: T -> int): int {
    if |s| == 0 then 0 else f(s[0]) + SumBy(s[1..], f)
  }

  /** Puts `x` in front of the first element it may precede; elements that
      compare equal to `x` stay behind it. */
  function Insert<T>(x: T, s: seq<T>, key: T -> int, descending: bool): (r: seq<T>)
    requires Ordered(s, key, descending)
    ensures Ordered(r, key, descending)
    ensures multiset(r) == multiset(s) + multiset{x}
    ensures SumBy(r, key) == key(x) + SumBy(s, key)
  {
    if |s| == 0 || InOrder(key, descending, x, s[0]) then
      var r := [x] + s;
      assert r[1..] == s;
      r
    else
      var tail := Insert(x, s[1..], key, descending);
      assert s == [s[0]] + s[1..];
      var r := [s[0]] + tail;
      assert r[1..] == tail;
      HeadPrecedes(s[0], x, s[1..], tail, key, descending);
      r
  }

  /** The head of an ordered sequence may precede everything an insertion
      into its tail produces, when it may precede the inserted element. */
  lemma HeadPrecedes<T>(h: T, x: T, s: seq<T>, tail: seq<T>, key: T -> int, descending: bool)
    requires Ordered([h] + s, key, descending)
    requires !InOrder(key, descending, x, h)
    requires multiset(tail) == multiset(s) + multiset{x}
    requires Ordered(tail, key, descending)
    ensures Ordered([h] + tail, key, descending)
  {
    forall k | 0 <= k < |tail|
      ensures InOrder(key, descending, h, tail[k])
    {
      assert tail[k] in multiset(tail);
      if tail[k] != x {
        assert tail[k] in multiset(s);
        var m :| 0 <= m < |s| && s[m] == tail[k];
        assert ([h] + s)[0] == h && ([h] + s)[m + 1] == s[m];
        assert InOrder(key, descending, ([h] + s)[0], ([h] + s)[m + 1]);
      }
    }
    var r := [h] + tail;
    forall i, j | 0 <= i < j < |r|
      ensures InOrder(key, descending, r[i], r[j])
    {
      if i > 0 {
        assert r[i] == tail[i - 1] && r[j] == tail[j - 1];
      }
    }
  }

  /** Sorting by insertion: the result is a permutation of the input,
      ordered by the key, and so sums any key to the same total. */
  function SortBy<T>(s: seq<T>, key: T -> int, descending: bool): (r: seq<T>)
    ensures Ordered(r, key, descending)
    ensures multiset(r) == multiset(s)
    ensures |r| == |s|
    ensures SumBy(r, key) == SumBy(s, key)
  {
    if |s| == 0 then []
    else
      assert s == [s[0]] + s[1..];
      Insert(s[0], SortBy(s[1..], key, descending), key, descending)
  }

  /** The elements whose key is `k`. */
  function KeyIs<T>(key: T -> int, k: int): T -> bool {
    (x: T) => key(x) == k
  }

  /** Insertion passes `x` over elements of other keys only, so among the
      elements of any one key `x` keeps its place in front. */
  lemma {:induction false} InsertStable<T>(x: T, s: seq<T>, key: T -> int, descending: bool, k: int)
    requires Ordered(s, key, descending)
    ensures Filter(Insert(x, s, key, descending), KeyIs(key, k)) == Filter([x] + s, KeyIs(key, k))
  {
    if !(|s| == 0 || InOrder(key, descending, x, s[0])) {
      var p := KeyIs(key, k);
      var tail := Insert(x, s[1..], key, descending);
      assert Ordered(s[1..], key, descending) by {
        forall i, j | 0 <= i < j < |s[1..]|
          ensures InOrder(key, descending, s[1..][i], s[1..][j])
        {
          assert s[1..][i] == s[i + 1] && s[1..][j] == s[j + 1];
        }
      }
      InsertStable(x, s[1..], key, descending, k);
      assert Insert(x, s, key, descending) == [s[0]] + tail;
      assert ([s[0]] + tail)[1..] == tail;
      assert ([x] + s)[1..] == s && s == [s[0]] + s[1..];
      assert ([x] + s[1..])[1..] == s[1..];
      assert key(x) != key(s[0]);
    }
  }

  /** The sort is stable: the elements of any one key come out in the
      order they went in. */
  lemma {:induction false} SortByStable<T>(s: seq<T>, key: T -> int, descending: bool, k: int)
    ensures Filter(SortBy(s, key, descending), KeyIs(key, k)) == Filter(s, KeyIs(key, k))
  {
    if |s| > 0 {
      var rest := SortBy(s[1..], key, descending);
      SortByStable(s[1..], key, descending, k);
      InsertStable(s[0], rest, key, descending, k);
      assert ([s[0]] + rest)[1..] == rest;
      assert s == [s[0]] + s[1..];
    }
  }
}
