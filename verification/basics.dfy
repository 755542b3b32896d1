/** Small building blocks shared by every module: an optional value,
    JavaScript's `Math.round`, the rounded percentage the pages display,
    and the `slice(0, n)` used for every top-N list. */
module Basics {

  datatype Option<+T> = None | Some(value: T)

  /** `Math.round` on a real: rounds to the nearest integer, halves upward. */
  function Round(x: real): (r: int)
    ensures r as real <= x + 0.5 < r as real + 1.0
  {
    (x + 0.5).Floor
  }

  /** Rounding is monotone. */
  lemma RoundMonotone(x: real, y: real)
    requires x <= y
    ensures Round(x) <= Round(y)
  {
  }

  /** `total > 0 ? Math.round((part / total) * 100) : 0`, the percentage
      shape shared by the response chart and the dashboard. */
  function Percentage(part: int, total: int): (r: int)
    ensures total <= 0 ==> r == 0
    ensures 0 <= part <= total ==> 0 <= r <= 100
    ensures 0 < total && part == total ==> r == 100
  {
    if total > 0 then
      var ratio := part as real / total as real;
      assert ratio * total as real == part as real;
      assert part == total ==> ratio == 1.0;
      assert 0 <= part <= total ==> 0.0 <= ratio <= 1.0;
      Round(ratio * 100.0)
    else 0
  }

  /** A larger share of the same total never shows a smaller percentage. */
  lemma PercentageMonotone(a: int, b: int, total: int)
    requires a <= b
    ensures Percentage(a, total) <= Percentage(b, total)
  {
    if total > 0 {
      var ta := a as real / total as real;
      var tb := b as real / total as real;
      DivideMonotone(a as real, b as real, total as real);
      RoundMonotone(ta * 100.0, tb * 100.0);
    }
  }

  lemma DivideMonotone(x: real, y: real, d: real)
    requires x <= y && d > 0.0
    ensures x / d <= y / d
  {
    assert y / d - x / d == (y - x) / d;
  }

  /** `s.slice(0, n)`. */
  function Take<T>(s: seq<T>, n: nat): (r: seq<T>)
    ensures |r| <= n && |r| <= |s|
    ensures |r| == if |s| < n then |s| else n
    ensures r == s[..|r|]
  {
    if |s| <= n then s else s[..n]
  }

  /** `a` is `b` with some elements left out, the rest kept in order. */
  predicate IsSubsequence<T(==)>(a: seq<T>, b: seq<T>) {
    if |a| == 0 then true
    else if |b| == 0 then false
    else (a[0] == b[0] && IsSubsequence(a[1..], b[1..])) || IsSubsequence(a, b[1..])
  }

  lemma SubsequenceOfTail<T>(a: seq<T>, b: seq<T>)
    requires |b| > 0 && IsSubsequence(a, b[1..])
    ensures IsSubsequence(a, b)
  {
  }

  lemma {:induction false} SubsequenceReflexive<T>(a: seq<T>)
    ensures IsSubsequence(a, a)
  {
    if |a| > 0 {
      SubsequenceReflexive(a[1..]);
    }
  }

  /** A subsequence of a suffix of `b` is a subsequence of `b`. */
  lemma {:induction false} SubsequenceOfSuffix<T>(a: seq<T>, b: seq<T>, j: nat)
    requires j <= |b| && IsSubsequence(a, b[j..])
    ensures IsSubsequence(a, b)
  {
    if j > 0 {
      assert b[1..][j - 1..] == b[j..];
      SubsequenceOfSuffix(a, b[1..], j - 1);
      SubsequenceOfTail(a, b);
    }
  }

  /** `s.filter(p)`: the elements satisfying `p`, in order. */
  function Filter<T>(s: seq<T>, p: T -> bool): (r: seq<T>)
    ensures |r| <= |s|
    ensures forall i | 0 <= i < |r| :: p(r[i])
  {
    if |s| == 0 then []
    else if p(s[0]) then [s[0]] + Filter(s[1..], p)
    else Filter(s[1..], p)
  }

  /** Filtering keeps the satisfying elements in their order. */
  lemma {:induction false} FilterSubsequence<T>(s: seq<T>, p: T -> bool)
    ensures IsSubsequence(Filter(s, p), s)
  {
    if |s| > 0 {
      FilterSubsequence(s[1..], p);
      if p(s[0]) {
        assert Filter(s, p)[1..] == Filter(s[1..], p);
      } else {
        SubsequenceOfTail(Filter(s[1..], p), s);
      }
    }
  }

  /** Filtering keeps each satisfying element as often as it occurs and
      drops every other element. */
  lemma {:induction false} FilterCount<T>(s: seq<T>, p: T -> bool)
    ensures forall x :: multiset(Filter(s, p))[x] == if p(x) then multiset(s)[x] else 0
  {
    if |s| > 0 {
      FilterCount(s[1..], p);
      assert s == [s[0]] + s[1..];
    }
  }

  /** Filtering keeps exactly the elements that satisfy the predicate. */
  lemma FilterMembership<T>(s: seq<T>, p: T -> bool, x: T)
    ensures x in Filter(s, p) <==> x in s && p(x)
  {
    FilterCount(s, p);
    assert x in Filter(s, p) <==> multiset(Filter(s, p))[x] > 0;
    assert x in s <==> multiset(s)[x] > 0;
  }

  /** Filtering distributes over concatenation. */
  lemma {:induction false} FilterConcat<T>(a: seq<T>, b: seq<T>, p: T -> bool)
    ensures Filter(a + b, p) == Filter(a, p) + Filter(b, p)
  {
    if |a| > 0 {
      assert (a + b)[0] == a[0] && (a + b)[1..] == a[1..] + b;
      FilterConcat(a[1..], b, p);
    } else {
      assert a + b == b;
    }
  }

  lemma FilterCons<T>(x: T, s: seq<T>, p: T -> bool)
    ensures Filter([x] + s, p) == if p(x) then [x] + Filter(s, p) else Filter(s, p)
  {
    assert ([x] + s)[0] == x && ([x] + s)[1..] == s;
  }

  /** A prefix of elements that fail the predicate contributes nothing. */
  lemma {:induction false} FilterSkipsPrefix<T>(s: seq<T>, k: nat, p: T -> bool)
    requires k <= |s| && forall m | 0 <= m < k :: !p(s[m])
    ensures Filter(s, p) == Filter(s[k..], p)
  {
    if k > 0 {
      FilterSkipsPrefix(s[1..], k - 1, p);
      assert s[1..][k - 1..] == s[k..];
    }
  }

  /** Filtering first by a weaker predicate changes nothing. */
  lemma {:induction false} FilterOfFilter<T>(s: seq<T>, p: T -> bool, q: T -> bool)
    requires forall x :: p(x) ==> q(x)
    ensures Filter(Filter(s, q), p) == Filter(s, p)
  {
    if |s| > 0 {
      FilterOfFilter(s[1..], p, q);
      FilterCons(s[0], Filter(s[1..], q), p);
    }
  }

  /** When nothing outside `s[a..b]` satisfies the predicate, filtering the
      slice is filtering the whole. */
  lemma FilterInsideSlice<T>(s: seq<T>, a: nat, b: nat, p: T -> bool)
    requires a <= b <= |s|
    requires forall i | 0 <= i < a :: !p(s[i])
    requires forall i | b <= i < |s| :: !p(s[i])
    ensures Filter(s[a..b], p) == Filter(s, p)
  {
    FilterSkipsPrefix(s, a, p);
    assert s[a..] == s[a..b] + s[b..];
    FilterConcat(s[a..b], s[b..], p);
    FilterSkipsPrefix(s[b..], |s| - b, p);
    assert s[b..][|s| - b..] == [];
  }

  /** Filtering with a predicate every element satisfies changes nothing. */
  lemma {:induction false} FilterAll<T>(s: seq<T>, p: T -> bool)
    requires forall i | 0 <= i < |s| :: p(s[i])
    ensures Filter(s, p) == s
  {
    if |s| > 0 {
      FilterAll(s[1..], p);
    }
  }
}
