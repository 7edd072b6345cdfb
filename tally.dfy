/** Counting occurrences, as `value_counts`, `groupby(...).size()` and
    counter dictionaries do, and the fact that per-key counts over a
    duplicate-free list of keys covering every element add up to the number
    of elements. */
module Tally {

  /** Number of occurrences of `k` in `xs`. */
  function Count<K(==)>(xs: seq<K>, k: K): (n: nat)
    ensures n <= |xs|
    ensures n > 0 <==> k in xs
  {
    if xs == [] then 0 else (if xs[0] == k then 1 else 0) + Count(xs[1..], k)
  }

  lemma {:induction false} CountAppend<K>(xs: seq<K>, ys: seq<K>, k: K)
    ensures Count(xs + ys, k) == Count(xs, k) + Count(ys, k)
  {
    if xs != [] {
      assert (xs + ys)[0] == xs[0] && (xs + ys)[1..] == xs[1..] + ys;
      CountAppend(xs[1..], ys, k);
    } else {
      assert xs + ys == ys;
    }
  }

  /** Counting over a list is counting over all but its last element, plus the last. */
  lemma CountSnoc<K>(xs: seq<K>, k: K)
    requires xs != []
    ensures Count(xs, k) == Count(xs[..|xs| - 1], k) + (if xs[|xs| - 1] == k then 1 else 0)
  {
    var n := |xs| - 1;
    assert xs == xs[..n] + [xs[n]];
    CountAppend(xs[..n], [xs[n]], k);
    assert Count([xs[n]], k) == if xs[n] == k then 1 else 0;
  }

  predicate Distinct<K(==)>(s: seq<K>)
  {
    forall i, j :: 0 <= i < j < |s| ==> s[i] != s[j]
  }

  /** The sum, over `keys`, of the number of occurrences of each key in `xs`. */
  function SumCounts<K(==)>(xs: seq<K>, keys: seq<K>): nat
  {
    if keys == [] then 0 else Count(xs, keys[0]) + SumCounts(xs, keys[1..])
  }

  lemma {:induction false} DistinctCountOne<K>(keys: seq<K>, x: K)
    requires Distinct(keys) && x in keys
    ensures Count(keys, x) == 1
  {
    if keys[0] != x {
      DistinctCountOne(keys[1..], x);
    }
  }

  lemma {:induction false} SumCountsCons<K>(x: K, xs: seq<K>, keys: seq<K>)
    ensures SumCounts([x] + xs, keys) == Count(keys, x) + SumCounts(xs, keys)
  {
    if keys != [] {
      assert ([x] + xs)[1..] == xs;
      SumCountsCons(x, xs, keys[1..]);
    }
  }

  /** Counts per distinct key add up to the total when every element has its key. */
  lemma {:induction false} SumCountsCovers<K>(xs: seq<K>, keys: seq<K>)
    requires Distinct(keys)
    requires forall x :: x in xs ==> x in keys
    ensures SumCounts(xs, keys) == |xs|
  {
    if xs == [] {
      SumCountsOfEmpty(keys);
    } else {
      assert xs == [xs[0]] + xs[1..];
      SumCountsCons(xs[0], xs[1..], keys);
      DistinctCountOne(keys, xs[0]);
      SumCountsCovers(xs[1..], keys);
    }
  }

  lemma {:induction false} SumCountsOfEmpty<K>(keys: seq<K>)
    ensures SumCounts([], keys) == 0
  {
    if keys != [] {
      SumCountsOfEmpty(keys[1..]);
    }
  }

  /** Counts over the concatenation of two key lists add up. */
  lemma {:induction false} SumCountsAppend<K>(xs: seq<K>, a: seq<K>, b: seq<K>)
    ensures SumCounts(xs, a + b) == SumCounts(xs, a) + SumCounts(xs, b)
  {
    if a == [] {
      assert a + b == b;
    } else {
      assert (a + b)[0] == a[0] && (a + b)[1..] == a[1..] + b;
      SumCountsAppend(xs, a[1..], b);
    }
  }

  /** The sum of a list of counts. */
  function Sum(ns: seq<nat>): nat
  {
    if ns == [] then 0 else ns[0] + Sum(ns[1..])
  }

  /** The smallest element of a non-empty list (`min()`). */
  function Min(xs: seq<int>): (m: int)
    requires xs != []
    ensures m in xs && forall x :: x in xs ==> m <= x
  {
    if |xs| == 1 then xs[0]
    else
      var rest := Min(xs[1..]);
      assert forall x :: x in xs ==> x == xs[0] || x in xs[1..];
      if xs[0] <= rest then xs[0] else rest
  }

  /** The largest element of a non-empty list (`max()`). */
  function Max(xs: seq<int>): (m: int)
    requires xs != []
    ensures m in xs && forall x :: x in xs ==> x <= m
  {
    if |xs| == 1 then xs[0]
    else
      var rest := Max(xs[1..]);
      assert forall x :: x in xs ==> x == xs[0] || x in xs[1..];
      if xs[0] >= rest then xs[0] else rest
  }
}
