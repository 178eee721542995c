// Ordering of breakdown tables: `sort_values` on one numeric column and
// `head(n)`.

module Ranking {

  predicate InOrder(x: int, y: int, descending: bool) {
    if descending then x >= y else x <= y
  }

  /** Every element comes no later than the ones after it. */
  predicate SortedBy<T>(xs: seq<T>, rank: T -> int, descending: bool) {
    forall i, j :: 0 <= i < j < |xs| ==> InOrder(rank(xs[i]), rank(xs[j]), descending)
  }

  /** Insert `x` into a sorted sequence before the first element it may precede. */
  function Insert<T>(x: T, xs: seq<T>, rank: T -> int, descending: bool): (r: seq<T>)
    requires SortedBy(xs, rank, descending)
    ensures multiset(r) == multiset(xs) + multiset{x}
    ensures SortedBy(r, rank, descending)
  {
    if xs == [] || InOrder(rank(x), rank(xs[0]), descending) then [x] + xs
    else
      var rest := Insert(x, xs[1..], rank, descending);
      assert xs == [xs[0]] + xs[1..];
      assert forall z :: z in rest ==> InOrder(rank(xs[0]), rank(z), descending) by {
        forall z | z in rest
          ensures InOrder(rank(xs[0]), rank(z), descending)
        {
          assert z in multiset(rest);
          if z != x {
            assert z in multiset(xs[1..]);
            var k :| 0 <= k < |xs[1..]| && xs[1..][k] == z;
            assert xs[k + 1] == z;
          }
        }
      }
      PrependSorted(xs[0], rest, rank, descending);
      [xs[0]] + rest
  }

  lemma PrependSorted<T>(y: T, xs: seq<T>, rank: T -> int, descending: bool)
    requires SortedBy(xs, rank, descending)
    requires forall z :: z in xs ==> InOrder(rank(y), rank(z), descending)
    ensures SortedBy([y] + xs, rank, descending)
  {
    forall i, j | 0 <= i < j < |[y] + xs|
      ensures InOrder(rank(([y] + xs)[i]), rank(([y] + xs)[j]), descending)
    {
      if i > 0 {
        assert ([y] + xs)[i] == xs[i - 1];
      }
      assert ([y] + xs)[j] == xs[j - 1];
    }
  }

  /** `sort_values(column, ascending = !descending)`: a permutation of the
      input, ordered by the rank column. */
  function SortBy<T>(xs: seq<T>, rank: T -> int, descending: bool): (r: seq<T>)
    ensures multiset(r) == multiset(xs)
    ensures |r| == |xs|
    ensures SortedBy(r, rank, descending)
  {
    if xs == [] then []
    else
      assert xs == [xs[0]] + xs[1..];
      Insert(xs[0], SortBy(xs[1..], rank, descending), rank, descending)
  }

  /** `head(n)`: the first n elements, or all of them when there are fewer. */
  function Head<T>(xs: seq<T>, n: nat): (r: seq<T>)
    ensures |r| == if |xs| <= n then |xs| else n
    ensures forall i :: 0 <= i < |r| ==> r[i] == xs[i]
    ensures forall x :: x in r ==> x in xs
  {
    if |xs| <= n then xs else xs[..n]
  }

  /** The first n after a descending sort are the n largest: every element
      left out ranks no higher than every element kept. */
  lemma TopAreLargest<T>(xs: seq<T>, rank: T -> int, n: nat)
    ensures var top := Head(SortBy(xs, rank, true), n);
      |top| <= n
      && (forall y :: y in top ==> y in xs)
      && (forall x, y :: x in xs && x !in top && y in top ==> rank(x) <= rank(y))
  {
    var sorted := SortBy(xs, rank, true);
    var top := Head(sorted, n);
    forall y | y in top
      ensures y in xs
    {
      assert y in multiset(sorted);
    }
    forall x, y | x in xs && x !in top && y in top
      ensures rank(x) <= rank(y)
    {
      assert x in multiset(sorted);
      var j :| 0 <= j < |sorted| && sorted[j] == x;
      var i :| 0 <= i < |top| && top[i] == y;
      if j < |top| {
        assert false;
      }
    }
  }

  /** A prefix of a sequence without repeated keys has none either. */
  lemma HeadDistinct<T, K>(xs: seq<T>, n: nat, key: T -> K)
    requires DistinctBy(xs, key)
    ensures DistinctBy(Head(xs, n), key)
  {
  }

  /** The first n after a descending sort keep a key-distinct input key-distinct. */
  lemma TopIsDistinct<T, K>(xs: seq<T>, rank: T -> int, n: nat, key: T -> K)
    requires DistinctBy(xs, key)
    ensures DistinctBy(Head(SortBy(xs, rank, true), n), key)
  {
    var sorted := SortBy(xs, rank, true);
    PermutationKeepsDistinct(xs, sorted, key);
    HeadDistinct(sorted, n, key);
  }

  /** A prefix of a sorted sequence is sorted. */
  lemma HeadSorted<T>(xs: seq<T>, rank: T -> int, descending: bool, n: nat)
    requires SortedBy(xs, rank, descending)
    ensures SortedBy(Head(xs, n), rank, descending)
  {
  }

  /** Sum of a numeric column of the table. */
  function SumBy<T>(xs: seq<T>, w: T -> int): int {
    if xs == [] then 0 else w(xs[0]) + SumBy(xs[1..], w)
  }

  lemma {:induction false} InsertSum<T>(x: T, xs: seq<T>, rank: T -> int, descending: bool, w: T -> int)
    requires SortedBy(xs, rank, descending)
    ensures SumBy(Insert(x, xs, rank, descending), w) == w(x) + SumBy(xs, w)
  {
    if xs != [] && !InOrder(rank(x), rank(xs[0]), descending) {
      InsertSum(x, xs[1..], rank, descending, w);
      var rest := Insert(x, xs[1..], rank, descending);
      assert ([xs[0]] + rest)[1..] == rest;
    } else {
      assert ([x] + xs)[1..] == xs;
    }
  }

  /** Sorting moves rows but does not change any column total. */
  lemma {:induction false} SortBySum<T>(xs: seq<T>, rank: T -> int, descending: bool, w: T -> int)
    ensures SumBy(SortBy(xs, rank, descending), w) == SumBy(xs, w)
  {
    if xs != [] {
      SortBySum(xs[1..], rank, descending, w);
      InsertSum(xs[0], SortBy(xs[1..], rank, descending), rank, descending, w);
    }
  }

  /** Keeping a prefix of non-negative values can only lower the total. */
  lemma {:induction false} HeadSumBounded<T>(xs: seq<T>, n: nat, w: T -> int)
    requires forall x :: x in xs ==> w(x) >= 0
    ensures SumBy(Head(xs, n), w) <= SumBy(xs, w)
  {
    if |xs| > n {
      PrefixSumBounded(xs, n, w);
    }
  }

  lemma {:induction false} PrefixSumBounded<T>(xs: seq<T>, n: nat, w: T -> int)
    requires n <= |xs|
    requires forall x :: x in xs ==> w(x) >= 0
    ensures SumBy(xs[..n], w) <= SumBy(xs, w)
  {
    if n > 0 {
      PrefixSumBounded(xs[1..], n - 1, w);
      assert xs[..n][1..] == xs[1..][..n - 1];
    } else {
      SumNonNegative(xs, w);
    }
  }

  lemma {:induction false} SumNonNegative<T>(xs: seq<T>, w: T -> int)
    requires forall x :: x in xs ==> w(x) >= 0
    ensures SumBy(xs, w) >= 0
  {
    if xs != [] {
      SumNonNegative(xs[1..], w);
    }
  }

  /** No two elements share a key. */
  predicate DistinctBy<T, K(==)>(xs: seq<T>, key: T -> K) {
    forall i, j :: 0 <= i < j < |xs| ==> key(xs[i]) != key(xs[j])
  }

  /** The keys that occur in a sequence. */
  ghost function KeysOf<T, K>(xs: seq<T>, key: T -> K): set<K> {
    set x | x in xs :: key(x)
  }

  /** A sequence without repeated keys has as many elements as keys. */
  lemma {:induction false} DistinctByCount<T, K>(xs: seq<T>, key: T -> K)
    requires DistinctBy(xs, key)
    ensures |KeysOf(xs, key)| == |xs|
  {
    if xs != [] {
      var tail := xs[1..];
      DistinctByCount(tail, key);
      var rest := KeysOf(tail, key);
      assert KeysOf(xs, key) == {key(xs[0])} + rest by {
        assert xs == [xs[0]] + tail;
      }
      forall j | 0 <= j < |tail|
        ensures key(tail[j]) != key(xs[0])
      {
        assert tail[j] == xs[j + 1];
      }
      assert key(xs[0]) !in rest;
    }
  }

  lemma CountAtTwo<T>(s: seq<T>, i: int, j: int)
    requires 0 <= i < j < |s| && s[i] == s[j]
    ensures multiset(s)[s[i]] >= 2
  {
    assert s == s[..j] + [s[j]] + s[j + 1..];
    assert s[i] in s[..j];
  }

  lemma TwoPositions<T>(s: seq<T>, v: T) returns (p: int, q: int)
    requires multiset(s)[v] >= 2
    ensures 0 <= p < q < |s| && s[p] == v && s[q] == v
  {
    assert v in multiset(s);
    var a :| 0 <= a < |s| && s[a] == v;
    var rest := s[..a] + s[a + 1..];
    assert s == s[..a] + [v] + s[a + 1..];
    assert multiset(rest)[v] >= 1;
    assert v in multiset(rest);
    var b' :| 0 <= b' < |rest| && rest[b'] == v;
    var b := if b' < a then b' else b' + 1;
    assert s[b] == v;
    if a < b {
      p, q := a, b;
    } else {
      p, q := b, a;
    }
  }

  lemma PositionOf<T>(s: seq<T>, v: T) returns (p: int)
    requires v in multiset(s)
    ensures 0 <= p < |s| && s[p] == v
  {
    p :| 0 <= p < |s| && s[p] == v;
  }

  /** Reordering keeps keys distinct. */
  lemma PermutationKeepsDistinct<T, K>(xs: seq<T>, ys: seq<T>, key: T -> K)
    requires multiset(xs) == multiset(ys) && DistinctBy(xs, key)
    ensures DistinctBy(ys, key)
  {
    forall i, j | 0 <= i < j < |ys|
      ensures key(ys[i]) != key(ys[j])
    {
      if ys[i] == ys[j] {
        CountAtTwo(ys, i, j);
        var p, q := TwoPositions(xs, ys[i]);
      } else {
        var p := PositionOf(xs, ys[i]);
        var q := PositionOf(xs, ys[j]);
        if p < q {
          assert key(xs[p]) != key(xs[q]);
        } else {
          assert key(xs[q]) != key(xs[p]);
        }
      }
    }
  }
}
