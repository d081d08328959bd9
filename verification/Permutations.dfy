/** What a permutation keeps: pairwise properties, sums, and lookups with one answer. */
module Permutations {
  import opened Sorting
  import opened EvidenceGraph

  ghost predicate Pairwise<T>(xs: seq<T>, p: (T, T) -> bool) {
    forall i, j :: 0 <= i < j < |xs| ==> p(xs[i], xs[j])
  }

  lemma TwoPositions<T>(xs: seq<T>, x: T) returns (i: nat, j: nat)
    requires multiset(xs)[x] >= 2
    ensures i < j < |xs| && xs[i] == xs[j] == x
  {
    assert x in multiset(xs);
    i :| 0 <= i < |xs| && xs[i] == x;
    if forall k :: 0 <= k < |xs| && k != i ==> xs[k] != x {
      OnceInMultiset(xs, i);
    }
    j :| 0 <= j < |xs| && j != i && xs[j] == x;
    if j < i {
      i, j := j, i;
    }
  }

  /** A symmetric pairwise property does not depend on the order. */
  lemma PairwisePermutation<T>(xs: seq<T>, ys: seq<T>, p: (T, T) -> bool)
    requires multiset(xs) == multiset(ys) && Pairwise(xs, p) && forall a <- xs, b <- xs :: p(a, b) == p(b, a)
    ensures Pairwise(ys, p)
  {
    SameMembers(xs, ys);
    forall i, j | 0 <= i < j < |ys| ensures p(ys[i], ys[j]) {
      if ys[i] == ys[j] {
        TwiceInMultiset(ys, i, j);
        var a, b := TwoPositions(xs, ys[i]);
        assert p(xs[a], xs[b]);
      } else {
        var a :| 0 <= a < |xs| && xs[a] == ys[i];
        var b :| 0 <= b < |xs| && xs[b] == ys[j];
        assert if a < b then p(xs[a], xs[b]) else p(xs[b], xs[a]);
      }
    }
  }

  function SumBy<T>(xs: seq<T>, weight: T -> int): int {
    if xs == [] then 0 else SumBy(xs[..|xs| - 1], weight) + weight(xs[|xs| - 1])
  }

  lemma {:induction false} SumWithout<T>(xs: seq<T>, i: nat, weight: T -> int)
    requires i < |xs|
    ensures SumBy(xs, weight) == SumBy(Without(xs, i), weight) + weight(xs[i])
  {
    var n := |xs| - 1;
    if i < n {
      SumWithout(xs[..n], i, weight);
      var rest := Without(xs, i);
      assert rest[..|rest| - 1] == Without(xs[..n], i) && rest[|rest| - 1] == xs[n];
    } else {
      assert Without(xs, i) == xs[..n];
    }
  }

  lemma {:induction false} SumPermutation<T>(xs: seq<T>, ys: seq<T>, weight: T -> int)
    requires multiset(xs) == multiset(ys)
    ensures SumBy(xs, weight) == SumBy(ys, weight)
    decreases |xs|
  {
    assert |xs| == |multiset(xs)| == |multiset(ys)| == |ys|;
    if xs != [] {
      var n := |xs| - 1;
      assert xs[n] in multiset(ys);
      var i :| 0 <= i < |ys| && ys[i] == xs[n];
      MultisetWithout(xs, n);
      MultisetWithout(ys, i);
      assert multiset(Without(xs, n)) == multiset(xs) - multiset{xs[n]};
      assert multiset(Without(ys, i)) == multiset(ys) - multiset{xs[n]};
      SumPermutation(Without(xs, n), Without(ys, i), weight);
      SumWithout(xs, n, weight);
      SumWithout(ys, i, weight);
    }
  }

  /** A search with at most one answer finds it in any order, from either end. */
  lemma SameLookup<T>(xs: seq<T>, ys: seq<T>, p: T -> bool)
    requires multiset(xs) == multiset(ys) && forall a <- xs, b <- xs :: p(a) && p(b) ==> a == b
    ensures First(xs, p) == First(ys, p) == Last(xs, p) == Last(ys, p)
  {
    SameMembers(xs, ys);
  }

  lemma SameLength<T>(xs: seq<T>, ys: seq<T>)
    requires multiset(xs) == multiset(ys)
    ensures |xs| == |ys|
  {
    assert |multiset(xs)| == |xs| && |multiset(ys)| == |ys|;
  }

  lemma SingletonKept<T>(xs: seq<T>, ys: seq<T>)
    requires multiset(xs) == multiset(ys) && |xs| <= 1
    ensures xs == ys
  {
    SameLength(xs, ys);
    if |xs| == 1 {
      assert xs[0] in multiset(ys);
    }
  }
}
