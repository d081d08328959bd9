/**
 Go's `sort.Slice`: the result is some sorted permutation, and ties may come out in any order.
 The result is determined exactly when tied elements are equal.
 */
module Sorting {
  import opened Text

  /** What `sort.Slice` demands of its `less` argument: a strict weak order. */
  ghost predicate StrictWeakOrder<T(!new)>(less: (T, T) -> bool) {
    && (forall a, b :: less(a, b) ==> !less(b, a))
    && (forall a, b, c :: NotAfter(less, a, b) && NotAfter(less, b, c) ==> NotAfter(less, a, c))
  }

  ghost predicate NotAfter<T>(less: (T, T) -> bool, a: T, b: T) {
    !less(b, a)
  }

  ghost predicate Sorted<T>(xs: seq<T>, less: (T, T) -> bool) {
    forall i, j :: 0 <= i < j < |xs| ==> !less(xs[j], xs[i])
  }

  /** Elements that `less` leaves tied are equal. */
  ghost predicate Decided<T>(xs: seq<T>, less: (T, T) -> bool) {
    forall i, j :: 0 <= i < |xs| && 0 <= j < |xs| && !less(xs[i], xs[j]) && !less(xs[j], xs[i]) ==> xs[i] == xs[j]
  }

  ghost predicate SortedPermutation<T>(xs: seq<T>, ys: seq<T>, less: (T, T) -> bool) {
    multiset(ys) == multiset(xs) && Sorted(ys, less)
  }

  lemma InsertedIsSorted<T>(xs: seq<T>, i: nat, x: T, less: (T, T) -> bool)
    requires i <= |xs| && Sorted(xs, less)
    requires forall j :: 0 <= j < i ==> !less(x, xs[j])
    requires forall j :: i <= j < |xs| ==> !less(xs[j], x)
    ensures SortedPermutation(xs + [x], xs[..i] + [x] + xs[i..], less)
  {
    var ys := xs[..i] + [x] + xs[i..];
    assert multiset(ys) == multiset(xs + [x]) by {
      assert xs == xs[..i] + xs[i..];
    }
    forall a, b | 0 <= a < b < |ys| ensures !less(ys[b], ys[a]) {
      assert a < i ==> ys[a] == xs[a];
      assert a > i ==> ys[a] == xs[a - 1];
      assert b < i ==> ys[b] == xs[b];
      assert b > i ==> ys[b] == xs[b - 1];
    }
  }

  /** Inserts one element after every element that is not greater. */
  method InsertOne<T(!new)>(xs: seq<T>, x: T, less: (T, T) -> bool) returns (ys: seq<T>)
    requires StrictWeakOrder(less)
    requires Sorted(xs, less)
    ensures SortedPermutation(xs + [x], ys, less)
  {
    var i := |xs|;
    while i > 0 && less(x, xs[i - 1])
      invariant 0 <= i <= |xs|
      invariant forall j :: i <= j < |xs| ==> !less(xs[j], x)
    {
      i := i - 1;
    }
    forall a | 0 <= a < i ensures !less(x, xs[a]) {
      if a < i - 1 {
        assert NotAfter(less, xs[a], xs[i - 1]) && NotAfter(less, xs[i - 1], x);
        assert NotAfter(less, xs[a], x);
      }
    }
    InsertedIsSorted(xs, i, x, less);
    ys := xs[..i] + [x] + xs[i..];
  }

  method SortSlice<T(!new)>(xs: seq<T>, less: (T, T) -> bool) returns (ys: seq<T>)
    requires StrictWeakOrder(less)
    ensures SortedPermutation(xs, ys, less)
  {
    ys := [];
    for i := 0 to |xs|
      invariant SortedPermutation(xs[..i], ys, less)
    {
      TakeMore(xs, i);
      ys := InsertOne(ys, xs[i], less);
    }
    assert xs[..|xs|] == xs;
  }

  /** Where ties are equal, every sorted permutation is the same sequence. */
  lemma {:induction false} SortedPermutationIsUnique<T>(xs: seq<T>, ys: seq<T>, less: (T, T) -> bool)
    requires multiset(xs) == multiset(ys)
    requires Sorted(xs, less) && Sorted(ys, less) && Decided(xs, less)
    ensures xs == ys
    decreases |xs|
  {
    assert |xs| == |multiset(xs)| == |multiset(ys)| == |ys|;
    if |xs| > 0 {
      LeastIsFirst(xs, ys, less);
      assert xs == [xs[0]] + xs[1..] && ys == [ys[0]] + ys[1..];
      assert multiset(xs[1..]) == multiset(xs) - multiset{xs[0]};
      assert multiset(ys[1..]) == multiset(ys) - multiset{ys[0]};
      TailIsDecided(xs, less);
      SortedPermutationIsUnique(xs[1..], ys[1..], less);
    }
  }

  lemma LeastIsFirst<T>(xs: seq<T>, ys: seq<T>, less: (T, T) -> bool)
    requires multiset(xs) == multiset(ys) && |xs| > 0 && |ys| > 0
    requires Sorted(xs, less) && Sorted(ys, less) && Decided(xs, less)
    ensures xs[0] == ys[0]
  {
    assert ys[0] in multiset(xs) && xs[0] in multiset(ys);
    var i :| 0 <= i < |xs| && xs[i] == ys[0];
    var j :| 0 <= j < |ys| && ys[j] == xs[0];
    if i > 0 && j > 0 {
      assert !less(xs[i], xs[0]);
      assert !less(ys[j], ys[0]);
    }
  }

  lemma TailIsDecided<T>(xs: seq<T>, less: (T, T) -> bool)
    requires |xs| > 0 && Sorted(xs, less) && Decided(xs, less)
    ensures Sorted(xs[1..], less) && Decided(xs[1..], less)
  {
  }

  /** Two inputs with the same elements sort to the same sequence when ties are equal. */
  lemma SortIgnoresInputOrder<T>(xs: seq<T>, ys: seq<T>, xs': seq<T>, ys': seq<T>, less: (T, T) -> bool)
    requires multiset(xs) == multiset(ys)
    requires SortedPermutation(xs, xs', less) && SortedPermutation(ys, ys', less)
    requires Decided(xs', less)
    ensures xs' == ys'
  {
    SortedPermutationIsUnique(xs', ys', less);
  }

  /** Ordering records by a string key is a strict weak order. */
  lemma KeyOrder<T(!new)>(key: T -> string, less: (T, T) -> bool)
    requires forall a, b :: less(a, b) == Less(key(a), key(b))
    ensures StrictWeakOrder(less)
  {
    forall a: T, b: T | less(a, b) ensures !less(b, a) {
      if less(b, a) {
        LessTransitive(key(a), key(b), key(a));
        LessIrreflexive(key(a));
      }
    }
    forall a: T, b: T, c: T | NotAfter(less, a, b) && NotAfter(less, b, c) ensures NotAfter(less, a, c) {
      NotLessTransitive(key(a), key(b), key(c));
    }
  }

  /** Records with pairwise different keys leave no ties. */
  lemma DistinctKeysAreDecided<T(!new)>(xs: seq<T>, key: T -> string, less: (T, T) -> bool)
    requires forall a, b :: less(a, b) == Less(key(a), key(b))
    requires forall i, j :: 0 <= i < j < |xs| ==> key(xs[i]) != key(xs[j])
    ensures Decided(xs, less)
  {
    forall i, j | 0 <= i < |xs| && 0 <= j < |xs| && !less(xs[i], xs[j]) && !less(xs[j], xs[i])
      ensures xs[i] == xs[j]
    {
      LessTrichotomy(key(xs[i]), key(xs[j]));
    }
  }

  lemma TakeMore<T>(xs: seq<T>, i: nat)
    requires i < |xs|
    ensures xs[..i + 1] == xs[..i] + [xs[i]]
  {
  }

  // ---------- mapping a permutation ----------

  function Map<T, U>(xs: seq<T>, f: T -> U): (ys: seq<U>)
    ensures |ys| == |xs|
    ensures forall i :: 0 <= i < |xs| ==> ys[i] == f(xs[i])
  {
    seq(|xs|, i requires 0 <= i < |xs| => f(xs[i]))
  }

  function Without<T>(xs: seq<T>, i: nat): seq<T>
    requires i < |xs|
  {
    xs[..i] + xs[i + 1..]
  }

  lemma MultisetWithout<T>(xs: seq<T>, i: nat)
    requires i < |xs|
    ensures multiset(xs) == multiset(Without(xs, i)) + multiset{xs[i]}
  {
    assert xs == xs[..i] + [xs[i]] + xs[i + 1..];
  }

  lemma MapWithout<T, U>(xs: seq<T>, f: T -> U, i: nat)
    requires i < |xs|
    ensures multiset(Map(xs, f)) == multiset(Map(Without(xs, i), f)) + multiset{f(xs[i])}
  {
    MultisetWithout(Map(xs, f), i);
    assert Without(Map(xs, f), i) == Map(Without(xs, i), f);
  }

  /** Mapping keeps permutations. */
  lemma {:induction false} MapPermutation<T, U>(xs: seq<T>, ys: seq<T>, f: T -> U)
    requires multiset(xs) == multiset(ys)
    ensures multiset(Map(xs, f)) == multiset(Map(ys, f))
    decreases |xs|
  {
    hide Without;
    if xs == [] {
      assert |multiset(ys)| == |ys| == 0;
    } else {
      var n := |xs| - 1;
      assert xs[n] in multiset(xs);
      var i :| 0 <= i < |ys| && ys[i] == xs[n];
      MultisetWithout(xs, n);
      MultisetWithout(ys, i);
      assert multiset(Without(xs, n)) == multiset(xs) - multiset{xs[n]};
      assert multiset(Without(ys, i)) == multiset(ys) - multiset{xs[n]};
      MapPermutation(Without(xs, n), Without(ys, i), f);
      MapWithout(xs, f, n);
      MapWithout(ys, f, i);
    }
  }

  lemma SameMembers<T>(xs: seq<T>, ys: seq<T>)
    requires multiset(xs) == multiset(ys)
    ensures forall x :: x in xs <==> x in ys
  {
    assert forall x :: x in xs <==> x in multiset(xs);
    assert forall x :: x in ys <==> x in multiset(ys);
  }

  lemma MapMembers<T, U>(xs: seq<T>, ys: seq<T>, f: T -> U)
    requires multiset(xs) == multiset(ys)
    ensures forall x <- xs :: f(x) in Map(ys, f)
    ensures forall u <- Map(ys, f) :: exists x :: x in xs && f(x) == u
  {
    SameMembers(xs, ys);
    forall x | x in xs ensures f(x) in Map(ys, f) {
      var i :| 0 <= i < |ys| && ys[i] == x;
      assert Map(ys, f)[i] == f(x);
    }
    forall u | u in Map(ys, f) ensures exists x :: x in xs && f(x) == u {
      var i :| 0 <= i < |ys| && Map(ys, f)[i] == u;
      assert ys[i] in xs;
    }
  }

  // ---------- sequences without repeats ----------

  ghost predicate Distinct<T>(xs: seq<T>) {
    forall i, j :: 0 <= i < j < |xs| ==> xs[i] != xs[j]
  }

  lemma TwiceInMultiset<T>(xs: seq<T>, i: nat, j: nat)
    requires i < j < |xs| && xs[i] == xs[j]
    ensures multiset(xs)[xs[i]] >= 2
  {
    assert xs == xs[..i] + [xs[i]] + xs[i + 1..j] + [xs[j]] + xs[j + 1..];
  }

  lemma OnceInMultiset<T>(xs: seq<T>, i: nat)
    requires i < |xs| && forall j :: 0 <= j < |xs| && j != i ==> xs[j] != xs[i]
    ensures multiset(xs)[xs[i]] == 1
  {
    assert xs == xs[..i] + [xs[i]] + xs[i + 1..];
    assert xs[i] !in xs[..i] && xs[i] !in xs[i + 1..];
  }

  lemma DistinctCounts<T>(xs: seq<T>, x: T)
    requires Distinct(xs)
    ensures multiset(xs)[x] == if x in xs then 1 else 0
  {
    if x in xs {
      var i :| 0 <= i < |xs| && xs[i] == x;
      OnceInMultiset(xs, i);
    }
  }

  /** Sequences without repeats that have the same members are permutations of each other. */
  lemma DistinctSameMembers<T>(xs: seq<T>, ys: seq<T>)
    requires Distinct(xs) && Distinct(ys)
    requires forall x :: x in xs <==> x in ys
    ensures multiset(xs) == multiset(ys)
  {
    forall x ensures multiset(xs)[x] == multiset(ys)[x] {
      DistinctCounts(xs, x);
      DistinctCounts(ys, x);
    }
  }

  lemma DistinctPermutation<T>(xs: seq<T>, ys: seq<T>)
    requires Distinct(xs) && multiset(xs) == multiset(ys)
    ensures Distinct(ys)
  {
    forall i, j | 0 <= i < j < |ys| ensures ys[i] != ys[j] {
      if ys[i] == ys[j] {
        TwiceInMultiset(ys, i, j);
        DistinctCounts(xs, ys[i]);
      }
    }
  }

  // ---------- sorting as a function ----------

  function InsertPosition<T>(xs: seq<T>, x: T, less: (T, T) -> bool, from: nat): (i: nat)
    requires from <= |xs|
    ensures i <= from && (i > 0 ==> !less(x, xs[i - 1]))
    ensures forall j :: i <= j < from ==> less(x, xs[j])
  {
    if from > 0 && less(x, xs[from - 1]) then InsertPosition(xs, x, less, from - 1) else from
  }

  function Insert<T>(xs: seq<T>, x: T, less: (T, T) -> bool): seq<T> {
    var i := InsertPosition(xs, x, less, |xs|);
    xs[..i] + [x] + xs[i..]
  }

  /** Insertion sort: the reference that any sort agrees with when ties are equal. */
  function SortedBy<T>(xs: seq<T>, less: (T, T) -> bool): seq<T> {
    if xs == [] then [] else Insert(SortedBy(xs[..|xs| - 1], less), xs[|xs| - 1], less)
  }

  lemma InsertSorts<T(!new)>(xs: seq<T>, x: T, less: (T, T) -> bool)
    requires StrictWeakOrder(less) && Sorted(xs, less)
    ensures SortedPermutation(xs + [x], Insert(xs, x, less), less)
  {
    var i := InsertPosition(xs, x, less, |xs|);
    forall a | 0 <= a < i ensures !less(x, xs[a]) {
      if a < i - 1 {
        assert NotAfter(less, xs[a], xs[i - 1]) && NotAfter(less, xs[i - 1], x);
        assert NotAfter(less, xs[a], x);
      }
    }
    InsertedIsSorted(xs, i, x, less);
  }

  lemma {:induction false} SortedBySorts<T(!new)>(xs: seq<T>, less: (T, T) -> bool)
    requires StrictWeakOrder(less)
    ensures SortedPermutation(xs, SortedBy(xs, less), less)
  {
    if xs != [] {
      var n := |xs| - 1;
      SortedBySorts(xs[..n], less);
      InsertSorts(SortedBy(xs[..n], less), xs[n], less);
      assert xs == xs[..n] + [xs[n]];
    }
  }
}
