/** Sorting by a strict order, and why a sorted list is determined by its elements alone. */
module Ordering {

  ghost predicate StrictOrder<T(!new)>(less: (T, T) -> bool) {
    && (forall x :: !less(x, x))
    && (forall x, y, z :: less(x, y) && less(y, z) ==> less(x, z))
  }

  /** Any two different positions hold comparable elements, so in particular nothing is repeated. */
  ghost predicate Comparable<T>(less: (T, T) -> bool, xs: seq<T>) {
    forall i, j :: 0 <= i < j < |xs| ==> less(xs[i], xs[j]) || less(xs[j], xs[i])
  }

  ghost predicate Sorted<T>(less: (T, T) -> bool, xs: seq<T>) {
    forall i, j :: 0 <= i < j < |xs| ==> less(xs[i], xs[j])
  }

  ghost predicate SameElements<T>(xs: seq<T>, ys: seq<T>) {
    && (forall i :: 0 <= i < |xs| ==> xs[i] in ys)
    && (forall i :: 0 <= i < |ys| ==> ys[i] in xs)
  }

  /** Two strictly sorted lists with the same elements are the same list. */
  lemma {:induction false} SortedUnique<T(!new)>(less: (T, T) -> bool, xs: seq<T>, ys: seq<T>)
    requires StrictOrder(less) && Sorted(less, xs) && Sorted(less, ys) && SameElements(xs, ys)
    ensures xs == ys
  {
    if xs == [] {
      assert ys == [];
    } else {
      assert xs[0] in ys;
      assert ys[0] in xs;
      var i :| 0 <= i < |ys| && ys[i] == xs[0];
      var j :| 0 <= j < |xs| && xs[j] == ys[0];
      assert xs[0] == ys[0];
      TailsMatch(less, xs, ys);
      TailsMatch(less, ys, xs);
      SortedUnique(less, xs[1..], ys[1..]);
      assert xs == [xs[0]] + xs[1..] && ys == [ys[0]] + ys[1..];
    }
  }

  lemma TailsMatch<T(!new)>(less: (T, T) -> bool, xs: seq<T>, ys: seq<T>)
    requires StrictOrder(less) && Sorted(less, xs) && SameElements(xs, ys)
    requires xs != [] && ys != [] && xs[0] == ys[0]
    ensures forall i :: 0 <= i < |xs| - 1 ==> xs[1..][i] in ys[1..]
  {
    forall i | 0 <= i < |xs| - 1 ensures xs[1..][i] in ys[1..] {
      var x := xs[1..][i];
      assert x == xs[i + 1] && less(xs[0], xs[i + 1]);
      assert x in ys;
      var k :| 0 <= k < |ys| && ys[k] == x;
      assert k != 0;
      assert ys[1..][k - 1] == x;
    }
  }

  /** In a strictly sorted list every element has one place. */
  lemma SortedPlace<T(!new)>(less: (T, T) -> bool, xs: seq<T>, i: nat, j: nat)
    requires StrictOrder(less) && Sorted(less, xs) && i < |xs| && j < |xs| && xs[i] == xs[j]
    ensures i == j
  {
  }

  lemma InsertSorted<T(!new)>(less: (T, T) -> bool, xs: seq<T>, x: T, k: nat)
    requires StrictOrder(less) && Sorted(less, xs)
    requires k <= |xs|
    requires forall i :: 0 <= i < k ==> less(xs[i], x)
    requires k < |xs| ==> less(x, xs[k])
    ensures Sorted(less, xs[..k] + [x] + xs[k..])
  {
    var ys := xs[..k] + [x] + xs[k..];
    forall i, j | 0 <= i < j < |ys| ensures less(ys[i], ys[j]) {
      if i < k && j < k {
        assert less(xs[i], xs[j]);
      } else if i == k {
        assert ys[j] == xs[j - 1];
        if j - 1 != k { assert less(xs[k], xs[j - 1]); }
      } else if i > k {
        assert less(xs[i - 1], xs[j - 1]);
      } else if j > k {
        assert ys[j] == xs[j - 1] && less(xs[i], xs[j - 1]);
      }
    }
  }

  lemma EmptySorted<T(!new)>(less: (T, T) -> bool)
    ensures Sorted(less, [])
  {
  }

  /** `sort.Slice` and `sort.Strings` on a list whose elements are pairwise comparable. */
  method Sort<T(!new)>(less: (T, T) -> bool, xs: seq<T>) returns (sorted: seq<T>)
    requires StrictOrder(less) && Comparable(less, xs)
    ensures Sorted(less, sorted) && multiset(sorted) == multiset(xs)
  {
    hide Sorted, StrictOrder, Comparable;
    sorted := [];
    EmptySorted(less);
    for n := 0 to |xs|
      invariant Sorted(less, sorted) && multiset(sorted) == multiset(xs[..n])
    {
      var k := Place(less, sorted, xs, n);
      InsertSorted(less, sorted, xs[n], k);
      InsertedElements(sorted, xs[n], k);
      TakenElements(xs, n);
      sorted := sorted[..k] + [xs[n]] + sorted[k..];
    }
    assert xs[..|xs|] == xs;
  }

  lemma InsertedElements<T>(xs: seq<T>, x: T, k: nat)
    requires k <= |xs|
    ensures multiset(xs[..k] + [x] + xs[k..]) == multiset(xs) + multiset{x}
  {
    assert xs == xs[..k] + xs[k..];
  }

  lemma TakenElements<T>(xs: seq<T>, n: nat)
    requires n < |xs|
    ensures multiset(xs[..n + 1]) == multiset(xs[..n]) + multiset{xs[n]}
  {
    assert xs[..n + 1] == xs[..n] + [xs[n]];
  }

  /** Where the next element goes among those already sorted. */
  method Place<T(!new)>(less: (T, T) -> bool, sorted: seq<T>, xs: seq<T>, n: nat) returns (k: nat)
    requires n < |xs| && Comparable(less, xs)
    requires multiset(sorted) == multiset(xs[..n])
    ensures k <= |sorted|
    ensures forall i :: 0 <= i < k ==> less(sorted[i], xs[n])
    ensures k < |sorted| ==> less(xs[n], sorted[k])
  {
    k := 0;
    while k < |sorted| && less(sorted[k], xs[n])
      invariant 0 <= k <= |sorted|
      invariant forall i :: 0 <= i < k ==> less(sorted[i], xs[n])
    {
      k := k + 1;
    }
    if k < |sorted| {
      assert sorted[k] in multiset(sorted);
      assert sorted[k] in xs[..n];
      ghost var i :| 0 <= i < n && xs[i] == sorted[k];
    }
  }
}
