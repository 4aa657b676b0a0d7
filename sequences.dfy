/** Sequence operations that pandas performs on rows and columns: boolean-mask
    selection (`df[mask]`), `unique()` in order of first appearance, and
    `sort_values(..., inplace=True)`. */
module Sequences {

  // ---------------------------------------------------------------------------
  // Boolean-mask selection

  /** The elements of `xs` that satisfy `p`, in their original order. */
  function Filter<T>(xs: seq<T>, p: T -> bool): (r: seq<T>)
    ensures |r| <= |xs|
  {
    if xs == [] then [] else Filter(xs[..|xs| - 1], p) + (if p(xs[|xs| - 1]) then [xs[|xs| - 1]] else [])
  }

  /** Every selected element comes from `xs` and satisfies `p`, and every
      element of `xs` that satisfies `p` is selected. */
  lemma {:induction false} FilterMembership<T>(xs: seq<T>, p: T -> bool)
    ensures forall i :: 0 <= i < |Filter(xs, p)| ==> Filter(xs, p)[i] in xs && p(Filter(xs, p)[i])
    ensures forall i :: 0 <= i < |xs| && p(xs[i]) ==> xs[i] in Filter(xs, p)
  {
    if xs != [] {
      var init, last := xs[..|xs| - 1], xs[|xs| - 1];
      FilterMembership(init, p);
      assert xs == init + [last];
    }
  }

  /** The positions of `xs` whose element satisfies `p`, ascending. */
  function KeptIndices<T>(xs: seq<T>, p: T -> bool): (ix: seq<nat>)
    ensures forall k :: 0 <= k < |ix| ==> ix[k] < |xs|
  {
    if xs == [] then []
    else KeptIndices(xs[..|xs| - 1], p) + (if p(xs[|xs| - 1]) then [|xs| - 1] else [])
  }

  lemma {:induction false} KeptIndicesMatchFilter<T>(xs: seq<T>, p: T -> bool)
    ensures |KeptIndices(xs, p)| == |Filter(xs, p)|
    ensures forall k :: 0 <= k < |Filter(xs, p)| ==> Filter(xs, p)[k] == xs[KeptIndices(xs, p)[k]]
  {
    if xs != [] {
      var init := xs[..|xs| - 1];
      KeptIndicesMatchFilter(init, p);
      forall i | 0 <= i < |init| ensures init[i] == xs[i] { }
    }
  }

  lemma {:induction false} KeptIndicesAscend<T>(xs: seq<T>, p: T -> bool)
    ensures forall k, l :: 0 <= k < l < |KeptIndices(xs, p)| ==> KeptIndices(xs, p)[k] < KeptIndices(xs, p)[l]
    ensures forall i :: 0 <= i < |xs| ==> (i in KeptIndices(xs, p) <==> p(xs[i]))
  {
    if xs != [] {
      var init := xs[..|xs| - 1];
      KeptIndicesAscend(init, p);
      forall i | 0 <= i < |init| ensures init[i] == xs[i] { }
    }
  }

  /** `Filter` is an order-preserving subsequence: its k-th element is the
      element of `xs` at the k-th kept position, the kept positions ascend,
      and a position is kept exactly when its element satisfies `p`. */
  lemma FilterIsOrderedSubsequence<T>(xs: seq<T>, p: T -> bool)
    ensures |KeptIndices(xs, p)| == |Filter(xs, p)|
    ensures forall k :: 0 <= k < |Filter(xs, p)| ==> Filter(xs, p)[k] == xs[KeptIndices(xs, p)[k]]
    ensures forall k, l :: 0 <= k < l < |KeptIndices(xs, p)| ==> KeptIndices(xs, p)[k] < KeptIndices(xs, p)[l]
    ensures forall i :: 0 <= i < |xs| ==> (i in KeptIndices(xs, p) <==> p(xs[i]))
  {
    KeptIndicesMatchFilter(xs, p);
    KeptIndicesAscend(xs, p);
  }

  /** Selecting by a predicate that every element satisfies keeps them all. */
  lemma {:induction false} FilterKeepsAll<T>(xs: seq<T>, p: T -> bool)
    requires forall i :: 0 <= i < |xs| ==> p(xs[i])
    ensures Filter(xs, p) == xs
  {
    if xs != [] {
      var init, last := xs[..|xs| - 1], xs[|xs| - 1];
      assert forall i :: 0 <= i < |init| ==> init[i] == xs[i];
      FilterKeepsAll(init, p);
      assert p(last);
      assert xs == init + [last];
    }
  }

  /** Selecting by `p` and then by `q` is selecting once by both. */
  lemma {:induction false} FilterTwice<T>(xs: seq<T>, p: T -> bool, q: T -> bool, pq: T -> bool)
    requires forall x :: pq(x) == (p(x) && q(x))
    ensures Filter(Filter(xs, p), q) == Filter(xs, pq)
  {
    if xs != [] {
      var init, last := xs[..|xs| - 1], xs[|xs| - 1];
      FilterTwice(init, p, q, pq);
      var once := Filter(init, p);
      if p(last) {
        assert Filter(xs, p) == once + [last];
        assert (once + [last])[..|once|] == once;
      } else {
        assert Filter(xs, p) == once;
      }
    }
  }

  /** Two predicates that agree on every element select the same elements. */
  lemma {:induction false} FilterSamePredicate<T>(xs: seq<T>, p: T -> bool, q: T -> bool)
    requires forall i :: 0 <= i < |xs| ==> p(xs[i]) == q(xs[i])
    ensures Filter(xs, p) == Filter(xs, q)
  {
    if xs != [] {
      var init := xs[..|xs| - 1];
      assert forall i :: 0 <= i < |init| ==> init[i] == xs[i];
      FilterSamePredicate(init, p, q);
    }
  }

  // ---------------------------------------------------------------------------
  // unique(), in order of first appearance

  predicate Distinct<T(==)>(s: seq<T>)
  {
    forall i, j :: 0 <= i < j < |s| ==> s[i] != s[j]
  }

  /** Position of the first occurrence of `x` in `xs`. */
  function FirstIndex<T(==)>(xs: seq<T>, x: T): (k: nat)
    requires x in xs
    ensures k < |xs| && xs[k] == x && x !in xs[..k]
  {
    var init := xs[..|xs| - 1];
    if x in init then
      var k := FirstIndex(init, x);
      assert xs[..k] == init[..k];
      k
    else
      assert xs == init + [xs[|xs| - 1]];
      |xs| - 1
  }

  /** pandas `Series.unique()`: each value once, in order of first appearance. */
  function Unique<T(==)>(xs: seq<T>): (r: seq<T>)
    ensures |r| <= |xs|
    ensures forall i :: 0 <= i < |r| ==> r[i] in xs
    ensures forall i :: 0 <= i < |xs| ==> xs[i] in r
    ensures Distinct(r)
  {
    if xs == [] then []
    else
      var init, last := xs[..|xs| - 1], xs[|xs| - 1];
      assert xs == init + [last];
      var u := Unique(init);
      if last in u then u else u + [last]
  }

  /** The values of `Unique(xs)` come in the order of their first appearance in `xs`. */
  lemma {:induction false} UniqueKeepsFirstAppearanceOrder<T>(xs: seq<T>)
    ensures forall i, j :: 0 <= i < j < |Unique(xs)| ==>
      FirstIndex(xs, Unique(xs)[i]) < FirstIndex(xs, Unique(xs)[j])
  {
    if xs != [] {
      var init, last := xs[..|xs| - 1], xs[|xs| - 1];
      UniqueKeepsFirstAppearanceOrder(init);
      var u := Unique(init);
      forall v | v in init ensures FirstIndex(xs, v) == FirstIndex(init, v) { }
      if last !in u {
        forall i | 0 <= i < |u| ensures FirstIndex(xs, u[i]) < FirstIndex(xs, last) {
          assert u[i] in init;
        }
      }
    }
  }

  // ---------------------------------------------------------------------------
  // sort_values(key, inplace=True)

  predicate SortedBy<T>(s: seq<T>, key: T -> int)
  {
    forall i, j :: 0 <= i < j < |s| ==> key(s[i]) <= key(s[j])
  }

  /** Sorts `a` in place, ascending by `key` (insertion sort). Only the order
      of the keys and the multiset of elements are promised, as pandas' default
      sort promises no order among equal keys. */
  method SortInPlace<T>(a: array<T>, key: T -> int)
    modifies a
    ensures SortedBy(a[..], key)
    ensures multiset(a[..]) == multiset(old(a[..]))
  {
    var i := 0;
    while i < a.Length
      invariant 0 <= i <= a.Length
      invariant SortedBy(a[..i], key)
      invariant multiset(a[..]) == multiset(old(a[..]))
    {
      InsertLast(a, i, key);
      i := i + 1;
    }
    assert a[..a.Length] == a[..];
  }

  /** Moves `a[i]` down into the sorted prefix `a[..i]`, so that `a[..i+1]` is sorted. */
  method InsertLast<T>(a: array<T>, i: nat, key: T -> int)
    requires i < a.Length
    requires SortedBy(a[..i], key)
    modifies a
    ensures SortedBy(a[..i + 1], key)
    ensures multiset(a[..]) == multiset(old(a[..]))
  {
    var j := i;
    while j > 0 && key(a[j - 1]) > key(a[j])
      invariant 0 <= j <= i
      invariant forall p, q :: 0 <= p < q <= i && p != j && q != j ==> key(a[p]) <= key(a[q])
      invariant forall q :: j < q <= i ==> key(a[j]) < key(a[q])
      invariant multiset(a[..]) == multiset(old(a[..]))
    {
      SwapDown(a, j);
      j := j - 1;
    }
  }

  /** Exchanges `a[j-1]` and `a[j]`. */
  method SwapDown<T>(a: array<T>, j: nat)
    requires 0 < j < a.Length
    modifies a
    ensures a[..] == old(a[..])[j - 1 := old(a[j])][j := old(a[j - 1])]
    ensures multiset(a[..]) == multiset(old(a[..]))
  {
    a[j - 1], a[j] := a[j], a[j - 1];
  }
}
