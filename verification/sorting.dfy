/**
 * The pre-processing step of the "Decreasing" algorithms: the queue of
 * items is sorted in place by size, largest first, by a stable sort, so
 * items of equal size keep their input order.
 */
module Sorting {
  import opened BinModel

  /**
   * `x` comes before `y` in the processing order of a Decreasing variant:
   * it is larger, or equally large and earlier in the input.
   */
  predicate Precedes(x: Item, y: Item)
  {
    x.size > y.size || (x.size == y.size && x.index < y.index)
  }

  /** Non-increasing by size, and stable: equal sizes appear in input order. */
  predicate SortedDescending(s: seq<Item>)
  {
    forall i, j :: 0 <= i < j < |s| ==> Precedes(s[i], s[j])
  }

  /** The order in which an algorithm hands the input items to the search. */
  predicate IsProcessingOrder(algorithm: Algorithm, sizes: seq<real>, order: seq<Item>)
  {
    if algorithm.Decreasing() then
      multiset(order) == multiset(Tagged(sizes)) && SortedDescending(order)
    else
      order == Tagged(sizes)
  }

  /**
   * Stable in-place sort, largest size first. The items arrive in input
   * order, each tagged with its position.
   */
  method SortBySizeDescending(a: array<Item>)
    requires forall k :: 0 <= k < a.Length ==> a[k].index == k
    modifies a
    ensures SortedDescending(a[..])
    ensures multiset(a[..]) == multiset(old(a[..]))
  {
    for i := 0 to a.Length
      invariant forall p, q :: 0 <= p < q < i ==> Precedes(a[p], a[q])
      invariant forall k :: 0 <= k < i ==> a[k].index < i
      invariant forall k :: i <= k < a.Length ==> a[k] == old(a[k])
      invariant multiset(a[..]) == multiset(old(a[..]))
    {
      InsertLeft(a, i);
    }
  }

  /**
   * One pass of the sort: the item at `i` is swapped leftwards past the
   * strictly smaller items before it, never past one of equal size, which is
   * what keeps ties in input order.
   */
  method InsertLeft(a: array<Item>, i: nat)
    requires i < a.Length
    requires forall p, q :: 0 <= p < q < i ==> Precedes(a[p], a[q])
    requires forall k :: 0 <= k < i ==> a[k].index < a[i].index
    modifies a
    ensures forall p, q :: 0 <= p < q <= i ==> Precedes(a[p], a[q])
    ensures forall k :: 0 <= k <= i ==> a[k].index <= old(a[i].index)
    ensures forall k :: i < k < a.Length ==> a[k] == old(a[k])
    ensures multiset(a[..]) == multiset(old(a[..]))
  {
    var j := i;
    while j > 0 && a[j - 1].size < a[j].size
      invariant 0 <= j <= i
      invariant a[j] == old(a[i])
      invariant forall k :: 0 <= k <= i && k != j ==> a[k].index < a[j].index
      invariant forall p, q :: 0 <= p < q <= i && p != j && q != j ==> Precedes(a[p], a[q])
      invariant forall q :: j < q <= i ==> a[j].size > a[q].size
      invariant forall k :: i < k < a.Length ==> a[k] == old(a[k])
      invariant multiset(a[..]) == multiset(old(a[..]))
    {
      Swap(a, j - 1, j);
      j := j - 1;
    }
    forall p | 0 <= p < j
      ensures Precedes(a[p], a[j])
    {
      assert Precedes(a[j - 1], a[j]);
    }
  }

  method Swap(a: array<Item>, i: nat, j: nat)
    requires i < j < a.Length
    modifies a
    ensures a[i] == old(a[j]) && a[j] == old(a[i])
    ensures forall k :: 0 <= k < a.Length && k != i && k != j ==> a[k] == old(a[k])
    ensures multiset(a[..]) == multiset(old(a[..]))
  {
    a[i], a[j] := a[j], a[i];
  }

  /** In a sorted sequence the sizes never increase, and equal sizes keep their input order. */
  lemma SortedIsStableDescending(s: seq<Item>, i: nat, j: nat)
    requires SortedDescending(s) && i < j < |s|
    ensures s[i].size >= s[j].size
    ensures s[i].size == s[j].size ==> s[i].index < s[j].index
  {
  }

  /**
   * Two sorted arrangements of the same items are the same sequence: the
   * processing order of a Decreasing variant is fully determined by its input.
   */
  lemma {:induction false} SortedPermutationUnique(xs: seq<Item>, ys: seq<Item>)
    requires multiset(xs) == multiset(ys)
    requires SortedDescending(xs) && SortedDescending(ys)
    ensures xs == ys
    decreases |xs|
  {
    if xs != [] {
      assert |ys| == |multiset(ys)| == |multiset(xs)| == |xs|;
      assert xs[0] in multiset(ys);
      assert ys[0] in multiset(xs);
      // each head comes before every other item of the other sequence
      assert xs[0] == ys[0];
      assert xs == [xs[0]] + xs[1..];
      assert ys == [ys[0]] + ys[1..];
      assert multiset(xs) == multiset{xs[0]} + multiset(xs[1..]);
      assert multiset(ys) == multiset{ys[0]} + multiset(ys[1..]);
      assert multiset(xs[1..]) == multiset(xs) - multiset{xs[0]};
      SortedPermutationUnique(xs[1..], ys[1..]);
    }
  }

  /** Reordering the items does not change their total size. */
  lemma {:induction false} PermutationKeepsTotal(xs: seq<Item>, ys: seq<Item>)
    requires multiset(xs) == multiset(ys)
    ensures TotalSize(xs) == TotalSize(ys)
    decreases |xs|
  {
    if xs != [] {
      var n := |xs| - 1;
      var k := MatchLast(xs, ys);
      var x, left, right := xs[n], ys[..k], ys[k + 1..];
      PermutationKeepsTotal(xs[..n], left + right);
      assert ys == left + [x] + right;
      TotalSizeAppend(left + [x], right);
      TotalSizeAppend(left, [x]);
      TotalSizeAppend(left, right);
      assert Sizes([x]) == [x.size];
      SumAppend([], x.size);
    }
  }

  /** Reordering the items keeps the multiset of their input positions. */
  lemma {:induction false} PermutationKeepsIndices(xs: seq<Item>, ys: seq<Item>)
    requires multiset(xs) == multiset(ys)
    ensures multiset(Indices(xs)) == multiset(Indices(ys))
    decreases |xs|
  {
    if xs != [] {
      var n := |xs| - 1;
      var k := MatchLast(xs, ys);
      var x, left, right := xs[n], ys[..k], ys[k + 1..];
      PermutationKeepsIndices(xs[..n], left + right);
      assert ys == left + [x] + right;
      IndicesAppend(left, [x]);
      IndicesAppend(left + [x], right);
      IndicesAppend(left, right);
      MultisetMoveLast(Indices(xs[..n]), Indices(left), Indices(right), x.index);
    }
  }

  /** The last item of `xs` sits somewhere in its permutation `ys`; both remainders are permutations. */
  lemma MatchLast(xs: seq<Item>, ys: seq<Item>) returns (k: nat)
    requires multiset(xs) == multiset(ys) && xs != []
    ensures k < |ys| && ys[k] == xs[|xs| - 1]
    ensures multiset(xs[..|xs| - 1]) == multiset(ys[..k] + ys[k + 1..])
  {
    var n := |xs| - 1;
    assert xs[n] in multiset(ys);
    k :| 0 <= k < |ys| && ys[k] == xs[n];
    assert ys == ys[..k] + [ys[k]] + ys[k + 1..];
    assert xs == xs[..n] + [xs[n]];
    assert multiset(ys[..k] + ys[k + 1..]) == multiset(ys) - multiset{xs[n]};
  }

  lemma MultisetMoveLast(p: seq<nat>, left: seq<nat>, right: seq<nat>, v: nat)
    requires multiset(p) == multiset(left + right)
    ensures multiset(p + [v]) == multiset(left + [v] + right)
  {
    assert multiset(left + [v] + right) == multiset(left + right) + multiset{v};
  }
}
