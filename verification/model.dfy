/**
 * Shared vocabulary of the bin-packing engine: the capacity and tolerance
 * constants, items, the four algorithms, the events a run records, and the
 * sums and projections used to state its properties.
 */
module BinModel {

  datatype Option<T> = None | Some(value: T)

  /** Every bin holds 1.0; a comparison may overshoot it by Eps. */
  const Capacity: real := 1.0
  const Eps: real := 0.0001

  /** An item remembers its position in the input, so reordering keeps it traceable. */
  datatype Item = Item(index: nat, size: real)

  /** The two search rules; each algorithm uses exactly one of them. */
  datatype Scan = FirstFitScan | BestFitScan

  datatype Algorithm = FF | BF | FFD | BFD
  {
    /** The "Decreasing" variants sort the items before packing them. */
    predicate Decreasing() { this == FFD || this == BFD }

    function Rule(): Scan { if this == FF || this == FFD then FirstFitScan else BestFitScan }
  }

  /** One decision of a run, in the order it is taken. */
  datatype Event =
    | SortApplied(order: seq<nat>)
    | BinCreated(bin: nat)
    | BinInspected(item: nat, bin: nat, accepted: bool)
    | BestCandidateUpdated(item: nat, bin: nat)
    | ItemPlaced(item: nat, bin: nat, fill: real)
    | SimulationComplete(binsUsed: nat)

  /** The First-Fit acceptance test. */
  predicate Fits(fill: real, size: real) { fill + size <= Capacity + Eps }

  /** The room left in a bin once the item is in it. */
  function Residual(fill: real, size: real): real { Capacity - fill - size }

  /** The Best-Fit acceptance test. */
  predicate IsCandidate(fill: real, size: real) { Residual(fill, size) >= -Eps }

  predicate ValidSize(size: real) { 0.0 < size <= Capacity }

  predicate ValidSizes(sizes: seq<real>) { forall k :: 0 <= k < |sizes| ==> ValidSize(sizes[k]) }

  predicate ValidItems(items: seq<Item>) { forall k :: 0 <= k < |items| ==> ValidSize(items[k].size) }

  /** Every bin is non-empty and within capacity (up to the tolerance). */
  predicate Packed(fills: seq<real>) { forall b :: 0 <= b < |fills| ==> 0.0 < fills[b] <= Capacity + Eps }

  /** The input sizes as items in input order. */
  function Tagged(sizes: seq<real>): (r: seq<Item>)
    ensures |r| == |sizes|
    ensures forall k :: 0 <= k < |r| ==> r[k].index == k && r[k].size == sizes[k]
  {
    seq(|sizes|, k requires 0 <= k < |sizes| => Item(k, sizes[k]))
  }

  /** The input positions of the items, in their current order. */
  function Indices(items: seq<Item>): (r: seq<nat>)
    ensures |r| == |items|
    ensures forall k :: 0 <= k < |r| ==> r[k] == items[k].index
  {
    if items == [] then [] else Indices(items[..|items| - 1]) + [items[|items| - 1].index]
  }

  /** 0, 1, ..., n - 1. */
  function Range(n: nat): (r: seq<nat>)
    ensures |r| == n
    ensures forall k :: 0 <= k < n ==> r[k] == k
  {
    if n == 0 then [] else Range(n - 1) + [n - 1]
  }

  function Sum(s: seq<real>): real
  {
    if s == [] then 0.0 else Sum(s[..|s| - 1]) + s[|s| - 1]
  }

  /** The sizes of the items, in their current order. */
  function Sizes(items: seq<Item>): (r: seq<real>)
    ensures |r| == |items|
    ensures forall k :: 0 <= k < |r| ==> r[k] == items[k].size
  {
    if items == [] then [] else Sizes(items[..|items| - 1]) + [items[|items| - 1].size]
  }

  function TotalSize(items: seq<Item>): real
  {
    Sum(Sizes(items))
  }

  /** Views of a trace: the items placed, the bins created, the bins inspected. */
  datatype View = PlacedItems | CreatedBins | InspectedBins

  function Pick(e: Event, view: View): Option<nat>
  {
    match view
    case PlacedItems => if e.ItemPlaced? then Some(e.item) else None
    case CreatedBins => if e.BinCreated? then Some(e.bin) else None
    case InspectedBins => if e.BinInspected? then Some(e.bin) else None
  }

  /** The numbers a view picks out of a trace, in trace order. */
  function Collect(trace: seq<Event>, view: View): seq<nat>
  {
    if trace == [] then []
    else
      Collect(trace[..|trace| - 1], view) +
      match Pick(trace[|trace| - 1], view) { case Some(v) => [v] case None => [] }
  }

  /** The bin of the latest BestCandidateUpdated event, if there is one. */
  function LastBestUpdate(trace: seq<Event>): Option<nat>
  {
    if trace == [] then None
    else if trace[|trace| - 1].BestCandidateUpdated? then Some(trace[|trace| - 1].bin)
    else LastBestUpdate(trace[..|trace| - 1])
  }

  lemma {:induction false} CollectAppend(a: seq<Event>, b: seq<Event>, view: View)
    ensures Collect(a + b, view) == Collect(a, view) + Collect(b, view)
    decreases |b|
  {
    if b != [] {
      var b' := b[..|b| - 1];
      assert (a + b)[..|a + b| - 1] == a + b';
      CollectAppend(a, b', view);
    } else {
      assert a + b == a;
    }
  }

  /** Updating one bin changes the total by exactly the amount added. */
  lemma {:induction false} SumUpdate(s: seq<real>, k: nat, d: real)
    requires k < |s|
    ensures Sum(s[k := s[k] + d]) == Sum(s) + d
    decreases |s|
  {
    var t := s[k := s[k] + d];
    var n := |s| - 1;
    assert t[..n] == if k < n then s[..n][k := s[k] + d] else s[..n];
    if k < n {
      SumUpdate(s[..n], k, d);
    }
  }

  lemma SumAppend(s: seq<real>, x: real)
    ensures Sum(s + [x]) == Sum(s) + x
  {
    assert (s + [x])[..|s|] == s;
  }

  lemma IndicesAppend(xs: seq<Item>, ys: seq<Item>)
    ensures Indices(xs + ys) == Indices(xs) + Indices(ys)
  {
    assert |Indices(xs + ys)| == |Indices(xs) + Indices(ys)|;
  }

  lemma {:induction false} SumConcat(a: seq<real>, b: seq<real>)
    ensures Sum(a + b) == Sum(a) + Sum(b)
    decreases |b|
  {
    if b == [] {
      assert a + b == a;
    } else {
      var b' := b[..|b| - 1];
      assert (a + b)[..|a + b| - 1] == a + b';
      SumConcat(a, b');
    }
  }

  lemma SizesAppend(xs: seq<Item>, ys: seq<Item>)
    ensures Sizes(xs + ys) == Sizes(xs) + Sizes(ys)
  {
    assert |Sizes(xs + ys)| == |Sizes(xs) + Sizes(ys)|;
  }

  lemma TotalSizeAppend(a: seq<Item>, b: seq<Item>)
    ensures TotalSize(a + b) == TotalSize(a) + TotalSize(b)
  {
    SizesAppend(a, b);
    SumConcat(Sizes(a), Sizes(b));
  }

  /** Adding one item to the end adds its size to the total. */
  lemma TotalSizeSnoc(items: seq<Item>)
    requires items != []
    ensures TotalSize(items) == TotalSize(items[..|items| - 1]) + items[|items| - 1].size
  {
    var n := |items| - 1;
    SumAppend(Sizes(items[..n]), items[n].size);
  }

  /** The input positions of the tagged input are 0, 1, ..., in order. */
  lemma IndicesOfTagged(sizes: seq<real>)
    ensures Indices(Tagged(sizes)) == Range(|sizes|)
  {
    var a, b := Indices(Tagged(sizes)), Range(|sizes|);
    assert |a| == |b|;
    forall k | 0 <= k < |a|
      ensures a[k] == b[k]
    {
    }
  }

  /** The total size of the tagged input is the sum of the raw sizes. */
  lemma TotalSizeTagged(sizes: seq<real>)
    ensures TotalSize(Tagged(sizes)) == Sum(sizes)
  {
    assert Sizes(Tagged(sizes)) == sizes;
  }
}
