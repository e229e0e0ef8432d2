/**
 * The packing loop as specification functions: what one item does to the
 * list of bin fill levels and to the trace, what a whole run produces, and
 * the properties of that result (capacity, conservation, bin count, the
 * record of placements).
 */
module Packing {
  import opened BinModel
  import opened Search

  /** The existing bin the search selects, if any. */
  function Target(fills: seq<real>, size: real, rule: Scan): Option<nat>
  {
    match rule
    case FirstFitScan => FirstFit(fills, size)
    case BestFitScan => BestFit(fills, size)
  }

  /** The bin the item lands in: the selected one, or else a new bin at the end of the list. */
  function PlacedBin(fills: seq<real>, size: real, rule: Scan): (b: nat)
    ensures b <= |fills|
  {
    match Target(fills, size, rule)
    case Some(t) => t
    case None => |fills|
  }

  /** The bins once the search has run: a new empty bin is opened only when none was selected. */
  function Opened(fills: seq<real>, size: real, rule: Scan): seq<real>
  {
    if Target(fills, size, rule).None? then fills + [0.0] else fills
  }

  /**
   * The fill levels after placing one item: the chosen bin goes up by
   * exactly `size`, every other bin is as it was, no bin disappears, and a
   * bin is added (holding just the item) exactly when no existing bin was
   * selected.
   */
  function Step(fills: seq<real>, size: real, rule: Scan): (r: seq<real>)
    ensures |r| == (if Target(fills, size, rule).None? then |fills| + 1 else |fills|)
    ensures PlacedBin(fills, size, rule) < |r|
    ensures var b := PlacedBin(fills, size, rule);
      r[b] == (if b < |fills| then fills[b] else 0.0) + size
  {
    var grown := Opened(fills, size, rule);
    var b := PlacedBin(fills, size, rule);
    grown[b := grown[b] + size]
  }

  /** Placing an item leaves every bin other than the chosen one as it was. */
  lemma StepKeepsOtherBins(fills: seq<real>, size: real, rule: Scan, k: nat)
    requires k < |fills| && k != PlacedBin(fills, size, rule)
    ensures Step(fills, size, rule)[k] == fills[k]
  {
  }

  function SearchEvents(item: Item, fills: seq<real>, rule: Scan): seq<Event>
  {
    match rule
    case FirstFitScan => FirstFitEvents(item, fills)
    case BestFitScan => BestFitEvents(item, fills, |fills|)
  }

  /** What handling one item records: its search, a bin creation if any, and its placement. */
  function StepEvents(item: Item, fills: seq<real>, rule: Scan): seq<Event>
  {
    var b := PlacedBin(fills, item.size, rule);
    SearchEvents(item, fills, rule) +
    (if Target(fills, item.size, rule).None? then [BinCreated(|fills|)] else []) +
    [ItemPlaced(item.index, b, Step(fills, item.size, rule)[b])]
  }

  /** The fill levels after the items, handled in the given order, starting with no bins. */
  function Pack(rule: Scan, items: seq<Item>): seq<real>
  {
    if items == [] then []
    else Step(Pack(rule, items[..|items| - 1]), items[|items| - 1].size, rule)
  }

  /** The events recorded while packing the items in the given order. */
  function PackEvents(rule: Scan, items: seq<Item>): seq<Event>
  {
    if items == [] then []
    else
      var n := |items| - 1;
      PackEvents(rule, items[..n]) + StepEvents(items[n], Pack(rule, items[..n]), rule)
  }

  /** Handling one more item extends a run by exactly that item's step. */
  lemma PackSnoc(rule: Scan, items: seq<Item>, x: Item)
    ensures Pack(rule, items + [x]) == Step(Pack(rule, items), x.size, rule)
    ensures PackEvents(rule, items + [x]) == PackEvents(rule, items) + StepEvents(x, Pack(rule, items), rule)
  {
    assert (items + [x])[..|items|] == items;
  }

  /** The whole trace of a run over the processing order. */
  function RunTrace(algorithm: Algorithm, order: seq<Item>): seq<Event>
  {
    (if algorithm.Decreasing() then [SortApplied(Indices(order))] else []) +
    PackEvents(algorithm.Rule(), order) +
    [SimulationComplete(|Pack(algorithm.Rule(), order)|)]
  }

  /**
   * A search only ever selects a bin the item fits in, and a added bin
   * always takes a valid item, so placing keeps every bin non-empty and
   * within capacity.
   */
  lemma StepKeepsPacked(fills: seq<real>, size: real, rule: Scan)
    requires Packed(fills) && ValidSize(size)
    ensures Packed(Step(fills, size, rule))
  {
    var b := PlacedBin(fills, size, rule);
    forall k | 0 <= k < |fills| && k != b
      ensures Step(fills, size, rule)[k] == fills[k]
    {
      StepKeepsOtherBins(fills, size, rule, k);
    }
    if b < |fills| {
      match rule
      case FirstFitScan => assert Fits(fills[b], size);
      case BestFitScan => assert IsCandidate(fills[b], size);
    }
  }

  /** Capacity invariant: with every size in (0, 1], every bin ends non-empty and within capacity. */
  lemma {:induction false} PackIsPacked(rule: Scan, items: seq<Item>)
    requires ValidItems(items)
    ensures Packed(Pack(rule, items))
    decreases |items|
  {
    if items != [] {
      var n := |items| - 1;
      PackIsPacked(rule, items[..n]);
      StepKeepsPacked(Pack(rule, items[..n]), items[n].size, rule);
    }
  }

  /** One placement adds exactly the item's size to the total fill. */
  lemma StepConserves(fills: seq<real>, size: real, rule: Scan)
    ensures Sum(Step(fills, size, rule)) == Sum(fills) + size
  {
    var grown := Opened(fills, size, rule);
    var b := PlacedBin(fills, size, rule);
    assert Sum(grown) == Sum(fills) by {
      if grown != fills {
        SumAppend(fills, 0.0);
      }
    }
    SumUpdate(grown, b, size);
  }

  /** Conservation: the fill levels add up to the total size of the items. */
  lemma {:induction false} PackConserves(rule: Scan, items: seq<Item>)
    ensures Sum(Pack(rule, items)) == TotalSize(items)
    decreases |items|
  {
    if items != [] {
      var n := |items| - 1;
      PackConserves(rule, items[..n]);
      StepConserves(Pack(rule, items[..n]), items[n].size, rule);
      TotalSizeSnoc(items);
    }
  }

  /** No more bins than items; an empty input opens no bin, any other input at least one. */
  lemma {:induction false} PackBinCount(rule: Scan, items: seq<Item>)
    ensures |Pack(rule, items)| <= |items|
    ensures |Pack(rule, items)| == 0 <==> items == []
    decreases |items|
  {
    if items != [] {
      PackBinCount(rule, items[..|items| - 1]);
    }
  }

  /** Bins within capacity hold at most capacity plus tolerance each. */
  lemma {:induction false} PackedSumBound(fills: seq<real>)
    requires Packed(fills)
    ensures Sum(fills) <= |fills| as real * (Capacity + Eps)
    decreases |fills|
  {
    if fills != [] {
      PackedSumBound(fills[..|fills| - 1]);
    }
  }

  /** Lower bound: the bins used can hold the total size, up to the tolerance. */
  lemma PackLowerBound(rule: Scan, items: seq<Item>)
    requires ValidItems(items)
    ensures TotalSize(items) <= |Pack(rule, items)| as real * (Capacity + Eps)
  {
    PackIsPacked(rule, items);
    PackConserves(rule, items);
    PackedSumBound(Pack(rule, items));
  }

  /** One item's events place exactly that item, and create a bin only at the end of the list. */
  lemma StepEventsRecord(item: Item, fills: seq<real>, rule: Scan)
    ensures Collect(StepEvents(item, fills, rule), PlacedItems) == [item.index]
    ensures Collect(StepEvents(item, fills, rule), CreatedBins) ==
            if Target(fills, item.size, rule).None? then [|fills|] else []
  {
    var search := SearchEvents(item, fills, rule);
    var b := PlacedBin(fills, item.size, rule);
    SearchEventsOnlyInspect(item, fills, rule);
    SearchRecordsNothing(search);
    StepShapeRecord(search, |fills|, Target(fills, item.size, rule).None?,
                    item.index, b, Step(fills, item.size, rule)[b]);
  }

  /** A search consists of inspections and, for Best-Fit, candidate updates. */
  lemma SearchEventsOnlyInspect(item: Item, fills: seq<real>, rule: Scan)
    ensures var ev := SearchEvents(item, fills, rule);
      forall j :: 0 <= j < |ev| ==> ev[j].BinInspected? || ev[j].BestCandidateUpdated?
  {
    match rule
    case FirstFitScan =>
      var ev := FirstFitEvents(item, fills);
      forall j | 0 <= j < |ev|
        ensures ev[j].BinInspected?
      {
      }
    case BestFitScan =>
  }

  /**
   * Events shaped like one item's handling: a search that records nothing,
   * an optional creation of bin `m`, and the placement of item `idx`.
   */
  lemma StepShapeRecord(search: seq<Event>, m: nat, isNew: bool, idx: nat, b: nat, f: real)
    requires Collect(search, PlacedItems) == [] && Collect(search, CreatedBins) == []
    ensures var ev := search + (if isNew then [BinCreated(m)] else []) + [ItemPlaced(idx, b, f)];
      Collect(ev, PlacedItems) == [idx] && Collect(ev, CreatedBins) == (if isNew then [m] else [])
  {
    var created := if isNew then [BinCreated(m)] else [];
    var placed := [ItemPlaced(idx, b, f)];
    CollectAppend(search, created, PlacedItems);
    CollectAppend(search + created, placed, PlacedItems);
    CollectAppend(search, created, CreatedBins);
    CollectAppend(search + created, placed, CreatedBins);
    assert placed[..0] == [];
    if isNew {
      assert created[..0] == [];
    }
  }

  /** Search events record neither placements nor creations. */
  lemma {:induction false} SearchRecordsNothing(ev: seq<Event>)
    requires forall j :: 0 <= j < |ev| ==> ev[j].BinInspected? || ev[j].BestCandidateUpdated?
    ensures Collect(ev, PlacedItems) == [] && Collect(ev, CreatedBins) == []
    decreases |ev|
  {
    if ev != [] {
      SearchRecordsNothing(ev[..|ev| - 1]);
    }
  }

  /** Every item is placed exactly once, in processing order. */
  lemma {:induction false} PackEventsPlaceEachItem(rule: Scan, items: seq<Item>)
    ensures Collect(PackEvents(rule, items), PlacedItems) == Indices(items)
    decreases |items|
  {
    if items != [] {
      var n := |items| - 1;
      var fills := Pack(rule, items[..n]);
      var prior := PackEvents(rule, items[..n]);
      var step := StepEvents(items[n], fills, rule);
      assert PackEvents(rule, items) == prior + step;
      PackEventsPlaceEachItem(rule, items[..n]);
      StepEventsRecord(items[n], fills, rule);
      CollectAppend(prior, step, PlacedItems);
    }
  }

  /** Bins are created with the indices 0, 1, 2, ... one after the other, one per bin used. */
  lemma {:induction false} PackEventsCreateBinsInOrder(rule: Scan, items: seq<Item>)
    ensures Collect(PackEvents(rule, items), CreatedBins) == Range(|Pack(rule, items)|)
    decreases |items|
  {
    if items != [] {
      var n := |items| - 1;
      var fills := Pack(rule, items[..n]);
      var prior := PackEvents(rule, items[..n]);
      var step := StepEvents(items[n], fills, rule);
      calc {
        Collect(PackEvents(rule, items), CreatedBins);
        Collect(prior + step, CreatedBins);
        { CollectAppend(prior, step, CreatedBins); }
        Collect(prior, CreatedBins) + Collect(step, CreatedBins);
        { PackEventsCreateBinsInOrder(rule, items[..n]); }
        Range(|fills|) + Collect(step, CreatedBins);
        { StepCreatesNextBin(items[n], fills, rule); }
        Range(|Pack(rule, items)|);
      }
    }
  }

  /** An item creates at most the one bin that follows the existing ones. */
  lemma StepCreatesNextBin(item: Item, fills: seq<real>, rule: Scan)
    ensures Range(|fills|) + Collect(StepEvents(item, fills, rule), CreatedBins) ==
            Range(|Step(fills, item.size, rule)|)
  {
    var m := |fills|;
    var isNew := Target(fills, item.size, rule).None?;
    var created := Collect(StepEvents(item, fills, rule), CreatedBins);
    var n := |Step(fills, item.size, rule)|;
    StepEventsRecord(item, fills, rule);
    assert created == if isNew then [m] else [];
    assert n == if isNew then m + 1 else m;
    RangeExtend(m, isNew);
  }

  lemma RangeExtend(m: nat, isNew: bool)
    ensures Range(m) + (if isNew then [m] else []) == Range(if isNew then m + 1 else m)
  {
    if !isNew {
      assert Range(m) + [] == Range(m);
    }
  }

}
