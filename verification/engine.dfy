/**
 * The packing engine as it runs: a list of bin fill levels that only grows,
 * updated in place item by item, together with the trace of decisions.
 * Each step is proved against the specification functions of Search and
 * Packing.
 */
module Engine {
  import opened BinModel
  import opened Search
  import opened Sorting
  import opened Packing

  class Packer {
    /** Fill level of each bin, in creation order; a bin's index is its position. */
    var fills: seq<real>
    /** Decisions taken so far. */
    var trace: seq<Event>

    constructor ()
      ensures fills == [] && trace == []
    {
      fills := [];
      trace := [];
    }

    /** Opens an empty bin after the existing ones and returns its index. */
    method CreateNewBin() returns (idx: nat)
      modifies this
      ensures idx == old(|fills|)
      ensures fills == old(fills) + [0.0]
      ensures trace == old(trace) + [BinCreated(idx)]
    {
      idx := |fills|;
      fills := fills + [0.0];
      trace := trace + [BinCreated(idx)];
    }

    /**
     * First-Fit scan: bins in creation order, stopping at the first one the
     * item fits in. Returns that bin, if any, and the inspections made.
     */
    method ScanFirstFit(item: Item) returns (placed: Option<nat>, events: seq<Event>)
      ensures placed == FirstFit(fills, item.size)
      ensures events == FirstFitEvents(item, fills)
    {
      placed := None;
      events := [];
      var b := 0;
      while b < |fills|
        invariant b <= |fills|
        invariant FirstFitFrom(fills, item.size, b) == FirstFit(fills, item.size)
        invariant |events| == b
        invariant forall j :: 0 <= j < b ==> events[j] == BinInspected(item.index, j, false)
      {
        if fills[b] + item.size <= Capacity + Eps {
          events := events + [BinInspected(item.index, b, true)];
          placed := Some(b);
          break;
        }
        events := events + [BinInspected(item.index, b, false)];
        b := b + 1;
      }
    }

    /**
     * Best-Fit scan: every bin, keeping the candidate with the least
     * residual; a later bin replaces it only with a strictly smaller one.
     * Returns that bin, if any, and the inspections and updates made.
     */
    method ScanBestFit(item: Item) returns (placed: Option<nat>, events: seq<Event>)
      ensures placed == BestFit(fills, item.size)
      ensures events == BestFitEvents(item, fills, |fills|)
    {
      var bestIdx: Option<nat> := None;
      var minResidual: Option<real> := None;
      events := [];
      for b := 0 to |fills|
        invariant bestIdx == BestFitPrefix(fills, item.size, b)
        invariant minResidual == match bestIdx
                                 case Some(k) => Some(Residual(fills[k], item.size))
                                 case None => None
        invariant events == BestFitEvents(item, fills, b)
      {
        var residual := Capacity - fills[b] - item.size;
        if residual >= -Eps {
          events := events + [BinInspected(item.index, b, true)];
          if minResidual.None? || residual < minResidual.value {
            minResidual := Some(residual);
            bestIdx := Some(b);
            events := events + [BestCandidateUpdated(item.index, b)];
          }
        } else {
          events := events + [BinInspected(item.index, b, false)];
        }
      }
      placed := bestIdx;
    }

    /** Drops the item into bin `b`: only that bin's fill goes up, by the item's size. */
    method Drop(item: Item, b: nat)
      requires b < |fills|
      modifies this
      ensures fills == old(fills)[b := old(fills)[b] + item.size]
      ensures trace == old(trace) + [ItemPlaced(item.index, b, fills[b])]
    {
      fills := fills[b := fills[b] + item.size];
      trace := trace + [ItemPlaced(item.index, b, fills[b])];
    }

    /**
     * Handles one item: search with the given rule, open a new bin if the
     * search selected none, and drop the item into the bin found.
     */
    method PackItem(item: Item, rule: Scan) returns (target: nat)
      modifies this
      ensures target == PlacedBin(old(fills), item.size, rule)
      ensures fills == Step(old(fills), item.size, rule)
      ensures trace == old(trace) + StepEvents(item, old(fills), rule)
    {
      var placed: Option<nat>;
      var events: seq<Event>;
      match rule {
        case FirstFitScan =>
          placed, events := ScanFirstFit(item);
        case BestFitScan =>
          placed, events := ScanBestFit(item);
      }
      assert placed == Target(fills, item.size, rule) && events == SearchEvents(item, fills, rule);
      trace := trace + events;
      ghost var grown := Opened(fills, item.size, rule);
      ghost var created: seq<Event> := if placed.None? then [BinCreated(|fills|)] else [];
      match placed {
        case Some(b) =>
          target := b;
        case None =>
          target := CreateNewBin();
      }
      assert fills == grown && trace == old(trace) + events + created;
      Drop(item, target);
      assert fills == Step(old(fills), item.size, rule);
      assert StepEvents(item, old(fills), rule) == events + created + [ItemPlaced(item.index, target, fills[target])];
      AppendAssoc(old(trace), events, created, [ItemPlaced(item.index, target, fills[target])]);
    }
  }

  lemma TakeSnoc(s: seq<Item>, i: nat)
    requires i < |s|
    ensures s[..i + 1] == s[..i] + [s[i]]
  {
  }

  lemma AppendAssoc(a: seq<Event>, b: seq<Event>, c: seq<Event>, d: seq<Event>)
    ensures a + (b + c + d) == a + b + c + d
  {
  }

  /**
   * One run: tag the sizes with their input positions, sort them for the
   * Decreasing variants, pack them in that order and report the number of
   * bins used, the final fill levels and the whole trace.
   */
  method Simulate(sizes: seq<real>, algorithm: Algorithm)
    returns (binsUsed: nat, order: seq<Item>, fills: seq<real>, trace: seq<Event>)
    ensures IsProcessingOrder(algorithm, sizes, order)
    ensures fills == Pack(algorithm.Rule(), order)
    ensures trace == RunTrace(algorithm, order)
    ensures binsUsed == |fills| <= |sizes|
    ensures sizes == [] ==> binsUsed == 0 && trace[|trace| - 1] == SimulationComplete(0)
    ensures sizes == [] && !algorithm.Decreasing() ==> trace == [SimulationComplete(0)]
    ensures ValidSizes(sizes) ==> Packed(fills)
    ensures Sum(fills) == Sum(sizes)
    ensures multiset(Collect(trace, PlacedItems)) == multiset(Range(|sizes|))
  {
    var queue := new Item[|sizes|](k requires 0 <= k < |sizes| => Item(k, sizes[k]));
    assert queue[..] == Tagged(sizes);
    if algorithm.Decreasing() {
      SortBySizeDescending(queue);
    }
    order := queue[..];

    var packed: seq<Event>;
    fills, packed := PackInOrder(algorithm.Rule(), order);
    binsUsed := |fills|;
    trace := (if algorithm.Decreasing() then [SortApplied(Indices(order))] else []) +
             packed + [SimulationComplete(binsUsed)];
    RunBinCount(algorithm, sizes, order);
    if ValidSizes(sizes) {
      RunIsPacked(algorithm, sizes, order);
    }
    RunConserves(algorithm, sizes, order);
    RunPlacesEachItemOnce(algorithm, sizes, order);
  }

  /** The main loop: a fresh engine handles the items one after the other. */
  method PackInOrder(rule: Scan, order: seq<Item>) returns (fills: seq<real>, trace: seq<Event>)
    ensures fills == Pack(rule, order)
    ensures trace == PackEvents(rule, order)
  {
    var packer := new Packer();
    ghost var done: seq<Item> := [];
    for i := 0 to |order|
      invariant done == order[..i]
      invariant packer.fills == Pack(rule, done)
      invariant packer.trace == PackEvents(rule, done)
    {
      PackSnoc(rule, done, order[i]);
      TakeSnoc(order, i);
      var _ := packer.PackItem(order[i], rule);
      done := done + [order[i]];
    }
    assert done == order;
    fills, trace := packer.fills, packer.trace;
  }

  /** The processing order holds each input item exactly once. */
  lemma ProcessingOrderPermutes(algorithm: Algorithm, sizes: seq<real>, order: seq<Item>)
    requires IsProcessingOrder(algorithm, sizes, order)
    ensures multiset(order) == multiset(Tagged(sizes))
    ensures |order| == |sizes|
  {
    assert |multiset(order)| == |multiset(Tagged(sizes))|;
  }

  /** A run uses no more bins than there are items, and no bin for an empty input. */
  lemma RunBinCount(algorithm: Algorithm, sizes: seq<real>, order: seq<Item>)
    requires IsProcessingOrder(algorithm, sizes, order)
    ensures |Pack(algorithm.Rule(), order)| <= |sizes|
    ensures |Pack(algorithm.Rule(), order)| == 0 <==> sizes == []
  {
    ProcessingOrderPermutes(algorithm, sizes, order);
    PackBinCount(algorithm.Rule(), order);
  }

  /** Capacity invariant of a run: with valid sizes every bin ends non-empty and within capacity. */
  lemma RunIsPacked(algorithm: Algorithm, sizes: seq<real>, order: seq<Item>)
    requires IsProcessingOrder(algorithm, sizes, order)
    requires ValidSizes(sizes)
    ensures Packed(Pack(algorithm.Rule(), order))
  {
    ProcessingOrderPermutes(algorithm, sizes, order);
    forall k | 0 <= k < |order|
      ensures ValidSize(order[k].size)
    {
      assert order[k] in multiset(Tagged(sizes));
    }
    PackIsPacked(algorithm.Rule(), order);
  }

  /** Conservation over a run: the fill levels add up to the input sizes. */
  lemma RunConserves(algorithm: Algorithm, sizes: seq<real>, order: seq<Item>)
    requires IsProcessingOrder(algorithm, sizes, order)
    ensures Sum(Pack(algorithm.Rule(), order)) == Sum(sizes)
  {
    ProcessingOrderPermutes(algorithm, sizes, order);
    PackConserves(algorithm.Rule(), order);
    PermutationKeepsTotal(order, Tagged(sizes));
    TotalSizeTagged(sizes);
  }

  /** The placements a run records are those of the processing order, in that order. */
  lemma RunTracePlacements(algorithm: Algorithm, order: seq<Item>)
    ensures Collect(RunTrace(algorithm, order), PlacedItems) == Indices(order)
  {
    var rule := algorithm.Rule();
    var sort := if algorithm.Decreasing() then [SortApplied(Indices(order))] else [];
    var done := [SimulationComplete(|Pack(rule, order)|)];
    CollectAppend(sort + PackEvents(rule, order), done, PlacedItems);
    CollectAppend(sort, PackEvents(rule, order), PlacedItems);
    assert Collect(sort, PlacedItems) == [] by {
      if sort != [] { assert sort[..0] == []; }
    }
    assert Collect(done, PlacedItems) == [] by {
      assert done[..0] == [];
    }
    PackEventsPlaceEachItem(rule, order);
  }

  /** Every input position appears in exactly one placement of the run's trace. */
  lemma RunPlacesEachItemOnce(algorithm: Algorithm, sizes: seq<real>, order: seq<Item>)
    requires IsProcessingOrder(algorithm, sizes, order)
    ensures multiset(Collect(RunTrace(algorithm, order), PlacedItems)) == multiset(Range(|sizes|))
  {
    RunTracePlacements(algorithm, order);
    ProcessingOrderPermutes(algorithm, sizes, order);
    PermutationKeepsIndices(order, Tagged(sizes));
    IndicesOfTagged(sizes);
  }
}
