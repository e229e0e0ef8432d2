/**
 * Concrete runs: the engine's behaviour on small inputs, worked out from the
 * specification functions.
 */
module Scenarios {
  import opened BinModel
  import opened Search
  import opened Sorting
  import opened Packing

  /** First-Fit on 0.5, 0.4, 0.3: the first two share bin 0, the third opens bin 1. */
  lemma FirstFitScenario()
    ensures Pack(FirstFitScan, Tagged([0.5, 0.4, 0.3])) == [0.9, 0.3]
  {
    var t := Tagged([0.5, 0.4, 0.3]);
    assert t == [Item(0, 0.5), Item(1, 0.4), Item(2, 0.3)];
    assert t[..2][..1] == t[..1];
    assert Pack(FirstFitScan, t[..1]) == [0.5];
    assert FirstFit([0.5], 0.4) == Some(0);
    assert Pack(FirstFitScan, t[..2]) == [0.9];
    assert FirstFit([0.9], 0.3) == None;
    assert t[..3] == t;
  }

  /** Best-Fit on 0.6, 0.3, 0.5, 0.2: bins end at 0.9 and 0.7. */
  lemma BestFitScenario()
    ensures Pack(BestFitScan, Tagged([0.6, 0.3, 0.5, 0.2])) == [0.9, 0.7]
  {
    var t := Tagged([0.6, 0.3, 0.5, 0.2]);
    assert t == [Item(0, 0.6), Item(1, 0.3), Item(2, 0.5), Item(3, 0.2)];
    assert Pack(BestFitScan, t[..1]) == [0.6];
    assert t[..2][..1] == t[..1];
    assert BestFit([0.6], 0.3) == Some(0);
    assert Pack(BestFitScan, t[..2]) == [0.9];
    assert t[..3][..2] == t[..2];
    assert BestFit([0.9], 0.5) == None;
    assert Pack(BestFitScan, t[..3]) == [0.9, 0.5];
    assert t[..4][..3] == t[..3];
    assert BestFit([0.9, 0.5], 0.2) == Some(1);
    assert t[..4] == t;
  }

  /**
   * First-Fit Decreasing on 0.2, 0.5, 0.3: the only processing order is
   * 0.5, 0.3, 0.2, and all three share bin 0, since 0.8 + 0.2 is within
   * capacity plus tolerance.
   */
  lemma FirstFitDecreasingScenario(order: seq<Item>)
    requires IsProcessingOrder(FFD, [0.2, 0.5, 0.3], order)
    ensures order == [Item(1, 0.5), Item(2, 0.3), Item(0, 0.2)]
    ensures Pack(FirstFitScan, order) == [1.0]
  {
    var sorted := [Item(1, 0.5), Item(2, 0.3), Item(0, 0.2)];
    SortedScenarioItems();
    SortedPermutationUnique(order, sorted);
    SortedScenarioPack();
  }

  /** The queue 0.5, 0.3, 0.2 is a sorted arrangement of the tagged input 0.2, 0.5, 0.3. */
  lemma SortedScenarioItems()
    ensures multiset([Item(1, 0.5), Item(2, 0.3), Item(0, 0.2)]) == multiset(Tagged([0.2, 0.5, 0.3]))
    ensures SortedDescending([Item(1, 0.5), Item(2, 0.3), Item(0, 0.2)])
  {
    var t := Tagged([0.2, 0.5, 0.3]);
    assert t == [Item(0, 0.2), Item(1, 0.5), Item(2, 0.3)];
    assert multiset(t) == multiset{Item(0, 0.2), Item(1, 0.5), Item(2, 0.3)};
  }

  /** The sorted queue 0.5, 0.3, 0.2 under First-Fit fills a single bin exactly. */
  lemma SortedScenarioPack()
    ensures Pack(FirstFitScan, [Item(1, 0.5), Item(2, 0.3), Item(0, 0.2)]) == [1.0]
  {
    var sorted := [Item(1, 0.5), Item(2, 0.3), Item(0, 0.2)];
    assert sorted[..2][..1] == sorted[..1];
    assert Pack(FirstFitScan, sorted[..1]) == [0.5];
    assert FirstFit([0.5], 0.3) == Some(0);
    assert Pack(FirstFitScan, sorted[..2]) == [0.8];
    assert FirstFit([0.8], 0.2) == Some(0);
    assert sorted[..3] == sorted;
  }

  /** An empty input opens no bin; without a sort the trace is the completion event alone. */
  lemma EmptyScenario(algorithm: Algorithm)
    ensures Pack(algorithm.Rule(), []) == []
    ensures RunTrace(algorithm, []) ==
            (if algorithm.Decreasing() then [SortApplied([])] else []) + [SimulationComplete(0)]
  {
  }

  /**
   * Where the two rules part: on 0.5, 0.7, 0.2 First-Fit drops the last item
   * into the first bin that takes it, Best-Fit into the fuller one.
   */
  lemma FirstFitAndBestFitDiffer()
    ensures Pack(FirstFitScan, Tagged([0.5, 0.7, 0.2])) == [0.7, 0.7]
    ensures Pack(BestFitScan, Tagged([0.5, 0.7, 0.2])) == [0.5, 0.9]
  {
    var t := Tagged([0.5, 0.7, 0.2]);
    assert t == [Item(0, 0.5), Item(1, 0.7), Item(2, 0.2)];
    assert t[..2][..1] == t[..1];
    assert t[..3] == t;
    assert Pack(FirstFitScan, t[..1]) == [0.5];
    assert FirstFit([0.5], 0.7) == None;
    assert Pack(FirstFitScan, t[..2]) == [0.5, 0.7];
    assert FirstFit([0.5, 0.7], 0.2) == Some(0);
    assert Pack(BestFitScan, t[..1]) == [0.5];
    assert BestFit([0.5], 0.7) == None;
    assert Pack(BestFitScan, t[..2]) == [0.5, 0.7];
    assert BestFit([0.5, 0.7], 0.2) == Some(1);
  }

  /** A Best-Fit tie: two bins leave the same residual, and the earlier one is chosen. */
  lemma BestFitTieScenario()
    ensures BestFit([0.6, 0.6], 0.3) == Some(0)
    ensures BestFit([0.6, 0.7, 0.6], 0.3) == Some(1)
  {
    assert BestFitPrefix([0.6, 0.6], 0.3, 1) == Some(0);
    assert BestFitPrefix([0.6, 0.7, 0.6], 0.3, 2) == Some(1);
  }

  /**
   * The tolerance lets a bin hold slightly more than its capacity: on 0.5
   * and 0.50005 First-Fit uses one bin holding 1.00005, so the number of
   * bins can be below the total size.
   */
  lemma ToleranceOverfillScenario()
    ensures Pack(FirstFitScan, Tagged([0.5, 0.50005])) == [1.00005]
    ensures TotalSize(Tagged([0.5, 0.50005])) > 1 as real * Capacity
  {
    var t := Tagged([0.5, 0.50005]);
    assert t == [Item(0, 0.5), Item(1, 0.50005)];
    assert t[..1] == [Item(0, 0.5)];
    assert Pack(FirstFitScan, t[..1]) == [0.5];
    assert FirstFit([0.5], 0.50005) == Some(0);
    TwoItemTotal(0.5, 0.50005);
  }

  lemma TwoItemTotal(x: real, y: real)
    ensures TotalSize(Tagged([x, y])) == x + y
  {
    TotalSizeTagged([x, y]);
    SumAppend([x], y);
    SumAppend([], x);
    assert [x] + [y] == [x, y] && [] + [x] == [x];
  }

  /** The built-in example list under First-Fit uses four bins. */
  lemma DefaultInputScenario()
    ensures Pack(FirstFitScan, Tagged([0.5, 0.4, 0.6, 0.2, 0.8, 0.3])) == [0.9, 0.8, 0.8, 0.3]
  {
    var t := Tagged([0.5, 0.4, 0.6, 0.2, 0.8, 0.3]);
    assert t == [Item(0, 0.5), Item(1, 0.4), Item(2, 0.6), Item(3, 0.2), Item(4, 0.8), Item(5, 0.3)];
    assert t[..2][..1] == t[..1];
    assert t[..3][..2] == t[..2];
    assert t[..4][..3] == t[..3];
    assert t[..5][..4] == t[..4];
    assert t[..6][..5] == t[..5];
    assert t[..6] == t;
    assert Pack(FirstFitScan, t[..1]) == [0.5];
    assert FirstFit([0.5], 0.4) == Some(0);
    assert Pack(FirstFitScan, t[..2]) == [0.9];
    assert FirstFit([0.9], 0.6) == None;
    assert Pack(FirstFitScan, t[..3]) == [0.9, 0.6];
    assert FirstFit([0.9, 0.6], 0.2) == Some(1);
    assert Pack(FirstFitScan, t[..4]) == [0.9, 0.8];
    assert FirstFit([0.9, 0.8], 0.8) == None;
    assert Pack(FirstFitScan, t[..5]) == [0.9, 0.8, 0.8];
    assert FirstFit([0.9, 0.8, 0.8], 0.3) == None;
  }
}
