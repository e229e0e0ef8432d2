/**
 * The two per-item searches over the bins that exist when an item arrives,
 * as specification functions: which bin each one selects, and which
 * inspection events it records on the way.
 */
module Search {
  import opened BinModel

  /**
   * First-Fit from bin `from` on: the first bin, in creation order, whose
   * fill plus the item stays within capacity plus tolerance.
   */
  function FirstFitFrom(fills: seq<real>, size: real, from: nat): (r: Option<nat>)
    requires from <= |fills|
    ensures r.Some? ==> from <= r.value < |fills| && Fits(fills[r.value], size)
    decreases |fills| - from
  {
    if from == |fills| then None
    else if Fits(fills[from], size) then Some(from)
    else FirstFitFrom(fills, size, from + 1)
  }

  function FirstFit(fills: seq<real>, size: real): Option<nat>
  {
    FirstFitFrom(fills, size, 0)
  }

  /**
   * The bin First-Fit finds from `from` on is preceded there only by bins
   * that reject the item, and it finds none exactly when every bin from
   * there on rejects it.
   */
  lemma {:induction false} FirstFitFromIsFirst(fills: seq<real>, size: real, from: nat)
    requires from <= |fills|
    ensures var r := FirstFitFrom(fills, size, from);
      r.Some? ==> forall j :: from <= j < r.value ==> !Fits(fills[j], size)
    ensures FirstFitFrom(fills, size, from).None? <==>
            forall j :: from <= j < |fills| ==> !Fits(fills[j], size)
    decreases |fills| - from
  {
    if from < |fills| && !Fits(fills[from], size) {
      FirstFitFromIsFirst(fills, size, from + 1);
    }
  }

  /** First-Fit selects the lowest-index bin that accepts the item, and only such a bin. */
  lemma FirstFitIsLeast(fills: seq<real>, size: real, k: nat)
    requires k < |fills|
    ensures FirstFit(fills, size) == Some(k) <==>
            Fits(fills[k], size) && forall j :: 0 <= j < k ==> !Fits(fills[j], size)
  {
    FirstFitFromIsFirst(fills, size, 0);
  }

  /**
   * The inspections First-Fit records: bins 0, 1, ... in creation order,
   * stopping at the selected bin. Only the selected bin is accepted, so no
   * bin after the first accepted one is inspected.
   */
  function FirstFitEvents(item: Item, fills: seq<real>): (r: seq<Event>)
    ensures |r| == match FirstFit(fills, item.size) { case Some(k) => k + 1 case None => |fills| }
    ensures forall j :: 0 <= j < |r| ==>
              r[j] == BinInspected(item.index, j, FirstFit(fills, item.size) == Some(j))
  {
    FirstFitFromIsFirst(fills, item.size, 0);
    var n := match FirstFit(fills, item.size) { case Some(k) => k + 1 case None => |fills| };
    seq(n, j requires 0 <= j < n => BinInspected(item.index, j, Fits(fills[j], item.size)))
  }

  /** Whether Best-Fit, having seen bins before `k` and holding `best`, moves to bin `k`. */
  predicate Improves(fills: seq<real>, size: real, k: nat, best: Option<nat>)
    requires k < |fills|
    requires best.Some? ==> best.value < |fills|
  {
    IsCandidate(fills[k], size) &&
    (best.None? || Residual(fills[k], size) < Residual(fills[best.value], size))
  }

  /**
   * Best-Fit over the first `n` bins: the candidate with the smallest
   * residual; of several with the same residual, the earliest.
   */
  function BestFitPrefix(fills: seq<real>, size: real, n: nat): (r: Option<nat>)
    requires n <= |fills|
    ensures r.Some? ==> r.value < n && IsCandidate(fills[r.value], size)
  {
    if n == 0 then None
    else
      var best := BestFitPrefix(fills, size, n - 1);
      if Improves(fills, size, n - 1, best) then Some(n - 1) else best
  }

  function BestFit(fills: seq<real>, size: real): Option<nat>
  {
    BestFitPrefix(fills, size, |fills|)
  }

  /**
   * Over the first `n` bins, the kept bin has a residual no larger than any
   * candidate's and strictly smaller than any earlier candidate's, and no bin
   * is kept exactly when there is no candidate.
   */
  lemma {:induction false} BestFitPrefixIsBest(fills: seq<real>, size: real, n: nat)
    requires n <= |fills|
    ensures var r := BestFitPrefix(fills, size, n);
      r.Some? ==> forall j :: 0 <= j < n && IsCandidate(fills[j], size) ==>
        Residual(fills[r.value], size) <= Residual(fills[j], size)
    ensures var r := BestFitPrefix(fills, size, n);
      r.Some? ==> forall j :: 0 <= j < r.value && IsCandidate(fills[j], size) ==>
        Residual(fills[r.value], size) < Residual(fills[j], size)
    ensures BestFitPrefix(fills, size, n).None? <==> forall j :: 0 <= j < n ==> !IsCandidate(fills[j], size)
    decreases n
  {
    if n > 0 {
      BestFitPrefixIsBest(fills, size, n - 1);
    }
  }

  /**
   * Best-Fit selects exactly the earliest candidate of least residual:
   * every candidate has at least its residual and every earlier candidate
   * strictly more.
   */
  lemma BestFitIsEarliestMinimum(fills: seq<real>, size: real, k: nat)
    requires k < |fills|
    ensures BestFit(fills, size) == Some(k) <==>
            IsCandidate(fills[k], size) &&
            (forall j :: 0 <= j < |fills| && IsCandidate(fills[j], size) ==>
               Residual(fills[k], size) <= Residual(fills[j], size)) &&
            (forall j :: 0 <= j < k && IsCandidate(fills[j], size) ==>
               Residual(fills[k], size) < Residual(fills[j], size))
  {
    BestFitPrefixIsBest(fills, size, |fills|);
    var r := BestFit(fills, size);
    if IsCandidate(fills[k], size) && r.Some? && r.value != k {
      assert Residual(fills[r.value], size) <= Residual(fills[k], size);
    }
  }

  /** The two acceptance tests are the same test, written two ways. */
  lemma AcceptanceTestsAgree(fill: real, size: real)
    ensures Fits(fill, size) <==> IsCandidate(fill, size)
  {
  }

  /** Both rules open a new bin in exactly the same situations: when no existing bin accepts the item. */
  lemma SearchesAgreeOnNewBin(fills: seq<real>, size: real)
    ensures FirstFit(fills, size).None? <==> BestFit(fills, size).None?
  {
    FirstFitFromIsFirst(fills, size, 0);
    BestFitPrefixIsBest(fills, size, |fills|);
    forall j | 0 <= j < |fills|
      ensures Fits(fills[j], size) <==> IsCandidate(fills[j], size)
    {
      AcceptanceTestsAgree(fills[j], size);
    }
  }

  /**
   * The events Best-Fit records over the first `n` bins: every bin is
   * inspected, in creation order, and the last best-candidate update names
   * the bin selected.
   */
  function BestFitEvents(item: Item, fills: seq<real>, n: nat): (r: seq<Event>)
    requires n <= |fills|
    ensures Collect(r, InspectedBins) == Range(n)
    ensures LastBestUpdate(r) == BestFitPrefix(fills, item.size, n)
    ensures forall j :: 0 <= j < |r| ==> r[j].BinInspected? || r[j].BestCandidateUpdated?
  {
    if n == 0 then []
    else
      var prefix := BestFitEvents(item, fills, n - 1);
      var best := BestFitPrefix(fills, item.size, n - 1);
      var inspected := BinInspected(item.index, n - 1, IsCandidate(fills[n - 1], item.size));
      var update := if Improves(fills, item.size, n - 1, best) then [BestCandidateUpdated(item.index, n - 1)] else [];
      ExtendSearch(prefix, inspected, update);
      prefix + [inspected] + update
  }

  /**
   * One event of a Best-Fit search over the first `n` bins, as the scan
   * records it: an inspection of the item that is accepted exactly when
   * the bin is a candidate, or an update to a bin that strictly improves
   * on the best candidate of the bins before it.
   */
  predicate BestFitEvent(item: Item, fills: seq<real>, n: nat, e: Event)
    requires n <= |fills|
  {
    match e
    case BinInspected(i, b, accepted) =>
      i == item.index && b < n && accepted == IsCandidate(fills[b], item.size)
    case BestCandidateUpdated(i, b) =>
      i == item.index && b < n && Improves(fills, item.size, b, BestFitPrefix(fills, item.size, b))
    case _ => false
  }

  /** An event faithful to a scan of the first `m` bins is faithful to a scan of more bins. */
  lemma BestFitEventWiden(item: Item, fills: seq<real>, m: nat, n: nat, e: Event)
    requires m <= n <= |fills|
    requires BestFitEvent(item, fills, m, e)
    ensures BestFitEvent(item, fills, n, e)
  {
  }

  /**
   * Every event of the Best-Fit search is faithful to the scan: each
   * inspection names the item and a scanned bin and is accepted exactly when
   * that bin is a candidate, and each update strictly improves on the best
   * candidate before it.
   */
  lemma {:induction false} BestFitEventsFaithful(item: Item, fills: seq<real>, n: nat)
    requires n <= |fills|
    ensures forall j :: 0 <= j < |BestFitEvents(item, fills, n)| ==>
      BestFitEvent(item, fills, n, BestFitEvents(item, fills, n)[j])
    decreases n
  {
    if n > 0 {
      var prefix := BestFitEvents(item, fills, n - 1);
      var best := BestFitPrefix(fills, item.size, n - 1);
      var inspected := BinInspected(item.index, n - 1, IsCandidate(fills[n - 1], item.size));
      var update := if Improves(fills, item.size, n - 1, best) then [BestCandidateUpdated(item.index, n - 1)] else [];
      var r := prefix + [inspected] + update;
      assert BestFitEvents(item, fills, n) == r;
      BestFitEventsFaithful(item, fills, n - 1);
      forall j | 0 <= j < |r|
        ensures BestFitEvent(item, fills, n, r[j])
      {
        if j < |prefix| {
          assert r[j] == prefix[j];
          BestFitEventWiden(item, fills, n - 1, n, prefix[j]);
        } else if j == |prefix| {
          assert r[j] == inspected;
        } else {
          assert r[j] == update[0];
        }
      }
    }
  }

  /** The Best-Fit search records an update for bin b exactly when b strictly improves on the best before it. */
  lemma {:induction false} BestFitUpdatesExactly(item: Item, fills: seq<real>, n: nat)
    requires n <= |fills|
    ensures forall b :: 0 <= b < n ==>
      (BestCandidateUpdated(item.index, b) in BestFitEvents(item, fills, n) <==>
       Improves(fills, item.size, b, BestFitPrefix(fills, item.size, b)))
    decreases n
  {
    if n > 0 {
      var prefix := BestFitEvents(item, fills, n - 1);
      var best := BestFitPrefix(fills, item.size, n - 1);
      var inspected := BinInspected(item.index, n - 1, IsCandidate(fills[n - 1], item.size));
      var update := if Improves(fills, item.size, n - 1, best) then [BestCandidateUpdated(item.index, n - 1)] else [];
      assert BestFitEvents(item, fills, n) == prefix + [inspected] + update;
      BestFitUpdatesExactly(item, fills, n - 1);
      forall b | 0 <= b < n
        ensures BestCandidateUpdated(item.index, b) in prefix + [inspected] + update <==>
                Improves(fills, item.size, b, BestFitPrefix(fills, item.size, b))
      {
        var u := BestCandidateUpdated(item.index, b);
        InAppend(prefix, inspected, update, u);
        if b == n - 1 {
          NoUpdateOfLaterBin(item, fills, n - 1, b);
        }
      }
    }
  }

  /** A scan of the first `m` bins records no update for a bin it has not reached. */
  lemma NoUpdateOfLaterBin(item: Item, fills: seq<real>, m: nat, b: nat)
    requires m <= b < |fills|
    ensures BestCandidateUpdated(item.index, b) !in BestFitEvents(item, fills, m)
  {
    var r := BestFitEvents(item, fills, m);
    BestFitEventsFaithful(item, fills, m);
    forall j | 0 <= j < |r|
      ensures r[j] != BestCandidateUpdated(item.index, b)
    {
      assert BestFitEvent(item, fills, m, r[j]);
    }
  }

  lemma InAppend(a: seq<Event>, e: Event, c: seq<Event>, u: Event)
    ensures u in a + [e] + c <==> u in a || u == e || u in c
  {
  }

  /**
   * Best-Fit places the item in a bin whose residual is no larger than that
   * of any bin its search marked as accepted.
   */
  lemma BestFitBeatsEveryAccepted(item: Item, fills: seq<real>, j: nat)
    requires j < |BestFitEvents(item, fills, |fills|)|
    requires BestFitEvents(item, fills, |fills|)[j].BinInspected?
    requires BestFitEvents(item, fills, |fills|)[j].accepted
    ensures var e := BestFitEvents(item, fills, |fills|)[j];
      e.bin < |fills| && BestFit(fills, item.size).Some? &&
      Residual(fills[BestFit(fills, item.size).value], item.size) <= Residual(fills[e.bin], item.size)
  {
    BestFitEventsFaithful(item, fills, |fills|);
    BestFitPrefixIsBest(fills, item.size, |fills|);
    var e := BestFitEvents(item, fills, |fills|)[j];
    assert BestFitEvent(item, fills, |fills|, e);
  }

  /** Appending an inspection and possibly an update to a Best-Fit search. */
  lemma ExtendSearch(prefix: seq<Event>, e: Event, update: seq<Event>)
    requires e.BinInspected?
    requires update == [] || (|update| == 1 && update[0].BestCandidateUpdated?)
    ensures Collect(prefix + [e] + update, InspectedBins) == Collect(prefix, InspectedBins) + [e.bin]
    ensures LastBestUpdate(prefix + [e] + update) ==
            if update == [] then LastBestUpdate(prefix) else Some(update[0].bin)
  {
    var r := prefix + [e] + update;
    CollectAppend(prefix, [e], InspectedBins);
    CollectAppend(prefix + [e], update, InspectedBins);
    assert [e][..0] == [];
    if update == [] {
      assert r[..|r| - 1] == prefix;
    } else {
      assert update[..0] == [];
    }
  }
}
