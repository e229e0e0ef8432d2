# Bin-packing engine

A verified Dafny model of the packing engine inside the animated bin-packing
scene (`BinPackingScene.construct` in `packing_logic.py`). Underneath the
animation calls, that engine is a small deterministic state machine:

- For the Decreasing variants (FFD, BFD) the item queue is sorted in place by
  size, largest first. The sort is stable, so items of equal size keep their
  input order.
- The state is a list of bin fill levels. The list only grows.
- Each item is handled by one of two searches over the existing bins:
  - First-Fit scans in creation order and stops at the first bin where
    `fill + size <= 1.0 + 0.0001`.
  - Best-Fit scans every bin. Among the bins whose residual
    `1.0 - fill - size` is at least `-0.0001`, it keeps the one with the
    least residual. A later bin replaces it only on a strictly smaller
    residual, so the earliest bin wins a tie.
- If the search selects no bin, a new bin with fill 0.0 is appended after
  the existing ones.
- The item's size is added to the fill of the chosen bin.
- The result is the number of bins used.

Layout:

- `model.dfy` (module `BinModel`): constants, items, the four algorithms,
  the events of a run, and the sums and trace projections used in the proofs.
- `search.dfy` (module `Search`): the two searches as specification
  functions, and the inspections each one records.
- `sorting.dfy` (module `Sorting`): the in-place stable sort on an array, and
  the order it produces.
- `packing.dfy` (module `Packing`): one item's effect on the bins and on the
  trace, a whole run as functions, and the run's properties.
- `engine.dfy` (module `Engine`): the engine as it runs. A `Packer` object
  holds the fill levels and the trace and updates them in place. `Simulate`
  sorts an array of items in place and drives the main loop. Every method is
  proved equal to the specification functions.
- `scenarios.dfy` (module `Scenarios`): concrete runs, including the built-in
  example list.

Besides the fill levels, the model records a trace of the engine's decisions.
The trace mirrors what the scene shows:

- `BinInspected(item, bin, accepted)` is the green or red flash on a bin.
- `BestCandidateUpdated` is the gold highlight of a new Best-Fit candidate.
- `BinCreated` is a new bin appearing.
- `ItemPlaced` is the drop.
- `SortApplied` is the sorting step.
- `SimulationComplete` is the final bin count.

Sizes are exact real numbers. Capacity and tolerance are the code's constants,
1.0 and 0.0001.

FFD on 0.2, 0.5, 0.3 uses one bin: after 0.5 and 0.3 the bin holds 0.8, and
0.8 + 0.2 <= 1.0 + 0.0001 is accepted (`Scenarios.FirstFitDecreasingScenario`).

Because of the tolerance, a bin may hold slightly more than 1.0, so the number
of bins used can be smaller than the total size rounded up: 0.5 and 0.50005
share one bin holding 1.00005 (`Scenarios.ToleranceOverfillScenario`). The
lower bound that does hold is total size <= bins × (1.0 + 0.0001)
(`Packing.PackLowerBound`).

## Model

| member | source | states |
|---|---|---|
| BinModel.Fits | packing_logic.py:142 | The First-Fit acceptance test, fill + size <= 1.0 + 0.0001. It is a definition; `Search.AcceptanceTestsAgree` relates it to the Best-Fit test. |
| BinModel.Residual | packing_logic.py:167 | The room a bin has left once the item is in it, 1.0 - fill - size. It is a definition. |
| BinModel.IsCandidate | packing_logic.py:169 | The Best-Fit acceptance test, residual >= -0.0001. It is a definition; `Search.AcceptanceTestsAgree` relates it to the First-Fit test. |
| Search.FirstFit | packing_logic.py:131-147 | The First-Fit search over all bins. It is a definition; `Search.FirstFitIsLeast` characterises it. |
| Search.FirstFitFrom | packing_logic.py:132-147 | A bin found from position `from` on lies at or after `from` and passes the First-Fit test. |
| Search.FirstFitFromIsFirst | packing_logic.py:132-147 | Every bin between `from` and the bin found rejects the item. Nothing is found exactly when every bin from `from` on rejects it. |
| Search.FirstFitIsLeast | packing_logic.py:131-147 | First-Fit selects bin k exactly when bin k accepts the item and every earlier bin rejects it. |
| Search.FirstFitEvents | packing_logic.py:132-151 | First-Fit inspects bins 0, 1, ... in order. It stops right after the selected bin, or inspects every bin when none accepts. Only the selected bin is marked accepted. |
| Search.BestFitPrefix | packing_logic.py:154-178 | Over the first n bins, the kept bin is one of them and is a candidate. |
| Search.BestFitPrefixIsBest | packing_logic.py:154-178 | Over the first n bins, the kept bin's residual is at most that of every candidate, and strictly less than that of every earlier candidate. No bin is kept exactly when there is no candidate. |
| Search.Improves | packing_logic.py:169-174 | Whether the scan moves its running best to bin k: k is a candidate and either no best is held or k's residual is strictly smaller. It is a definition, used by `Search.BestFitEventsFaithful`. |
| Search.BestFit | packing_logic.py:153-180 | The Best-Fit search over all bins. It is a definition; `Search.BestFitIsEarliestMinimum` characterises it. |
| Search.BestFitIsEarliestMinimum | packing_logic.py:153-180 | Best-Fit selects bin k if and only if k is a candidate of least residual and every earlier candidate has a strictly larger residual. |
| Search.BestFitEvents | packing_logic.py:157-178 | Best-Fit inspects every bin, in creation order. The last best-candidate update names the bin it selects. It records nothing but inspections and updates. |
| Search.BestFitEventsFaithful | packing_logic.py:157-178 | Every inspection names the item and a scanned bin, and is accepted exactly when that bin is a candidate. Every update names the item and a scanned bin that strictly improves on the best candidate of the bins before it. |
| Search.BestFitUpdatesExactly | packing_logic.py:172-175 | The scan records an update for bin b if and only if b strictly improves on the best candidate of the bins before it. |
| Search.BestFitBeatsEveryAccepted | packing_logic.py:167-180 | Whenever the Best-Fit search marks a bin accepted, it selects a bin, and that bin's residual is no larger than the accepted bin's. |
| Search.AcceptanceTestsAgree | packing_logic.py:142 | The First-Fit test (line 142) and the Best-Fit candidate test (line 169) accept exactly the same bins. |
| Search.SearchesAgreeOnNewBin | packing_logic.py:131-180 | First-Fit finds no bin exactly when Best-Fit finds none, so both rules open a new bin in the same situations. |
| Sorting.SortBySizeDescending | packing_logic.py:75-80 | The in-place sort leaves the array a permutation of its input. Sizes never increase along it, and items of equal size keep their input order. |
| Sorting.InsertLeft | packing_logic.py:80 | One insertion step moves an item left past strictly smaller items only. This extends the sorted prefix and keeps the array a permutation. |
| Sorting.Swap | packing_logic.py:80 | Exchanging two entries keeps the array a permutation and touches nothing else. |
| Sorting.SortedIsStableDescending | packing_logic.py:80 | In a sorted queue an earlier item is at least as large as a later one. If the two are equal, the earlier one came first in the input. |
| Sorting.SortedPermutationUnique | packing_logic.py:75-80 | Two sorted arrangements of the same items are equal, so the processing order of FFD and BFD is determined by the input. |
| Sorting.PermutationKeepsTotal | packing_logic.py:80 | Sorting does not change the total size of the items. |
| Sorting.PermutationKeepsIndices | packing_logic.py:80 | Sorting keeps the multiset of input positions. |
| Packing.Target | packing_logic.py:131-180 | The existing bin the algorithm's search selects, if any. It is a definition. |
| Packing.PlacedBin | packing_logic.py:183-200 | The bin the item lands in is an existing bin or the next index. The selected bin is used, or else the new bin. |
| Packing.Opened | packing_logic.py:199-200 | The bins after the search: a new empty bin is appended exactly when none was selected. It is a definition. |
| Packing.Step | packing_logic.py:183-214 | Placing an item raises the chosen bin by exactly the item's size. No bin disappears. One bin is added, holding just the item, exactly when the search selected none. |
| Packing.Pack | packing_logic.py:122-214 | The fills after the main loop handles the items in order, starting with no bins. It is a definition; its properties are `Packing.PackIsPacked`, `Packing.PackConserves`, `Packing.PackBinCount` and `Packing.PackLowerBound`. |
| Packing.StepEvents | packing_logic.py:131-214 | What handling one item records: its search, a creation if a new bin is opened, and the placement. It is a definition; `Packing.StepEventsRecord` states its content. |
| Packing.PackEvents | packing_logic.py:122-214 | The events of the main loop, item after item. It is a definition; `Packing.PackEventsPlaceEachItem` and `Packing.PackEventsCreateBinsInOrder` state its content. |
| Packing.RunTrace | packing_logic.py:74-217 | The whole trace: the sort event for FFD and BFD, the main loop's events, and the final bin count. It is a definition; `Engine.RunTracePlacements` states its content. |
| Packing.StepKeepsOtherBins | packing_logic.py:197 | Every bin other than the chosen one keeps its fill. |
| Packing.StepConserves | packing_logic.py:197-214 | One placement adds exactly the item's size to the total fill of the bins. |
| Packing.StepKeepsPacked | packing_logic.py:142-214 | For a size in (0, 1], placing keeps every bin non-empty and within capacity plus tolerance. |
| Packing.PackIsPacked | packing_logic.py:122-214 | Capacity invariant: after any sequence of sizes in (0, 1], every bin is non-empty and holds at most 1.0 + 0.0001. |
| Packing.PackConserves | packing_logic.py:197-214 | Conservation: the fill levels add up to the total size of the items placed. |
| Packing.PackBinCount | packing_logic.py:199-217 | No more bins than items. No bin exactly when there is no item. |
| Packing.PackLowerBound | packing_logic.py:217 | The bins used can hold the total size: total size <= bins × (1.0 + 0.0001). |
| Packing.SearchEventsOnlyInspect | packing_logic.py:131-180 | A search records only inspections and best-candidate updates. |
| Packing.StepEventsRecord | packing_logic.py:183-214 | Handling an item places that item once. It creates a bin, numbered with the previous bin count, exactly when the search selected none. |
| Packing.StepCreatesNextBin | packing_logic.py:101-112 | The bin created by an item takes the next index, so the bins stay numbered 0, 1, ... |
| Packing.PackEventsPlaceEachItem | packing_logic.py:122-214 | The placements recorded over a run list the items once each, in processing order. |
| Packing.PackEventsCreateBinsInOrder | packing_logic.py:100-119 | The creations recorded over a run are 0, 1, ..., one per bin used. |
| Engine.Packer.constructor | packing_logic.py:97-98 | The engine starts with no bins and an empty trace. |
| Engine.Packer.CreateNewBin | packing_logic.py:100-119 | The new bin gets index = previous bin count and fill 0.0, after all existing bins, and its creation is recorded. |
| Engine.Packer.ScanFirstFit | packing_logic.py:131-147 | The early-exit loop returns the First-Fit bin and records its inspections. |
| Engine.Packer.ScanBestFit | packing_logic.py:153-180 | The full scan with its running best returns the Best-Fit bin and records its inspections and updates. |
| Engine.Packer.Drop | packing_logic.py:183-197 | Only the target bin's fill rises, by exactly the item's size, and the placement is recorded with the resulting fill. |
| Engine.Packer.PackItem | packing_logic.py:128-214 | One item's handling (search, optional new bin, drop) has exactly the effect `Step` describes on the fills and appends its events to the trace. |
| Engine.PackInOrder | packing_logic.py:122-214 | The main loop over the queue produces the fills and the events of the whole run. |
| Engine.Simulate | packing_logic.py:74-217 | A run processes the items in input order (FF, BF) or in sorted order (FFD, BFD). It ends with bins used <= item count, and with no bins when there are no items. With sizes in (0, 1] every bin ends within capacity. The fills add up to the input sizes, and every input position is placed exactly once. |
| Engine.ProcessingOrderPermutes | packing_logic.py:75-80 | The processing order holds each input item exactly once. |
| Engine.RunBinCount | packing_logic.py:217 | A run's bin count is at most the item count. It is zero exactly for an empty input. |
| Engine.RunIsPacked | packing_logic.py:122-214 | With sizes in (0, 1] every bin of a run ends non-empty and within capacity. |
| Engine.RunConserves | packing_logic.py:122-214 | A run's fill levels add up to the input sizes, whatever the processing order. |
| Engine.RunTracePlacements | packing_logic.py:122-214 | The placements in a run's trace are the processing order's input positions, in order. |
| Engine.RunPlacesEachItemOnce | packing_logic.py:122-214 | Every input position is placed exactly once in a run's trace. |
| Scenarios.FirstFitScenario | packing_logic.py:131-147 | First-Fit on 0.5, 0.4, 0.3 ends with bins 0.9 and 0.3. |
| Scenarios.BestFitScenario | packing_logic.py:153-180 | Best-Fit on 0.6, 0.3, 0.5, 0.2 ends with bins 0.9 and 0.7. |
| Scenarios.FirstFitDecreasingScenario | packing_logic.py:75-80 | FFD on 0.2, 0.5, 0.3 processes 0.5, 0.3, 0.2 and fills one bin to 1.0. |
| Scenarios.SortedScenarioItems | packing_logic.py:80 | 0.5, 0.3, 0.2 is a sorted arrangement of the input 0.2, 0.5, 0.3. |
| Scenarios.SortedScenarioPack | packing_logic.py:142 | Packing 0.5, 0.3, 0.2 with First-Fit fills a single bin exactly. |
| Scenarios.EmptyScenario | packing_logic.py:217 | An empty input opens no bin. Its trace is the completion event, preceded by the sort event for FFD and BFD. |
| Scenarios.FirstFitAndBestFitDiffer | packing_logic.py:131-180 | On 0.5, 0.7, 0.2 First-Fit ends at 0.7, 0.7 and Best-Fit at 0.5, 0.9. |
| Scenarios.BestFitTieScenario | packing_logic.py:172 | On a tie in residual, Best-Fit keeps the earlier bin. |
| Scenarios.ToleranceOverfillScenario | packing_logic.py:142 | On 0.5 and 0.50005 First-Fit uses one bin holding 1.00005, although the total size exceeds one bin's capacity. |
| Scenarios.DefaultInputScenario | packing_logic.py:27 | The built-in example list under First-Fit ends with bins 0.9, 0.8, 0.8 and 0.3. |

## Left out

- Rendering: rectangles, labels, colours, animation timing, camera moves and the final text. These are presentation only. The inspection flashes, the gold highlight, the new bin and the drop appear as trace events instead.
- Reading the input from the `BINPACK_DATA` environment variable as JSON. This is I/O. `Simulate` takes the sizes and the algorithm as parameters, and the built-in default list is used as a concrete scenario.
- `USER_CONFIG`: it is never read.
- `app.py` as a whole: the web form, random test data and the shell call that renders the video. app.py is not part of this model.
- Floating-point rounding: sizes and fills are exact reals, so a sum that rounds differently in floating point may be accepted or rejected differently.
- The `1000.0` start value of the running minimum residual is modelled as "no candidate yet". The two differ only when a residual is at least 1000, which needs a negative fill or size.
- An algorithm name other than FF, BF, FFD and BFD cannot be written with the four-case `Algorithm` type. The code would run no search and open a new bin for every item.
- Input validation: the code does not check sizes. The capacity properties (`Packing.PackIsPacked`, `Packing.PackLowerBound`, `Engine.RunIsPacked`, the `Packed` clause of `Engine.Simulate`) assume every size is in (0, 1]. Conservation, bin count and placement hold for any sizes.
- Sorting.SortBySizeDescending requires the items to be tagged with their input positions (0, 1, ...), as the engine builds them. Stability is stated through those tags.
- With FFD or BFD and no items, the sort step still runs, so the trace starts with an empty `SortApplied`.
