# Rod cutting and 3D print-queue batching, modelled in Dafny

The repository holds two small sequential algorithms, and this project models both.

**Rod cutting** (`rod_cutting.dfy`, module `RodCutting`) models the bottom-up dynamic program
`rod_cutting_table`. `prices[j-1]` is the price of a piece of length `j`. The method
`RodCuttingTable` fills a table `memo` (a `map` from length to an `Entry` of
`maxProfit`, `cuts` and `numberOfCuts`) for lengths `1..length` with two nested `for` loops. Each
length tries every first cut `j = 1..i`. A candidate replaces the running best only when it is
strictly larger, starting from profit 0, so the smallest `j` wins ties. The method is proved
against `Best`, a pure recursive definition of the same recurrence with the same tie-break. The
lemmas then prove what `Best` means:
- it is the maximum of 0 and every first-cut candidate;
- when there are cuts, the first cut is the smallest one that attains that maximum;
- the profit is the total price of the cuts, and no way of taking pieces does better;
- when a piece of length 1 has a positive price, the cuts use the whole rod.

The source's two irregular exits are kept as variants of `Outcome`:
- `BaseTable`: a `length <= 0` or an empty price list returns the whole one-entry table, not an
  entry.
- `PriceIndexError`: a price list shorter than `length` makes `prices[j - 1]` raise an exception.

**Print-queue batching** (`printer_queue.dfy`, module `PrinterQueue`) models
`optimize_printing`. Jobs are stably sorted by ascending priority (`SortByPriority`, an insertion
sort). One pass then packs them into groups. A job joins the open group when that group holds
fewer than `maxItems` jobs and the job's volume fits under `maxVolume`. Otherwise the open group
is closed and the job starts a new one. `total_time` takes a maximum when a job joins and adds
the job's time when it starts a group.

The method `OptimizePrinting` keeps the source's loop variables (`totalTime`, `currentVolume`,
`itemsProcessed`, `currentGroups`, `printOrder`). It is proved against `Pack`, a fold of one
packing step over the sorted jobs. The lemmas prove the following about `Pack`:
- the groups partition the sorted jobs;
- no group is empty;
- no group exceeds the item limit;
- groups of two or more jobs fit the volume;
- with non-negative volumes, an oversized job is printed alone;
- a job joins exactly when it fits;
- with non-negative print times, the accumulated time never decreases and stays between
  per-job and summed bounds.

An empty job list or missing constraints give `None`.

Where the prose description of the system and the code differ, the model follows the code:
- For `(4, [3, 5, 6, 7])` the code yields cuts `[1, 1, 1, 1]` with profit 12, not `[2, 2]`
  (`UniformCuts`).
- A non-empty rod can end with no cuts and profit 0, when every candidate is at most 0
  (`WorthlessRodIsNotCut`). The claim "cuts are empty only for length 0" is therefore proved
  only under a positive price for length 1 (`CutsCoverRod`). With non-negative prices the cuts
  either use the whole rod or are empty (`NonNegativeCutsCoverRod`). With negative prices they
  may add up to less than the rod (`Consistent` only gives `Sum(cuts) <= i`).
- A price list shorter than the rod follows no chosen policy: the code fails with an index
  error, modelled as `PriceIndexError`.
- With ties, "no cut when the uncut price is at least as good" does not hold, because a smaller
  first cut with an equal profit wins. The model proves the strict version
  (`NoCutWhenUncutIsStrictlyBest`).
- `total_time` for the print queue is not the sum of each group's longest job
  (`TotalTimeIsNotPerGroupMaximum`); the model reproduces the code's accumulation exactly.

## Model

| member | source | states |
|---|---|---|
| `RodCutting.RodCuttingTable` | rod_cutting.py:17-49 | a `length <= 0` or an empty price list returns the whole base table `{0: (0, [], 0)}`; a price list shorter than `length` fails reading a missing price; otherwise the result is the entry `Best(prices, length)` |
| `RodCutting.BestConsistent` | rod_cutting.py:34-47 | every entry has `numberOfCuts` equal to the number of cuts, cuts in `1..i` adding up to at most `i`, a profit equal to the total price of its cuts and never negative, and no cuts exactly when the profit is 0 |
| `RodCutting.BestAmongConsistent` | rod_cutting.py:37-41 | the running best after trying first cuts `1..k` is consistent in the same sense |
| `RodCutting.BestAmongIsFirstMaximum` | rod_cutting.py:35-41 | after trying first cuts `1..k` the running profit is the maximum of 0 and the candidates `prices[j-1] + profit(i-j)` for `j <= k`, and its first cut is the smallest `j` attaining it, followed by the cuts for `i - j` |
| `RodCutting.BestRecurrence` | rod_cutting.py:34-47 | for every length `i` from 1 to the number of prices, `profit(i) = max(0, max over j in 1..i of prices[j-1] + profit(i-j))`; with cuts, the first cut is the smallest `j` attaining the maximum and every smaller `j` is strictly worse; without cuts every candidate is at most 0 |
| `RodCutting.BestIsOptimal` | rod_cutting.py:34-49 | the profit for length `i` is at least the total price of any sequence of pieces in `1..i` whose lengths add up to at most `i`, so of any composition of `i` |
| `RodCutting.UncutBound` | rod_cutting.py:37-41 | the profit for length `i` is at least `prices[i-1]` |
| `RodCutting.CutsAchieveProfit` | rod_cutting.py:41-47 | the cuts stored for length `i` are pieces of the rod whose total price is exactly the stored profit, and the count is their number |
| `RodCutting.NoCutWhenUncutIsStrictlyBest` | rod_cutting.py:37-41 | when the uncut price is positive and strictly better than every other first cut, the cuts are `[i]` |
| `RodCutting.CutsCoverRod` | rod_cutting.py:35-41 | with `prices[0] > 0`, every length from 1 to the number of prices has non-empty cuts in `1..i` that add up to `i` |
| `RodCutting.RemainderIsCut` | rod_cutting.py:37-41 | with non-negative prices, when the first cut leaves a remainder, the remainder's cuts are non-empty |
| `RodCutting.NonNegativeCutsCoverRod` | rod_cutting.py:35-41 | with non-negative prices the cuts are either empty or add up to the whole rod |
| `RodCutting.BasicCase` | rod_cutting.py:56 | length 5 with prices `[2, 5, 7, 8, 10]` gives profit 12, cuts `[1, 2, 2]`, 3 cuts |
| `RodCutting.OptimalNotToCut` | rod_cutting.py:58 | length 3 with prices `[1, 3, 8]` gives profit 8, cuts `[3]` |
| `RodCutting.UniformCuts` | rod_cutting.py:60 | length 4 with prices `[3, 5, 6, 7]` gives profit 12, cuts `[1, 1, 1, 1]` |
| `RodCutting.WorthlessRodIsNotCut` | rod_cutting.py:35-41 | length 1 with prices `[0]` gives profit 0 and no cuts, since 0 is not strictly better than the starting 0 |
| `PrinterQueue.OptimizePrinting` | 3D_printer_queue.py:19-72 | an empty job list or missing constraints give no plan; otherwise the plan is the id groups and accumulated time of `Pack` over the priority-sorted jobs |
| `PrinterQueue.InsertByPriorityPermutes` | 3D_printer_queue.py:35 | inserting a job yields the same jobs plus that one |
| `PrinterQueue.InsertByPriorityKeepsSorted` | 3D_printer_queue.py:35 | inserting into a priority-sorted list keeps it sorted |
| `PrinterQueue.InsertByPriorityKeepsOrder` | 3D_printer_queue.py:35 | inserting a job in front of all jobs of equal or higher priority keeps, for each priority, the jobs of that priority in the same order as putting it first |
| `PrinterQueue.SortByPriorityIsStableSort` | 3D_printer_queue.py:35 | the sorted jobs are a permutation of the input, ordered by ascending priority, and jobs of equal priority keep their input order |
| `PrinterQueue.SortKeepsIds` | 3D_printer_queue.py:35 | sorting keeps the multiset of job ids |
| `PrinterQueue.StepCovers` | 3D_printer_queue.py:47-61 | one job appends exactly that job to the groups laid end to end, and leaves the open group non-empty |
| `PrinterQueue.PackCoversJobs` | 3D_printer_queue.py:46-64 | the groups laid end to end are exactly the jobs in the order handled; the open group is empty only before the first job |
| `PrinterQueue.AllWithinLimitsAppend` | 3D_printer_queue.py:56-64 | appending a group within the limits to groups within the limits keeps them all within the limits |
| `PrinterQueue.StepWithinLimits` | 3D_printer_queue.py:47-61 | one job keeps every group non-empty, at most `max(1, maxItems)` long, and within `maxVolume` when it holds two or more jobs |
| `PrinterQueue.PackWithinLimits` | 3D_printer_queue.py:46-64 | every group is non-empty, has at most `maxItems` jobs (one when `maxItems < 1`), and a group of two or more jobs has total volume at most `maxVolume` |
| `PrinterQueue.MemberVolumeAtMostVolume` | 3D_printer_queue.py:52 | with non-negative volumes each job's volume is at most its group's total volume |
| `PrinterQueue.OversizeJobAlone` | 3D_printer_queue.py:49-61 | with non-negative volumes a job whose volume exceeds `maxVolume` is the only job of its group |
| `PrinterQueue.JoinsExactlyWhenItFits` | 3D_printer_queue.py:47-61 | the first job opens a group of its own; a later job joins the last group exactly when that group has fewer than `maxItems` jobs and its volume plus the job's is at most `maxVolume`, and otherwise starts a new group of one |
| `PrinterQueue.TotalTimeGrows` | 3D_printer_queue.py:53-60 | with non-negative print times the accumulated time after any prefix of the jobs is at most the final one |
| `PrinterQueue.StepTimeBounded` | 3D_printer_queue.py:53-60 | one job with a non-negative time keeps the accumulated time between the bounds below |
| `PrinterQueue.TotalTimeBoundedAll` | 3D_printer_queue.py:40-60 | with non-negative print times, the time bounds hold after every prefix, and the open group is empty only at the start |
| `PrinterQueue.TotalTimeBounds` | 3D_printer_queue.py:40-60 | with non-negative print times the accumulated time is non-negative, at least every job's own time, at least the summed times of the jobs that open groups, and at most the sum of all print times |
| `PrinterQueue.FlattenIdGroups` | 3D_printer_queue.py:51-64 | the id groups laid end to end are the ids of the job groups laid end to end |
| `PrinterQueue.PlanPrintOrder` | 3D_printer_queue.py:35-64 | the print order laid end to end is the ids of the stably sorted jobs, with the same multiset of ids as the input, and every group has between 1 and `max(1, maxItems)` ids |
| `PrinterQueue.SamePriority` | 3D_printer_queue.py:78-82 | three jobs of equal priority with `maxVolume = 300`, `maxItems = 2` give `[[M1, M2], [M3]]` and time 270 |
| `PrinterQueue.DifferentPrioritiesOrder` | 3D_printer_queue.py:85-94 | the stable priority sort puts jobs of priority 2, 1, 3 in the order M2, M1, M3 |
| `PrinterQueue.DifferentPriorities` | 3D_printer_queue.py:85-94 | the priority-2, 1, 3 jobs give `[[M2, M1], [M3]]` and time 270 |
| `PrinterQueue.ExceedingVolume` | 3D_printer_queue.py:97-101 | the 250/200/180-volume jobs give `[[M1], [M2], [M3]]` and time 450 |
| `PrinterQueue.TotalTimeIsNotPerGroupMaximum` | 3D_printer_queue.py:53-60 | groups `[A]` and `[B, C]` with longest jobs of 10 and 20 accumulate 20, not 30 |

## Left out

- `rod_cutting_memo` (rod_cutting.py:4-14) has only a docstring and returns `None`, so there is nothing to model. The top-down solver it describes, and its equivalence with the table, are not modelled. `Best` states the recurrence such a solver would compute.
- The console test drivers `run_tests` and `test_printing_optimization` only print. Their data appear as the example lemmas.
- `PriceIndexError` stands for the `IndexError` that `prices[j - 1]` raises. It is modelled as a returned value, not as an exception that unwinds.
- The `print` in the `except` handler of `optimize_printing` is output only, and the `None` it falls through to is modelled.
- The `KeyError` and `TypeError` that malformed job or constraint dictionaries would raise are not modelled. Jobs and constraints are typed records instead of dictionaries.
- A falsy `constraints` value (an empty dictionary or `None`) is modelled as `None` of `Option<PrinterConstraints>`.
- Volumes are floating point in the source. They are exact `real`s here, so rounding in `current_volume + volume` is not modelled.
- Python's library `sorted` is replaced by a stable insertion sort. `SortByPriorityIsStableSort` proves the properties that characterise any stable sort by priority: a permutation, ordered, with equal priorities kept in input order.
- `OversizeJobAlone`, `MemberVolumeAtMostVolume`: proved only for non-negative volumes, because a later job with a negative volume can join an oversized job in the source.
- `TotalTimeGrows`, `TotalTimeBounds`: proved only for non-negative print times; the source does not guard against negative ones.
- `CutsCoverRod`: proved only when a piece of length 1 has a positive price. Without that, the source can leave part of the rod, or all of it, uncut (see above).
