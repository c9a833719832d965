# Sorting visualizer: a verified model of its sorts

The visualizer (`src/App.js`) shows 20 random bars and sorts them with bubble
sort, selection sort or merge sort, highlighting each comparison and showing
each swap and each write as it happens. This project models the logic under
that animation:

- the three in-place sorts, as Dafny methods over `array<int>` with the loops,
  branches and constants of the code;
- the events each sort emits, recorded as a trace;
- the `isSorting` guard and the bounds of `generateArray`;
- the component state (`array`, `isSorting`), as a class.

### Events
The events are those the code animates:

- every `animateComparison(i, j)` becomes `Compare(i, j)`;
- every `animateSwap(i, j)` becomes `Swap(i, j)`;
- every element write of `merge` becomes `Write(k, v)`. Each such write is
  published with `setArray` and followed by one `delay()`.

### Structure
Each method is proved against a reference function on values. Each function
returns a `Run`: the array left behind and the trace of events. Each sort
method's postcondition is `Run(a[..], steps) == Ref(old(a[..]))`. The loops
inside `merge` keep a progress invariant instead, and the component's actions
state the new bars. The properties are lemmas about the reference functions.

- `Steps`: events, traces, and `Replay`, which is what the bars show after a
  trace.
- `Ordering`: sortedness, and the uniqueness of the sorted rearrangement.
- `Iteration`: a counted loop as a function, with lemmas that carry a property
  of one iteration to the whole loop.
- `Bubble`, `Selection`: the two quadratic sorts.
- `Merging`: `merge`, with its three write-back loops.
- `MergeSorting`: `mergeSortRecursive`, and the top-level call on the whole
  working copy.
- `Generation`: the bar values `generateArray` produces.
- `App`: the component's state and its four buttons' actions.
- `Scenarios`: the sorts compared with each other, and a few small runs.

### Division and comparisons
`Math.floor((start + end) / 2)` is Dafny's `(start + end) / 2`. With the
divisor positive, Dafny's Euclidean division rounds down, as `Math.floor`
does, for every sign of `start + end`.

Only the interleaving loop of `merge` calls `animateComparison(k, k)`
(src/App.js:81). The two remainder loops (src/App.js:95-110) write without a
comparison event. `MergeCompares` and `NoContest` state it.

## Model

| member | source | states |
|---|---|---|
| Steps.ReplayPermutes | src/App.js:28-30 | a trace with swaps and comparisons only shows a rearrangement of the starting bars (same multiset) |
| Ordering.SortedUnique | src/App.js:24-33 | two sorted arrays holding the same multiset of values are equal, so any two correct sorts agree |
| Iteration.IterateKeeps | src/App.js:24-33 | an invariant established before a counted loop and kept by every iteration holds after the loop |
| Iteration.IterateSwapBound | src/App.js:54-58 | a loop whose iterations swap at most once each swaps at most once per iteration in total |
| Bubble.BubbleSort | src/App.js:23-34 | the in-place bubble sort leaves the array and emits the events of the reference run `BubbleRun` of the input |
| Bubble.BubblePass | src/App.js:25-32 | one pass of the inner loop leaves the array and emits the events of the first m steps of the reference pass |
| Bubble.VisitEvents | src/App.js:26-31 | one step at j emits `Compare(j, j+1)`, then `Swap(j, j+1)` exactly when `arr[j] > arr[j+1]`, and never a write |
| Bubble.PassCompares | src/App.js:25-26 | pass i compares the pairs (0,1), ..., (n-i-2, n-i-1), whatever the values |
| Bubble.BubbleCompares | src/App.js:24-26 | the comparisons of a run are the fixed schedule of all passes: they do not depend on the values (no early exit) |
| Bubble.BubbleScheduleSize | src/App.js:24-25 | that schedule has exactly n(n-1)/2 comparisons |
| Bubble.BubbleScheduleShape | src/App.js:25-26 | every scheduled comparison is of an adjacent pair (j, j+1) inside the array |
| Bubble.VisitsCarryMax | src/App.js:25-30 | after the first j steps of a pass, position j holds the largest of the first j+1 values |
| Bubble.VisitsFrame | src/App.js:25-30 | the first j steps of a pass leave the positions after j unchanged |
| Bubble.PassSettles | src/App.js:24-32 | a pass keeps the settled suffix (sorted and above everything before it) and settles one position more |
| Bubble.PassesSettle | src/App.js:24-33 | after i passes, the last i positions are settled: sorted and no smaller than anything before them |
| Bubble.BubbleSortedCorrect | src/App.js:23-34 | a complete run leaves the array sorted and a permutation of the input, for every length including 0 and 1 |
| Bubble.BubbleReplay | src/App.js:26-30 | replaying the run's events from the input shows the array the run leaves, and that array has the input's values |
| Bubble.BubbleOnSorted | src/App.js:24-33 | a sorted input is left unchanged, without a single swap |
| Selection.SelectionSort | src/App.js:45-59 | the in-place selection sort leaves the array and emits the events of the reference run `SelectionRun` of the input |
| Selection.SelectionRow | src/App.js:47-58 | one iteration of the outer loop leaves the array and emits the events of the reference row |
| Selection.ScanIndex | src/App.js:47-53 | the candidate of the scan always lies in [i, j) |
| Selection.ScanFindsFirstMin | src/App.js:47-53 | the scan ends on a least value of arr[i..n), and on the first one, because of the strict `<` |
| Selection.ScanShape | src/App.js:48-49 | every comparison of the scan is `(minIndex, j)` with i <= minIndex < j < n |
| Selection.RowProbes | src/App.js:48-49 | the scan of row i compares with the positions i+1, ..., n-1, in order |
| Selection.SelectionProbes | src/App.js:46-49 | the probed positions of a run are a fixed schedule that does not depend on the values |
| Selection.SelectionScheduleSize | src/App.js:46-48 | that schedule has exactly n(n-1)/2 comparisons |
| Selection.RowPlaces | src/App.js:46-58 | after iteration i the prefix arr[0..i] is sorted and no element of it exceeds any element after it |
| Selection.SelectionSortedCorrect | src/App.js:45-59 | a complete run leaves the array sorted and a permutation of the input |
| Selection.SelectionReplay | src/App.js:54-57 | replaying the run's events from the input shows the array the run leaves, and that array has the input's values |
| Selection.RowSwaps | src/App.js:54-58 | each row swaps at most once, only `Swap(i, minIndex)` with minIndex > i, and never in the last row |
| Selection.SelectionSwapCount | src/App.js:46-58 | a run on n > 0 values makes at most n-1 swaps |
| Selection.RowOnSorted | src/App.js:47-58 | on a sorted array the scan keeps its first candidate, so the row changes nothing and swaps nothing |
| Selection.SelectionOnSorted | src/App.js:46-58 | a sorted input, such as all-equal bars, is left unchanged without a single swap |
| Merging.OutPermutes | src/App.js:80-110 | the write-back loops write exactly the values of the two halves, each once |
| Merging.OutSorted | src/App.js:80-110 | merging two sorted halves yields a sorted sequence |
| Merging.MergedSortedPermutation | src/App.js:73-110 | the merge of two sorted halves is sorted and holds exactly their values |
| Merging.PlanValues | src/App.js:80-110 | the x-th write copies the value at the position of `left` or `right` the plan names for it |
| Merging.PlanNames | src/App.js:80-110 | every recorded origin is a position inside its half |
| Merging.PlanInOrder | src/App.js:80-110 | each half is consumed in order, and every one of its positions is taken |
| Merging.PlanLeftInOrder | src/App.js:80-101 | the left half's positions are written in increasing order (`i++` only) |
| Merging.PlanRightInOrder | src/App.js:80-110 | the right half's positions are written in increasing order (`j++` only) |
| Merging.PlanTakesAll | src/App.js:80-110 | the loops run until both cursors reach the ends: every position of both halves is written |
| Merging.PlanStable | src/App.js:82-87 | with the left half sorted, of two equal values written, the one from the earlier position goes first |
| Merging.SourceOrder | src/App.js:74-75 | the left half precedes the right half in [start, end], each in its own order |
| Merging.PlanTies | src/App.js:82-87 | a value of the right half is written before one of a sorted left half only when it is strictly smaller (`<=` takes left) |
| Merging.LogWrites | src/App.js:83-107 | from cursor k the loops write the positions k, k+1, ..., once each, in increasing order |
| Merging.LogCompares | src/App.js:80-81 | the comparisons still to come are (k,k), (k+1,k+1), ...: one before each write made while both halves have values |
| Merging.NoContest | src/App.js:95-110 | once a half has run out, the merge emits no more comparisons |
| Merging.ContestBounds | src/App.js:80-92 | at least as many writes are compared as the shorter half has values, and the last write is never compared |
| Merging.LogReplay | src/App.js:83-108 | replaying the merge's events shows what the merge writes |
| Merging.WriteBack | src/App.js:76-110 | the three loops leave a[start..] holding the merge of `left` and `right`, everything else unchanged, and emit the reference events |
| Merging.Interleave | src/App.js:80-92 | the interleaving loop keeps the progress invariant and stops when a half has run out |
| Merging.CopyLeft | src/App.js:95-101 | the left remainder loop keeps the progress invariant and consumes the rest of `left` |
| Merging.CopyRight | src/App.js:104-110 | the right remainder loop keeps the progress invariant and consumes the rest of `right` |
| Merging.Merge | src/App.js:73-111 | merge on the array leaves it and emits the events of the reference `MergeRun` |
| Merging.MergeFrame | src/App.js:73-111 | positions outside [start, end] are unchanged, and [start, end] holds the merge of the two halves |
| Merging.MergePermutes | src/App.js:73-111 | [start, end], and so the whole array, keeps its multiset of values |
| Merging.MergeSorts | src/App.js:73-111 | with both halves sorted, [start, end] is sorted afterwards |
| Merging.MergeWrites | src/App.js:76-110 | each position start, ..., end is written exactly once, in increasing order |
| Merging.MergeCompares | src/App.js:80-81 | the comparison events are (start,start), (start+1,start+1), ..., c of them, c at least the shorter half's length and below the range's length |
| Merging.MergeReplay | src/App.js:73-111 | replaying merge's events from its input shows the array it leaves |
| Merging.MergeValues | src/App.js:73-111 | the x-th merged value sits at start + x |
| Merging.MergeSources | src/App.js:74-110 | the x-th write copies the value of one position of [start, end] |
| Merging.MergeCovers | src/App.js:74-110 | every position of [start, end] is copied by exactly one write |
| Merging.MergeStable | src/App.js:82-87 | with the left half sorted, equal values keep the order of the positions they came from |
| MergeSorting.MergeSortRecursive | src/App.js:114-122 | the in-place recursion leaves the array and emits the events of the reference `SortRun`; it terminates because end - start decreases |
| MergeSorting.SortRightAndMerge | src/App.js:120-121 | the second recursive call and the merge leave the array and events of the rest of one `SortRun` level |
| MergeSorting.MergeSort | src/App.js:124-125 | the top-level call mergeSortRecursive(arr, 0, arr.length - 1) leaves the array and events of `MergeSortRun` |
| MergeSorting.SortRunBase | src/App.js:115 | with start >= end nothing happens: no events, the array unchanged |
| MergeSorting.SortWritesWithin | src/App.js:114-122 | a call on [start, end] writes only positions of [start, end], for any arguments |
| MergeSorting.SortWrites | src/App.js:117-121 | a call on two or more positions writes first what the call on [start, mid] writes, all inside [start, mid], then what the call on [mid+1, end] writes, all inside [mid+1, end], then start, ..., end once each in increasing order |
| MergeSorting.SortFrame | src/App.js:114-122 | positions outside [start, end] are unchanged, and with start >= end all of them are |
| MergeSorting.SortPermutes | src/App.js:114-122 | the array keeps its multiset of values |
| MergeSorting.SortPermutesRange | src/App.js:114-122 | [start, end] keeps the values it held |
| MergeSorting.SortSorts | src/App.js:114-122 | [start, end] is sorted afterwards |
| MergeSorting.SortReplay | src/App.js:114-122 | replaying the events from the input shows the array left behind |
| MergeSorting.MergeSortCorrect | src/App.js:124-125 | the whole merge sort leaves the array sorted and a permutation of the input, and its events replay to it |
| Generation.BarValue | src/App.js:13 | the bar for one draw r in [0, 1), floor(r * 100) + 1, lies in [1, 100] |
| Generation.BarValueExactly | src/App.js:13 | the draw r gives the bar v exactly when (v-1)/100 <= r < v/100 |
| Generation.Generated | src/App.js:12-14 | the new array has exactly 20 bars, each in [1, 100] |
| Generation.GeneratedReaches | src/App.js:12-14 | every array of 20 values in [1, 100] is produced by some draws, so the bounds are tight |
| App.Visualizer.constructor | src/App.js:4-6 | the component starts with no bars and not sorting |
| App.Visualizer.GenerateArray | src/App.js:10-17 | while sorting nothing changes; otherwise the bars become the generated 20 values in [1, 100]; the flag is unchanged |
| App.Visualizer.WorkingCopy | src/App.js:23 | `[...array]` is a fresh array holding the bars |
| App.Visualizer.BubbleSortAction | src/App.js:20-39 | the bars become the bubble-sorted bars, with the run's events; sorted, a permutation, and the flag down at the end |
| App.Visualizer.SelectionSortAction | src/App.js:42-65 | the bars become the selection-sorted bars, with the run's events; sorted, a permutation, and the flag down at the end |
| App.Visualizer.MergeSortAction | src/App.js:68-132 | the bars become the merge-sorted bars, with the run's events; sorted, a permutation, and the flag down at the end |
| Scenarios.SortsAgree | src/App.js:20-132 | the three sorts leave the same array on every input |
| Scenarios.BubbleCompareCount | src/App.js:24-26 | bubble sort compares exactly n(n-1)/2 times on every input, sorted or not |
| Scenarios.SelectionCompareCount | src/App.js:46-49 | selection sort compares exactly n(n-1)/2 times on every input |
| Scenarios.SelectionOnEqualBars | src/App.js:47-58 | on all-equal bars such as [3, 3, 3], selection sort makes all its comparisons and no swap |
| Scenarios.BubbleOnSortedBars | src/App.js:24-33 | on sorted bars, bubble sort still makes all n(n-1)/2 comparisons and no swap |
| Scenarios.BubbleOnTwoBars | src/App.js:24-31 | on [2, 1], bubble sort emits Compare(0, 1), then Swap(0, 1), and leaves [1, 2] |
| Scenarios.MergeOnTwoBars | src/App.js:80-92 | merging [2] with [1] emits Compare(0, 0), Write(0, 1), Write(1, 2) and leaves [1, 2] |
| Scenarios.MergeSortOnEmpty | src/App.js:114-125 | on the empty array, mergeSortRecursive(arr, 0, -1) does nothing |

## Left out

- React state wiring is not modelled: `useState`, `useCallback`, the JSX tree,
  and the status strings are display only. Each sort is one atomic action on
  the class's state. No button can be pressed during a run, because all four
  are disabled while `isSorting` holds (src/App.js:188, 195, 202, 209). The
  speed slider (src/App.js:229-237) stays active, but it only changes the
  pacing, which is not modelled.
- The sorts do not check `isSorting` themselves. The model makes no such
  claim: a sort action sorts whatever the flag.
- The `useEffect` at src/App.js:177-179 is not modelled. Its comment says it
  runs once; in fact it runs again whenever `generateArray` changes identity,
  that is whenever `isSorting` changes. So new bars appear after each finished
  sort. This is React scheduling.
- Array snapshots published with `setArray` during a run are not modelled as
  state. `Replay` states what the bars show after any prefix of the events.
- Timers and promises are not modelled (`delay`, `animateSwap`'s timeout,
  `pauseAfterSorting`'s 5000 ms, src/App.js:134-174). They do not affect the
  array; the sorts are sequential once the awaits are removed.
- The pacing formula `(500 - speed) / 10` is not modelled. It is
  floating-point and only feeds `setTimeout`.
- The DOM highlighting in `animateComparison` is not modelled. Only the index
  pair is kept.
- `Math.random` is not modelled: its 20 results are a parameter, real numbers
  in [0, 1). The arithmetic `floor(r * 100) + 1` is exact; IEEE-754 rounding
  of `r * 100` is not modelled.
- Generation.Generated: its contract states the length and the bounds only.
  The bar for each draw is `BarValue`, whose exact range is
  `BarValueExactly`.
- Bubble.Visit, Selection.Row and MergeSorting.MergeStep are total functions.
  Outside the index ranges the loops actually reach, they do nothing.
- MergeSorting.SortRun: merge stability is proved for one merge
  (`MergeStable`) but is not carried through the recursion. The model does
  not state that the whole merge sort is stable.
- Values are unbounded integers. The bars are 1..100, so JavaScript number
  precision plays no role.
