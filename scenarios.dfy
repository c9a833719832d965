/**
 * What the three sorts have in common, and a few small runs worked out.
 */
module Scenarios {
  import opened Steps
  import opened Ordering
  import opened Bubble
  import opened Selection
  import opened Merging
  import opened MergeSorting

  /** The three sorts leave the same array: the sorted rearrangement of the input. */
  lemma SortsAgree(s: seq<int>)
    ensures BubbleRun(s).arr == SelectionRun(s).arr
    ensures SelectionRun(s).arr == MergeSortRun(s).arr
  {
    BubbleSortedCorrect(s);
    SelectionSortedCorrect(s);
    MergeSortCorrect(s);
    SortedUnique(BubbleRun(s).arr, SelectionRun(s).arr);
    SortedUnique(SelectionRun(s).arr, MergeSortRun(s).arr);
  }

  /** Bubble sort compares n(n - 1) / 2 times on every input of n values, sorted or not. */
  lemma BubbleCompareCount(s: seq<int>)
    ensures Size(Compares(BubbleRun(s).steps)) == |s| * (|s| - 1) / 2
  {
    BubbleCompares(s);
    BubbleScheduleSize(|s|);
  }

  /** Selection sort compares n(n - 1) / 2 times on every input of n values. */
  lemma SelectionCompareCount(s: seq<int>)
    ensures Size(Compares(SelectionRun(s).steps)) == |s| * (|s| - 1) / 2
  {
    SelectionProbes(s);
    SelectionScheduleSize(|s|);
  }

  /** Bars all of one value, such as [3, 3, 3]: selection sort makes all its comparisons and never swaps. */
  lemma SelectionOnEqualBars(s: seq<int>, v: int)
    requires forall p :: 0 <= p < |s| ==> s[p] == v
    ensures SelectionRun(s).arr == s
    ensures Size(Compares(SelectionRun(s).steps)) == |s| * (|s| - 1) / 2
    ensures Swaps(SelectionRun(s).steps) == Empty
  {
    assert Sorted(s);
    SelectionOnSorted(s);
    SelectionCompareCount(s);
  }

  /** Already sorted bars: bubble sort still makes all its comparisons, and swaps nothing. */
  lemma BubbleOnSortedBars(s: seq<int>)
    requires Sorted(s)
    ensures BubbleRun(s).arr == s
    ensures Size(Compares(BubbleRun(s).steps)) == |s| * (|s| - 1) / 2
    ensures Swaps(BubbleRun(s).steps) == Empty
  {
    BubbleOnSorted(s);
    BubbleCompareCount(s);
  }

  /** Two bars out of order: bubble sort compares them once and swaps them. */
  lemma BubbleOnTwoBars()
    ensures BubbleRun([2, 1]) == Run([1, 2], Then(Then(Empty, Compare(0, 1)), Swap(0, 1)))
  {
  }

  /** Merging [2] with [1]: one contested comparison at 0, then both writes in order. */
  lemma MergeOnTwoBars()
    ensures MergeRun([2, 1], 0, 0, 1) == Run([1, 2], Then(Then(Then(Empty, Compare(0, 0)), Write(0, 1)), Write(1, 2)))
  {
  }

  /** The empty array: mergeSortRecursive(arr, 0, -1) does nothing. */
  lemma MergeSortOnEmpty()
    ensures MergeSortRun([]) == Run([], Empty)
  {
    SortRunBase([], 0, -1);
  }
}
