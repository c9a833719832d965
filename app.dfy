/**
 * The state of the visualizer component and its four actions.
 *
 * `values` is the `array` state (the bars shown) and `isSorting` the flag that
 * greys out the buttons. Each sort action raises the flag, sorts a copy of the
 * bars in place, publishes the result and lowers the flag again; generateArray
 * replaces the bars unless the flag is up. Status text, snapshots published
 * during a run and the timers in between are not part of the model.
 */
module App {
  import opened Steps
  import opened Ordering
  import opened Bubble
  import opened Selection
  import opened MergeSorting
  import opened Generation

  class Visualizer {
    /** The bars shown: the `array` state. */
    var values: seq<int>
    /** Whether a sort is running: the `isSorting` state. */
    var isSorting: bool

    /** The component as first rendered: no bars, not sorting. */
    constructor()
      ensures values == [] && !isSorting
    {
      values := [];
      isSorting := false;
    }

    /**
     * generateArray, given the 20 results of Math.random it would use: while a
     * sort runs it does nothing, otherwise the bars become one value in [1, 100]
     * per draw.
     */
    method GenerateArray(draws: seq<real>)
      requires |draws| == Length && Draws(draws)
      modifies this
      ensures isSorting == old(isSorting)
      ensures old(isSorting) ==> values == old(values)
      ensures !old(isSorting) ==> values == Generated(draws)
      ensures !old(isSorting) ==> |values| == Length && forall p :: 0 <= p < |values| ==> 1 <= values[p] <= 100
    {
      if isSorting {
        return;
      }
      values := Generated(draws);
    }

    /** `[...array]`: a fresh working array holding the bars. */
    method WorkingCopy() returns (a: array<int>)
      ensures fresh(a) && a[..] == values
    {
      a := new int[|values|](p requires 0 <= p < |values| reads this => values[p]);
      assert a[..] == values;
    }

    /** bubbleSort: the bars become the bubble-sorted bars, and the events are those of that run. */
    method BubbleSortAction() returns (steps: Trace)
      modifies this
      ensures Run(values, steps) == BubbleRun(old(values))
      ensures Sorted(values) && multiset(values) == multiset(old(values))
      ensures Replay(old(values), steps) == values
      ensures !isSorting
    {
      isSorting := true;
      var a := WorkingCopy();
      steps := BubbleSort(a);
      values := a[..];
      isSorting := false;
      BubbleSortedCorrect(old(values));
      BubbleReplay(old(values));
    }

    /** selectionSort: the bars become the selection-sorted bars, and the events are those of that run. */
    method SelectionSortAction() returns (steps: Trace)
      modifies this
      ensures Run(values, steps) == SelectionRun(old(values))
      ensures Sorted(values) && multiset(values) == multiset(old(values))
      ensures Replay(old(values), steps) == values
      ensures !isSorting
    {
      isSorting := true;
      var a := WorkingCopy();
      steps := SelectionSort(a);
      values := a[..];
      isSorting := false;
      SelectionSortedCorrect(old(values));
      SelectionReplay(old(values));
    }

    /** mergeSort: the bars become the merge-sorted bars, and the events are those of that run. */
    method MergeSortAction() returns (steps: Trace)
      modifies this
      ensures Run(values, steps) == MergeSortRun(old(values))
      ensures Sorted(values) && multiset(values) == multiset(old(values))
      ensures Replay(old(values), steps) == values
      ensures !isSorting
    {
      isSorting := true;
      var a := WorkingCopy();
      steps := MergeSort(a);
      values := a[..];
      isSorting := false;
      MergeSortCorrect(old(values));
    }
  }
}
