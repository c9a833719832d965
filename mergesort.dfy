/**
 * mergeSortRecursive(arr, start, end): nothing to do for a range of at most one
 * position; otherwise sort [start, mid] and [mid + 1, end], mid being
 * floor((start + end) / 2), and merge them. The visualizer calls it on the whole
 * working copy, with end = length - 1.
 *
 * The recursion is written once, over the merge step it calls (`SortWith`), and
 * its lemmas carry a property of one merge to the whole sort; `SortRun` is that
 * recursion over the merge of this model.
 */
module MergeSorting {
  import opened Steps
  import opened Ordering
  import opened Merging

  /** The recursion of mergeSortRecursive over a merge step `merge(arr, start, mid, end)`. */
  function SortWith(merge: (seq<int>, int, int, int) -> Run, s: seq<int>, start: int, end: int): Run
    decreases end - start
  {
    if start >= end then Run(s, Empty)
    else
      var mid := (start + end) / 2;
      var a := SortWith(merge, s, start, mid);
      var b := SortWith(merge, a.arr, mid + 1, end);
      var m := merge(b.arr, start, mid, end);
      Run(m.arr, Append(Append(a.steps, b.steps), m.steps))
  }

  /** merge(arr, start, mid, end) on any arguments: the model's merge where it applies, nothing elsewhere. */
  function MergeStep(s: seq<int>, start: int, mid: int, end: int): Run
  {
    if 0 <= start <= mid + 1 <= end + 1 <= |s| then MergeRun(s, start, mid, end) else Run(s, Empty)
  }

  /** mergeSortRecursive(arr, start, end) on values: the array it leaves and its events. */
  function SortRun(s: seq<int>, start: int, end: int): (r: Run)
    ensures |r.arr| == |s|
  {
    MergeStepLength();
    SortWithLength(MergeStep, s, start, end);
    SortWith(MergeStep, s, start, end)
  }

  /** The whole merge sort: mergeSortRecursive(arr, 0, arr.length - 1). */
  function MergeSortRun(s: seq<int>): Run
  {
    SortRun(s, 0, |s| - 1)
  }

  // ---------------------------------------------------------------------------
  // From one merge to the whole recursion

  lemma {:induction false} SortWithLength(merge: (seq<int>, int, int, int) -> Run, s: seq<int>, start: int, end: int)
    requires forall x, lo, mid, hi :: |merge(x, lo, mid, hi).arr| == |x|
    ensures |SortWith(merge, s, start, end).arr| == |s|
    decreases end - start
  {
    if start < end {
      var mid := (start + end) / 2;
      SortWithLength(merge, s, start, mid);
      SortWithLength(merge, SortWith(merge, s, start, mid).arr, mid + 1, end);
    }
  }

  lemma {:induction false} SortWithFrame(merge: (seq<int>, int, int, int) -> Run, s: seq<int>, start: int, end: int)
    requires forall x, lo, mid, hi :: |merge(x, lo, mid, hi).arr| == |x|
    requires forall x, lo, mid, hi, p :: 0 <= p < |x| && (p < lo || hi < p) ==> merge(x, lo, mid, hi).arr[p] == x[p]
    ensures |SortWith(merge, s, start, end).arr| == |s|
    ensures forall p :: 0 <= p < |s| && (p < start || end < p || end <= start) ==> SortWith(merge, s, start, end).arr[p] == s[p]
    decreases end - start
  {
    if start < end {
      var mid := (start + end) / 2;
      var a := SortWith(merge, s, start, mid);
      SortWithFrame(merge, s, start, mid);
      SortWithFrame(merge, a.arr, mid + 1, end);
    }
  }

  lemma {:induction false} SortWithPermutes(merge: (seq<int>, int, int, int) -> Run, s: seq<int>, start: int, end: int)
    requires forall x, lo, mid, hi :: multiset(merge(x, lo, mid, hi).arr) == multiset(x)
    ensures multiset(SortWith(merge, s, start, end).arr) == multiset(s)
    decreases end - start
  {
    if start < end {
      var mid := (start + end) / 2;
      SortWithPermutes(merge, s, start, mid);
      SortWithPermutes(merge, SortWith(merge, s, start, mid).arr, mid + 1, end);
    }
  }

  lemma {:induction false} SortWithReplay(merge: (seq<int>, int, int, int) -> Run, s: seq<int>, start: int, end: int)
    requires forall x, lo, mid, hi :: Replay(x, merge(x, lo, mid, hi).steps) == merge(x, lo, mid, hi).arr
    ensures Replay(s, SortWith(merge, s, start, end).steps) == SortWith(merge, s, start, end).arr
    decreases end - start
  {
    if start < end {
      var mid := (start + end) / 2;
      var a := SortWith(merge, s, start, mid);
      var b := SortWith(merge, a.arr, mid + 1, end);
      SortWithReplay(merge, s, start, mid);
      SortWithReplay(merge, a.arr, mid + 1, end);
      ReplayAppend(s, a.steps, b.steps);
      ReplayAppend(s, Append(a.steps, b.steps), merge(b.arr, start, mid, end).steps);
    }
  }

  // ---------------------------------------------------------------------------
  // The merge step has what the recursion needs

  lemma MergeStepLength()
    ensures forall x, lo, mid, hi :: |MergeStep(x, lo, mid, hi).arr| == |x|
  {
  }

  lemma MergeStepFrame()
    ensures forall x, lo, mid, hi, p :: 0 <= p < |x| && (p < lo || hi < p) ==> MergeStep(x, lo, mid, hi).arr[p] == x[p]
  {
    forall x, lo, mid, hi | 0 <= lo <= mid + 1 <= hi + 1 <= |x| {
      MergeFrame(x, lo, mid, hi);
    }
  }

  // ---------------------------------------------------------------------------
  // mergeSortRecursive

  /** mergeSortRecursive leaves every position outside [start, end] as it was; with start >= end, all of them. */
  lemma SortFrame(s: seq<int>, start: int, end: int)
    ensures forall p :: 0 <= p < |s| && (p < start || end < p || end <= start) ==> SortRun(s, start, end).arr[p] == s[p]
  {
    MergeStepLength();
    MergeStepFrame();
    SortWithLength(MergeStep, s, start, end);
    SortWithFrame(MergeStep, s, start, end);
  }

  /** mergeSortRecursive only rearranges values: the array keeps its multiset of values. */
  lemma SortPermutes(s: seq<int>, start: int, end: int)
    ensures multiset(SortRun(s, start, end).arr) == multiset(s)
  {
    forall x, lo, mid, hi ensures multiset(MergeStep(x, lo, mid, hi).arr) == multiset(x) {
      if 0 <= lo <= mid + 1 <= hi + 1 <= |x| {
        MergePermutes(x, lo, mid, hi);
      }
    }
    SortWithPermutes(MergeStep, s, start, end);
  }

  /** mergeSortRecursive leaves [start, end] holding the values it held. */
  lemma SortPermutesRange(s: seq<int>, start: int, end: int)
    requires 0 <= start <= end + 1 <= |s|
    ensures multiset(SortRun(s, start, end).arr[start..end + 1]) == multiset(s[start..end + 1])
  {
    var o := SortRun(s, start, end).arr;
    SortFrame(s, start, end);
    SortPermutes(s, start, end);
    assert o[..start] == s[..start];
    assert o[end + 1..] == s[end + 1..];
    SpliceKeeps(o, s, start, end + 1);
  }

  /** One level of the recursion, spelled out. */
  lemma SortWithNext(merge: (seq<int>, int, int, int) -> Run, s: seq<int>, start: int, end: int, mid: int)
    requires start < end && mid == (start + end) / 2
    ensures SortWith(merge, s, start, end) ==
      var a := SortWith(merge, s, start, mid);
      var b := SortWith(merge, a.arr, mid + 1, end);
      var m := merge(b.arr, start, mid, end);
      Run(m.arr, Append(Append(a.steps, b.steps), m.steps))
  {
  }

  /** One level of mergeSortRecursive(arr, start, end), spelled out. */
  lemma SortRunNext(s: seq<int>, start: int, end: int, mid: int)
    requires start < end && mid == (start + end) / 2
    ensures SortRun(s, start, end) ==
      var a := SortRun(s, start, mid);
      var b := SortRun(a.arr, mid + 1, end);
      var m := MergeStep(b.arr, start, mid, end);
      Run(m.arr, Append(Append(a.steps, b.steps), m.steps))
  {
    SortWithNext(MergeStep, s, start, end, mid);
  }

  /** The left half sorted, then the right half sorted without touching the left: their merge is sorted. */
  lemma MergeLevel(a: seq<int>, b: seq<int>, start: int, mid: int, end: int)
    requires 0 <= start <= mid < end < |a| && |b| == |a|
    requires Sorted(a[start..mid + 1]) && Sorted(b[mid + 1..end + 1])
    requires forall p :: 0 <= p < |a| && p < mid + 1 ==> b[p] == a[p]
    ensures Sorted(MergeStep(b, start, mid, end).arr[start..end + 1])
  {
    assert b[start..mid + 1] == a[start..mid + 1];
    MergeSorts(b, start, mid, end);
  }

  /** mergeSortRecursive on a range of at most one position does nothing. */
  lemma SortRunBase(s: seq<int>, start: int, end: int)
    requires start >= end
    ensures SortRun(s, start, end) == Run(s, Empty)
  {
  }

  /** mergeSortRecursive leaves [start, end] sorted. */
  lemma {:induction false} SortSorts(s: seq<int>, start: int, end: int)
    requires 0 <= start <= end + 1 <= |s|
    ensures Sorted(SortRun(s, start, end).arr[start..end + 1])
    decreases end - start, 1
  {
    if start < end {
      var mid := (start + end) / 2;
      SortSorts(s, start, mid);
      SortRightSorts(SortRun(s, start, mid).arr, start, mid, end);
      SortRunNext(s, start, end, mid);
    }
  }

  /** With [start, mid] sorted, sorting [mid + 1, end] and merging leaves [start, end] sorted. */
  lemma {:induction false} SortRightSorts(a: seq<int>, start: int, mid: int, end: int)
    requires 0 <= start <= mid < end < |a|
    requires Sorted(a[start..mid + 1])
    ensures Sorted(MergeStep(SortRun(a, mid + 1, end).arr, start, mid, end).arr[start..end + 1])
    decreases end - start, 0
  {
    SortSorts(a, mid + 1, end);
    SortFrame(a, mid + 1, end);
    MergeLevel(a, SortRun(a, mid + 1, end).arr, start, mid, end);
  }

  /** mergeSortRecursive(arr, start, end) writes only positions of [start, end], whatever its arguments. */
  lemma {:induction false} SortWritesWithin(s: seq<int>, start: int, end: int)
    ensures forall p :: p in Written(SortRun(s, start, end).steps) ==> start <= p <= end
    decreases end - start
  {
    if start >= end {
      SortRunBase(s, start, end);
    } else {
      var mid := (start + end) / 2;
      var a := SortRun(s, start, mid);
      var b := SortRun(a.arr, mid + 1, end);
      var m := MergeStep(b.arr, start, mid, end);
      SortWritesWithin(s, start, mid);
      SortWritesWithin(a.arr, mid + 1, end);
      SortRunNext(s, start, end, mid);
      WrittenAppend(Append(a.steps, b.steps), m.steps);
      WrittenAppend(a.steps, b.steps);
      assert Written(SortRun(s, start, end).steps) == Written(a.steps) + Written(b.steps) + Written(m.steps);
      if 0 <= start <= mid + 1 <= end + 1 <= |b.arr| {
        MergeWrites(b.arr, start, mid, end);
        RangeBounds(start, end + 1);
      }
      assert forall p :: p in Written(m.steps) ==> start <= p <= end;
    }
  }

  /**
   * The order of mergeSortRecursive(arr, start, end)'s writes on a range of two
   * or more positions: all those of the call on [start, mid], which stay inside
   * [start, mid], then all those of the call on [mid + 1, end], which stay
   * inside [mid + 1, end], then the merge's, which write start, ..., end in turn.
   */
  lemma SortWrites(s: seq<int>, start: int, end: int, mid: int)
    requires 0 <= start < end < |s| && mid == (start + end) / 2
    ensures var a := SortRun(s, start, mid);
      var b := SortRun(a.arr, mid + 1, end);
      && Written(SortRun(s, start, end).steps) == Written(a.steps) + Written(b.steps) + Range(start, end + 1)
      && (forall p :: p in Written(a.steps) ==> start <= p <= mid)
      && (forall p :: p in Written(b.steps) ==> mid + 1 <= p <= end)
  {
    var a := SortRun(s, start, mid);
    var b := SortRun(a.arr, mid + 1, end);
    var m := MergeStep(b.arr, start, mid, end);
    SortRunNext(s, start, end, mid);
    assert SortRun(s, start, end).steps == Append(Append(a.steps, b.steps), m.steps);
    WrittenAppend(Append(a.steps, b.steps), m.steps);
    WrittenAppend(a.steps, b.steps);
    MergeWrites(b.arr, start, mid, end);
    assert Written(m.steps) == Range(start, end + 1);
    SortWritesWithin(s, start, mid);
    SortWritesWithin(a.arr, mid + 1, end);
  }

  /** Replayed from the array mergeSortRecursive starts with, its events show the array it leaves. */
  lemma SortReplay(s: seq<int>, start: int, end: int)
    ensures Replay(s, SortRun(s, start, end).steps) == SortRun(s, start, end).arr
  {
    forall x, lo, mid, hi ensures Replay(x, MergeStep(x, lo, mid, hi).steps) == MergeStep(x, lo, mid, hi).arr {
      if 0 <= lo <= mid + 1 <= hi + 1 <= |x| {
        MergeReplay(x, lo, mid, hi);
      }
    }
    SortWithReplay(MergeStep, s, start, end);
  }

  /** Merge sort leaves the array sorted, holding the values it started with, and its events replay to it. */
  lemma MergeSortCorrect(s: seq<int>)
    ensures Sorted(MergeSortRun(s).arr)
    ensures multiset(MergeSortRun(s).arr) == multiset(s)
    ensures Replay(s, MergeSortRun(s).steps) == MergeSortRun(s).arr
  {
    SortSorts(s, 0, |s| - 1);
    SortFrame(s, 0, |s| - 1);
    assert MergeSortRun(s).arr[0..|s|] == MergeSortRun(s).arr;
    SortPermutes(s, 0, |s| - 1);
    SortReplay(s, 0, |s| - 1);
  }

  // ---------------------------------------------------------------------------
  // The in-place sort

  /** mergeSortRecursive(arr, start, end) on the working array. */
  method MergeSortRecursive(a: array<int>, start: int, end: int) returns (steps: Trace)
    requires start < end ==> 0 <= start && end < a.Length
    modifies a
    ensures Run(a[..], steps) == SortRun(old(a[..]), start, end)
    decreases end - start, 1
  {
    if start >= end {
      SortRunBase(a[..], start, end);
      steps := Empty;
      return;
    }
    ghost var s := a[..];
    var mid := (start + end) / 2;
    var left := MergeSortRecursive(a, start, mid);
    steps := SortRightAndMerge(a, start, mid, end, left);
    SortRunNext(s, start, end, mid);
  }

  /** The rest of one call of mergeSortRecursive, once the left half is sorted: sort the right half, then merge. */
  method SortRightAndMerge(a: array<int>, start: int, mid: int, end: int, left: Trace) returns (steps: Trace)
    requires 0 <= start <= mid < end < a.Length
    modifies a
    ensures Run(a[..], steps) ==
      var y := SortRun(old(a[..]), mid + 1, end);
      var z := MergeStep(y.arr, start, mid, end);
      Run(z.arr, Append(Append(left, y.steps), z.steps))
    decreases end - start, 0
  {
    var right := MergeSortRecursive(a, mid + 1, end);
    var merged := Merge(a, start, mid, end);
    steps := Append(Append(left, right), merged);
  }

  /** The merge sort of the working array: mergeSortRecursive(arr, 0, arr.length - 1). */
  method MergeSort(a: array<int>) returns (steps: Trace)
    modifies a
    ensures Run(a[..], steps) == MergeSortRun(old(a[..]))
  {
    steps := MergeSortRecursive(a, 0, a.Length - 1);
  }
}
