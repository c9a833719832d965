/**
 * Selection sort as the visualizer runs it: for each position i, scan the rest
 * of the array for the first smallest value (a strict `<` keeps the earliest of
 * equal values), comparing the current candidate with every later position,
 * then swap it into position i unless it is already there.
 *
 * As for bubble sort, the functions are the reference run on values, the
 * methods are the in-place loops tied to them, and the lemmas prove what a run
 * promises.
 */
module Selection {
  import opened Steps
  import opened Ordering
  import opened Iteration

  // ---------------------------------------------------------------------------
  // The reference run

  /** The candidate after the inner loop has visited the positions i + 1, ..., j - 1. */
  function ScanIndex(s: seq<int>, i: int, j: int): (m: int)
    requires 0 <= i < j <= |s|
    ensures i <= m < j
    decreases j
  {
    if j == i + 1 then i
    else
      var m := ScanIndex(s, i, j - 1);
      if s[j - 1] < s[m] then j - 1 else m
  }

  /** The comparisons those visits emit: each compares the candidate of the moment with j. */
  function ScanTrace(s: seq<int>, i: int, j: int): Trace
    requires 0 <= i < j <= |s|
    decreases j
  {
    if j == i + 1 then Empty
    else Then(ScanTrace(s, i, j - 1), Compare(ScanIndex(s, i, j - 1), j - 1))
  }

  /**
   * Iteration i of the outer loop: the scan, then the swap of i with the
   * smallest, if they differ. The loop only runs it for 0 <= i < n; anywhere
   * else it does nothing.
   */
  function Row(s: seq<int>, i: int): (r: Run)
    ensures |r.arr| == |s|
  {
    if 0 <= i < |s| then
      var m := ScanIndex(s, i, |s|);
      if m != i then Run(Exchanged(s, i, m), Then(ScanTrace(s, i, |s|), Swap(i, m)))
      else Run(s, ScanTrace(s, i, |s|))
    else Run(s, Empty)
  }

  /** A complete run: the outer loop visits every position, the last one with an empty scan. */
  function SelectionRun(s: seq<int>): Run
  {
    Iterate(Row, s, |s|)
  }

  // ---------------------------------------------------------------------------
  // The scan finds the first smallest value

  /**
   * The candidate is a smallest value among the positions i, ..., j - 1, and
   * every position before it holds something strictly greater.
   */
  lemma {:induction false} ScanFindsFirstMin(s: seq<int>, i: int, j: int)
    requires 0 <= i < j <= |s|
    ensures forall p :: i <= p < j ==> s[ScanIndex(s, i, j)] <= s[p]
    ensures forall p :: i <= p < ScanIndex(s, i, j) ==> s[ScanIndex(s, i, j)] < s[p]
    decreases j
  {
    if j > i + 1 {
      ScanFindsFirstMin(s, i, j - 1);
    }
  }

  // ---------------------------------------------------------------------------
  // The comparison schedule, which depends on the length only

  /** The probed positions of the first i iterations over an array of length n. */
  function Probing(n: int, i: int): seq<int>
    decreases i
  {
    if i <= 0 then [] else Probing(n, i - 1) + Range(i, n)
  }

  /** The second position of every comparison of a complete run, in order. */
  function SelectionSchedule(n: nat): seq<int>
  {
    Probing(n, n)
  }

  lemma {:induction false} ScanProbes(s: seq<int>, i: int, j: int)
    requires 0 <= i < j <= |s|
    ensures Probes(ScanTrace(s, i, j)) == Range(i + 1, j)
    ensures Compares(ScanTrace(s, i, j)) == ScanTrace(s, i, j)
    decreases j
  {
    if j > i + 1 {
      ScanProbes(s, i, j - 1);
      RangeExtend(i + 1, j - 1);
    }
  }

  /** Every comparison of the scan compares an earlier candidate with a later position. */
  lemma {:induction false} ScanShape(s: seq<int>, i: int, j: int)
    requires 0 <= i < j <= |s|
    ensures forall e :: e in Events(ScanTrace(s, i, j)) ==> e.Compare? && i <= e.i < e.j < j
    decreases j
  {
    if j > i + 1 {
      ScanShape(s, i, j - 1);
    }
  }

  lemma RowProbes(s: seq<int>, i: int)
    requires 0 <= i < |s|
    ensures Probes(Row(s, i).steps) == Range(i + 1, |s|)
  {
    ScanProbes(s, i, |s|);
  }

  /** A loop whose iteration k probes k + 1, ..., n - 1 probes Probing(n, i) in its first i iterations. */
  lemma {:induction false} IterateProbing(body: (seq<int>, int) -> Run, s: seq<int>, i: int)
    requires forall x, k :: |body(x, k).arr| == |x|
    requires forall x, k :: 0 <= k < i && |x| == |s| ==> Probes(body(x, k).steps) == Range(k + 1, |s|)
    ensures Probes(Iterate(body, s, i).steps) == Probing(|s|, i)
    decreases i
  {
    if i > 0 {
      var p := Iterate(body, s, i - 1);
      IterateProbing(body, s, i - 1);
      IterateLength(body, s, i - 1);
      ProbesAppend(p.steps, body(p.arr, i - 1).steps);
    }
  }

  /**
   * The comparisons of a run probe, for i = 0, 1, ..., n - 1 in turn, the
   * positions i + 1, ..., n - 1, whatever the values are.
   */
  lemma SelectionProbes(s: seq<int>)
    ensures Probes(SelectionRun(s).steps) == SelectionSchedule(|s|)
  {
    forall x, k | 0 <= k < |s| && |x| == |s|
      ensures Probes(Row(x, k).steps) == Range(k + 1, |s|)
    {
      RowProbes(x, k);
    }
    IterateProbing(Row, s, |s|);
  }

  lemma {:induction false} ProbingSize(n: int, i: int)
    requires 0 <= i <= n
    ensures 2 * |Probing(n, i)| == i * (2 * n - i - 1)
    decreases i
  {
    if i > 0 {
      ProbingSize(n, i - 1);
      ProbingStep(n, i);
    }
  }

  /** The arithmetic of one more row: (i - 1)(2n - i) + 2(n - i) = i(2n - i - 1). */
  lemma ProbingStep(n: int, i: int)
    ensures (i - 1) * (2 * n - (i - 1) - 1) + 2 * (n - i) == i * (2 * n - i - 1)
  {
    var w := 2 * n - i;
    assert (i - 1) * w == i * w - w;
    assert i * (w - 1) == i * w - i;
  }

  /** A run always makes exactly n(n - 1)/2 comparisons. */
  lemma SelectionScheduleSize(n: nat)
    ensures |SelectionSchedule(n)| == n * (n - 1) / 2
  {
    ProbingSize(n, n);
    assert 2 * |SelectionSchedule(n)| == n * (n - 1);
  }

  // ---------------------------------------------------------------------------
  // The swap animations replay to the array

  lemma RowReplay(s: seq<int>, i: int)
    ensures Replay(s, Row(s, i).steps) == Row(s, i).arr
    ensures Writes(Row(s, i).steps) == Empty
  {
    if 0 <= i < |s| {
      ScanReplay(s, i, |s|);
    }
  }

  lemma {:induction false} ScanReplay(s: seq<int>, i: int, j: int)
    requires 0 <= i < j <= |s|
    ensures Replay(s, ScanTrace(s, i, j)) == s
    ensures Writes(ScanTrace(s, i, j)) == Empty
    decreases j
  {
    if j > i + 1 {
      ScanReplay(s, i, j - 1);
    }
  }

  /**
   * Replaying the swap animations of a run on the input gives the array the
   * run leaves, and so that array rearranges the input's values.
   */
  lemma SelectionReplay(s: seq<int>)
    ensures Replay(s, SelectionRun(s).steps) == SelectionRun(s).arr
    ensures multiset(SelectionRun(s).arr) == multiset(s)
  {
    forall x, k
      ensures Replay(x, Row(x, k).steps) == Row(x, k).arr && Writes(Row(x, k).steps) == Empty
    {
      RowReplay(x, k);
    }
    IterateReplay(Row, s, |s|);
    ReplayPermutes(s, SelectionRun(s).steps);
  }

  // ---------------------------------------------------------------------------
  // What the rows do to the values

  /** The first i positions are final: each is at most everything to its right. */
  ghost predicate Placed(s: seq<int>, i: int)
  {
    forall p, q :: 0 <= p < q < |s| && p < i ==> s[p] <= s[q]
  }

  /** Iteration i puts the smallest remaining value at position i. */
  lemma RowPlaces(s: seq<int>, i: int)
    requires 0 <= i < |s| && Placed(s, i)
    ensures Placed(Row(s, i).arr, i + 1)
  {
    var m := ScanIndex(s, i, |s|);
    var t := Row(s, i).arr;
    ScanFindsFirstMin(s, i, |s|);
    assert forall q :: i <= q < |s| ==> t[i] <= t[q];
    forall p, q | 0 <= p < q < |t| && p < i + 1
      ensures t[p] <= t[q]
    {
      if p < i {
        assert t[p] == s[p];
        if q == i || q == m {
          assert s[p] <= s[i] && s[p] <= s[m];
        }
      }
    }
  }

  /** A complete run sorts, and keeps exactly the input's values. */
  lemma SelectionSortedCorrect(s: seq<int>)
    ensures Sorted(SelectionRun(s).arr)
    ensures multiset(SelectionRun(s).arr) == multiset(s)
  {
    var n := |s|;
    forall x, k | 0 <= k < n && |x| == n && Placed(x, k)
      ensures |Row(x, k).arr| == n && Placed(Row(x, k).arr, k + 1)
    {
      RowPlaces(x, k);
    }
    IterateKeeps(Row, (x, k) => |x| == n && Placed(x, k), s, n);
    SelectionReplay(s);
  }

  // ---------------------------------------------------------------------------
  // Swaps

  /** A row swaps at most once, only a later position into i, and never in the last position. */
  lemma RowSwaps(s: seq<int>, i: int)
    ensures Size(Swaps(Row(s, i).steps)) <= if i == |s| - 1 then 0 else 1
    ensures forall e :: e in Events(Swaps(Row(s, i).steps)) ==> 0 <= i < |s| && e == Swap(i, ScanIndex(s, i, |s|)) && i < e.j
  {
    if 0 <= i < |s| {
      ScanNoSwaps(s, i, |s|);
    }
  }

  lemma {:induction false} ScanNoSwaps(s: seq<int>, i: int, j: int)
    requires 0 <= i < j <= |s|
    ensures Swaps(ScanTrace(s, i, j)) == Empty
    decreases j
  {
    if j > i + 1 {
      ScanNoSwaps(s, i, j - 1);
    }
  }

  /** A run makes at most n - 1 swaps: the last position never needs one. */
  lemma SelectionSwapCount(s: seq<int>)
    requires |s| > 0
    ensures Size(Swaps(SelectionRun(s).steps)) <= |s| - 1
  {
    var n := |s|;
    forall x, k
      ensures Size(Swaps(Row(x, k).steps)) <= 1
    {
      RowSwaps(x, k);
    }
    IterateSwapBound(Row, s, n - 1);
    IterateLength(Row, s, n - 1);
    var p := Iterate(Row, s, n - 1);
    var q := Row(p.arr, n - 1);
    RowSwaps(p.arr, n - 1);
    SwapsAppend(p.steps, q.steps);
    SizeAppend(Swaps(p.steps), Swaps(q.steps));
  }

  /** On a sorted array every scan keeps its first candidate, so nothing moves. */
  lemma RowOnSorted(s: seq<int>, i: int)
    requires 0 <= i < |s| && Sorted(s)
    ensures Row(s, i).arr == s
    ensures Swaps(Row(s, i).steps) == Empty
  {
    ScanFindsFirstMin(s, i, |s|);
    ScanNoSwaps(s, i, |s|);
  }

  /**
   * An input that is already sorted, equal values included, is left unchanged
   * without a single swap: the strict comparison never replaces a candidate
   * by an equal value.
   */
  lemma SelectionOnSorted(s: seq<int>)
    requires Sorted(s)
    ensures SelectionRun(s).arr == s
    ensures Swaps(SelectionRun(s).steps) == Empty
  {
    forall k | 0 <= k < |s|
      ensures Row(s, k).arr == s && Swaps(Row(s, k).steps) == Empty
    {
      RowOnSorted(s, k);
    }
    IterateSteady(Row, s, |s|);
  }

  // ---------------------------------------------------------------------------
  // The in-place loops

  /** Iteration i of the outer loop: the scan for the smallest value, then the swap. */
  method SelectionRow(a: array<int>, i: int) returns (steps: Trace)
    requires 0 <= i < a.Length
    modifies a
    ensures Run(a[..], steps) == Row(old(a[..]), i)
  {
    ghost var t := a[..];
    var n := a.Length;
    steps := Empty;
    var minIndex := i;
    var j := i + 1;
    while j < n
      invariant i + 1 <= j <= n
      invariant a[..] == t
      invariant minIndex == ScanIndex(t, i, j) && steps == ScanTrace(t, i, j)
    {
      steps := Then(steps, Compare(minIndex, j));
      if a[j] < a[minIndex] {
        minIndex := j;
      }
      j := j + 1;
    }
    if minIndex != i {
      a[i], a[minIndex] := a[minIndex], a[i];
      steps := Then(steps, Swap(i, minIndex));
    }
  }

  /**
   * Sorts `a` in place exactly as the reference run does, emitting the same
   * events; SelectionSortedCorrect, SelectionProbes, SelectionReplay,
   * SelectionSwapCount and SelectionOnSorted say what that run guarantees.
   */
  method SelectionSort(a: array<int>) returns (steps: Trace)
    modifies a
    ensures Run(a[..], steps) == SelectionRun(old(a[..]))
  {
    ghost var s := a[..];
    var n := a.Length;
    steps := Empty;
    var i := 0;
    while i < n
      invariant 0 <= i <= n
      invariant Run(a[..], steps) == Iterate(Row, s, i)
    {
      var rowSteps := SelectionRow(a, i);
      steps := Append(steps, rowSteps);
      i := i + 1;
    }
  }
}
