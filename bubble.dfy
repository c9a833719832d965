/**
 * Bubble sort as the visualizer runs it: full passes over adjacent pairs,
 * a swap whenever the left element of a pair is greater, and no early exit.
 *
 * The functions below are the reference run on values (the array after each
 * step, and the events each step emits); BubbleSort is the in-place loop, tied
 * to them, and the lemmas prove what a run promises.
 */
module Bubble {
  import opened Steps
  import opened Ordering
  import opened Iteration

  // ---------------------------------------------------------------------------
  // The reference run

  /**
   * One inner-loop step at j: compare the pair (j, j + 1), and swap it when it
   * is out of order. The loop only makes it for 0 <= j < n - 1; anywhere else
   * it does nothing.
   */
  function Visit(s: seq<int>, j: int): (r: Run)
    ensures |r.arr| == |s|
  {
    if 0 <= j && j + 1 < |s| then
      if s[j] > s[j + 1] then Run(Exchanged(s, j, j + 1), Then(Then(Empty, Compare(j, j + 1)), Swap(j, j + 1)))
      else Run(s, Then(Empty, Compare(j, j + 1)))
    else Run(s, Empty)
  }

  /** The first j steps of a pass, those at 0, ..., j - 1. */
  function Visits(s: seq<int>, j: int): (r: Run)
    ensures |r.arr| == |s|
  {
    IterateLength(Visit, s, j);
    Iterate(Visit, s, j)
  }

  /** Pass k of the outer loop: the steps at j = 0, ..., n - k - 2. */
  function Pass(s: seq<int>, k: int): (r: Run)
    ensures |r.arr| == |s|
  {
    Visits(s, |s| - k - 1)
  }

  /** The outer loop runs while i < n - 1: n - 1 passes, none for an empty array. */
  function PassCount(n: nat): nat
  {
    if n == 0 then 0 else n - 1
  }

  /** A complete run: the array it leaves and the events it emits. */
  function BubbleRun(s: seq<int>): Run
  {
    Iterate(Pass, s, PassCount(|s|))
  }

  // ---------------------------------------------------------------------------
  // The comparison schedule, which depends on the length only

  /** The comparisons of one pass that visits the pairs (0, 1), ..., (m - 1, m). */
  function PassPairs(m: int): Trace
    decreases m
  {
    if m <= 0 then Empty else Then(PassPairs(m - 1), Compare(m - 1, m))
  }

  /** The comparisons of the first i passes over an array of length n. */
  function Passes(n: int, i: int): Trace
    decreases i
  {
    if i <= 0 then Empty else Append(Passes(n, i - 1), PassPairs(n - i))
  }

  /** Every comparison a complete run makes on an array of length n. */
  function BubbleSchedule(n: nat): Trace
  {
    Passes(n, PassCount(n))
  }

  lemma {:induction false} PassPairsSize(m: int)
    ensures Size(PassPairs(m)) == if m <= 0 then 0 else m
    decreases m
  {
    if m > 0 {
      PassPairsSize(m - 1);
    }
  }

  lemma {:induction false} PassesSize(n: int, i: int)
    requires 0 <= i <= n
    ensures 2 * Size(Passes(n, i)) == i * (2 * n - i - 1)
    decreases i
  {
    if i > 0 {
      PassesSize(n, i - 1);
      PassPairsSize(n - i);
      SizeAppend(Passes(n, i - 1), PassPairs(n - i));
      PassesStep(n, i);
    }
  }

  /** The arithmetic of one more pass: (i - 1)(2n - i) + 2(n - i) = i(2n - i - 1). */
  lemma PassesStep(n: int, i: int)
    ensures (i - 1) * (2 * n - (i - 1) - 1) + 2 * (n - i) == i * (2 * n - i - 1)
  {
    var w := 2 * n - i;
    assert (i - 1) * w == i * w - w;
    assert i * (w - 1) == i * w - i;
  }

  /** With no early exit, a run always makes exactly n(n - 1)/2 comparisons. */
  lemma BubbleScheduleSize(n: nat)
    ensures Size(BubbleSchedule(n)) == n * (n - 1) / 2
  {
    PassesSize(n, PassCount(n));
    var c := Size(BubbleSchedule(n));
    if n > 0 {
      assert 2 * c == (n - 1) * (2 * n - (n - 1) - 1);
      assert (n - 1) * (2 * n - (n - 1) - 1) == n * (n - 1);
    }
    assert 2 * c == n * (n - 1);
  }

  lemma {:induction false} PassPairsShape(m: int)
    ensures forall e :: e in Events(PassPairs(m)) ==> e.Compare? && 0 <= e.i && e.j == e.i + 1 <= m
    decreases m
  {
    if m > 0 {
      PassPairsShape(m - 1);
    }
  }

  lemma {:induction false} PassesShape(n: int, i: int)
    requires i <= n
    ensures forall e :: e in Events(Passes(n, i)) ==> e.Compare? && 0 <= e.i && e.j == e.i + 1 < n
    decreases i
  {
    if i > 0 {
      PassesShape(n, i - 1);
      PassPairsShape(n - i);
      EventsAppend(Passes(n, i - 1), PassPairs(n - i));
    }
  }

  /** Every comparison of a run is of an adjacent pair (j, j + 1) inside the array. */
  lemma BubbleScheduleShape(n: nat)
    ensures forall e :: e in Events(BubbleSchedule(n)) ==> e.Compare? && 0 <= e.i && e.j == e.i + 1 < n
  {
    PassesShape(n, PassCount(n));
  }

  /** A loop whose step j compares the pair (j, j + 1) compares PassPairs(m) in m steps. */
  lemma {:induction false} IteratePairs(body: (seq<int>, int) -> Run, s: seq<int>, m: int)
    requires forall x, k :: |body(x, k).arr| == |x|
    requires forall x, k :: 0 <= k < m && |x| == |s| ==> Compares(body(x, k).steps) == Then(Empty, Compare(k, k + 1))
    ensures Compares(Iterate(body, s, m).steps) == PassPairs(m)
    decreases m
  {
    if m > 0 {
      var p := Iterate(body, s, m - 1);
      IteratePairs(body, s, m - 1);
      IterateLength(body, s, m - 1);
      ComparesAppend(p.steps, body(p.arr, m - 1).steps);
    }
  }

  /** A loop whose iteration k compares PassPairs(n - k - 1) compares Passes(n, i) in i iterations. */
  lemma {:induction false} IteratePasses(body: (seq<int>, int) -> Run, s: seq<int>, i: int)
    requires forall x, k :: |body(x, k).arr| == |x|
    requires forall x, k :: 0 <= k < i && |x| == |s| ==> Compares(body(x, k).steps) == PassPairs(|s| - k - 1)
    ensures Compares(Iterate(body, s, i).steps) == Passes(|s|, i)
    decreases i
  {
    if i > 0 {
      var p := Iterate(body, s, i - 1);
      IteratePasses(body, s, i - 1);
      IterateLength(body, s, i - 1);
      ComparesAppend(p.steps, body(p.arr, i - 1).steps);
    }
  }

  /** Pass k compares the pairs (0, 1), ..., (n - k - 2, n - k - 1), whatever the values are. */
  lemma PassCompares(s: seq<int>, k: int)
    requires 0 <= k
    ensures Compares(Pass(s, k).steps) == PassPairs(|s| - k - 1)
  {
    forall x, j | 0 <= j < |s| - k - 1 && |x| == |s|
      ensures Compares(Visit(x, j).steps) == Then(Empty, Compare(j, j + 1))
    {
      VisitEvents(x, j, Empty);
    }
    IteratePairs(Visit, s, |s| - k - 1);
  }

  /**
   * The comparisons of a run are BubbleSchedule(n) whatever the values are:
   * an already sorted input still gets every pass.
   */
  lemma BubbleCompares(s: seq<int>)
    ensures Compares(BubbleRun(s).steps) == BubbleSchedule(|s|)
  {
    forall x, k | 0 <= k < PassCount(|s|) && |x| == |s|
      ensures Compares(Pass(x, k).steps) == PassPairs(|s| - k - 1)
    {
      PassCompares(x, k);
    }
    IteratePasses(Pass, s, PassCount(|s|));
  }

  // ---------------------------------------------------------------------------
  // The swap animations replay to the array

  /** What one step emits: its comparison, then its swap if it makes one, and no write. */
  lemma VisitEvents(s: seq<int>, j: int, t: Trace)
    requires 0 <= j && j + 1 < |s|
    ensures Append(t, Visit(s, j).steps) ==
      if s[j] > s[j + 1] then Then(Then(t, Compare(j, j + 1)), Swap(j, j + 1)) else Then(t, Compare(j, j + 1))
    ensures Compares(Visit(s, j).steps) == Then(Empty, Compare(j, j + 1))
    ensures Writes(Visit(s, j).steps) == Empty
    ensures Replay(s, Visit(s, j).steps) == Visit(s, j).arr
  {
    var once := Then(Empty, Compare(j, j + 1));
    assert Append(t, once) == Then(t, Compare(j, j + 1));
    assert Replay(s, once) == s;
    assert Compares(once) == once;
    assert Writes(once) == Empty;
    if s[j] > s[j + 1] {
      assert Replay(s, Then(once, Swap(j, j + 1))) == Exchanged(s, j, j + 1);
      assert Compares(Then(once, Swap(j, j + 1))) == once;
    }
  }

  /** The events of a pass replay to the array it leaves, and it writes nothing. */
  lemma PassReplay(s: seq<int>, k: int)
    ensures Replay(s, Pass(s, k).steps) == Pass(s, k).arr
    ensures Writes(Pass(s, k).steps) == Empty
  {
    forall x, j
      ensures Replay(x, Visit(x, j).steps) == Visit(x, j).arr && Writes(Visit(x, j).steps) == Empty
    {
      if 0 <= j && j + 1 < |x| {
        VisitEvents(x, j, Empty);
      }
    }
    IterateReplay(Visit, s, |s| - k - 1);
  }

  /**
   * Replaying the swap animations of a run on the input gives the array the
   * run leaves: each published snapshot differs from the previous one by the
   * swap it animates. A run writes nothing, so it only rearranges the values.
   */
  lemma BubbleReplay(s: seq<int>)
    ensures Replay(s, BubbleRun(s).steps) == BubbleRun(s).arr
    ensures multiset(BubbleRun(s).arr) == multiset(s)
  {
    forall x, k
      ensures Replay(x, Pass(x, k).steps) == Pass(x, k).arr && Writes(Pass(x, k).steps) == Empty
    {
      PassReplay(x, k);
    }
    IterateReplay(Pass, s, PassCount(|s|));
    ReplayPermutes(s, BubbleRun(s).steps);
  }

  // ---------------------------------------------------------------------------
  // What the passes do to the values

  /** Positions m and beyond hold their final values: each is at least everything to its left. */
  ghost predicate Settled(s: seq<int>, m: int)
  {
    forall p, q :: 0 <= p < q < |s| && m <= q ==> s[p] <= s[q]
  }

  /** The array after j steps is the one after j - 1 steps, with step j - 1 applied. */
  lemma VisitsNext(s: seq<int>, j: int)
    requires 0 < j
    ensures Visits(s, j).arr == Visit(Visits(s, j - 1).arr, j - 1).arr
  {
  }

  /** The first j steps leave the positions after j alone. */
  lemma {:induction false} VisitsFrame(s: seq<int>, j: int)
    requires 0 <= j < |s|
    ensures forall p :: j < p < |s| ==> Visits(s, j).arr[p] == s[p]
    decreases j
  {
    if j > 0 {
      VisitsFrame(s, j - 1);
      VisitsNext(s, j);
    }
  }

  /** After j steps the largest of the first j + 1 values sits at position j. */
  lemma {:induction false} VisitsCarryMax(s: seq<int>, j: int)
    requires 0 <= j < |s|
    ensures forall p :: 0 <= p <= j ==> Visits(s, j).arr[p] <= Visits(s, j).arr[j]
    decreases j
  {
    if j > 0 {
      VisitsCarryMax(s, j - 1);
      VisitsNext(s, j);
    }
  }

  /** A bound on the first m + 1 values survives the first j <= m steps. */
  lemma {:induction false} VisitsKeepBound(s: seq<int>, j: int, m: int, v: int)
    requires 0 <= j <= m < |s|
    requires forall p :: 0 <= p <= m ==> s[p] <= v
    ensures forall p :: 0 <= p <= m ==> Visits(s, j).arr[p] <= v
    decreases j
  {
    if j > 0 {
      VisitsKeepBound(s, j - 1, m, v);
      VisitsNext(s, j);
    }
  }

  /** A full pass of m steps settles position m. */
  lemma PassSettles(s: seq<int>, m: int)
    requires 0 <= m < |s|
    requires Settled(s, m + 1)
    ensures Settled(Visits(s, m).arr, m)
  {
    var t := Visits(s, m).arr;
    VisitsFrame(s, m);
    VisitsCarryMax(s, m);
    forall p, q | 0 <= p < q < |t| && m <= q
      ensures t[p] <= t[q]
    {
      if q > m {
        VisitsKeepBound(s, m, m, s[q]);
        if p > m {
          assert t[p] == s[p];
        }
      }
    }
  }

  /** The outer loop's invariant: after i passes, the last i positions are settled. */
  lemma PassesSettle(s: seq<int>, i: int)
    requires 0 <= i <= PassCount(|s|)
    ensures |Iterate(Pass, s, i).arr| == |s|
    ensures Settled(Iterate(Pass, s, i).arr, |s| - i)
  {
    var n := |s|;
    forall x, k | 0 <= k < i && |x| == n && Settled(x, n - k)
      ensures |Pass(x, k).arr| == n && Settled(Pass(x, k).arr, n - k - 1)
    {
      PassSettles(x, n - k - 1);
    }
    assert Settled(s, n);
    IterateKeeps(Pass, (x, k) => |x| == n && Settled(x, n - k), s, i);
  }

  /** A complete run sorts, and keeps exactly the input's values. */
  lemma BubbleSortedCorrect(s: seq<int>)
    ensures Sorted(BubbleRun(s).arr)
    ensures multiset(BubbleRun(s).arr) == multiset(s)
  {
    PassesSettle(s, PassCount(|s|));
    assert Settled(BubbleRun(s).arr, |s| - PassCount(|s|));
    BubbleReplay(s);
  }

  // ---------------------------------------------------------------------------
  // An input that is already sorted

  /** On a sorted array no pair is out of order, so a pass changes nothing. */
  lemma PassOnSorted(s: seq<int>, k: int)
    requires Sorted(s)
    ensures Pass(s, k).arr == s
    ensures Swaps(Pass(s, k).steps) == Empty
  {
    forall j | 0 <= j < |s| - k - 1
      ensures Visit(s, j).arr == s && Swaps(Visit(s, j).steps) == Empty
    {
      if j + 1 < |s| {
        VisitEvents(s, j, Empty);
      }
    }
    IterateSteady(Visit, s, |s| - k - 1);
  }

  /** An input that is already sorted is left unchanged, without a single swap. */
  lemma BubbleOnSorted(s: seq<int>)
    requires Sorted(s)
    ensures BubbleRun(s).arr == s
    ensures Swaps(BubbleRun(s).steps) == Empty
  {
    forall k | 0 <= k < PassCount(|s|)
      ensures Pass(s, k).arr == s && Swaps(Pass(s, k).steps) == Empty
    {
      PassOnSorted(s, k);
    }
    IterateSteady(Pass, s, PassCount(|s|));
  }

  // ---------------------------------------------------------------------------
  // The in-place loops

  /** One pass of the inner loop: the steps at j = 0, ..., m - 1. */
  method BubblePass(a: array<int>, m: int) returns (steps: Trace)
    requires 0 <= m < a.Length
    modifies a
    ensures Run(a[..], steps) == Visits(old(a[..]), m)
  {
    ghost var t := a[..];
    steps := Empty;
    var j := 0;
    while j < m
      invariant 0 <= j <= m
      invariant Run(a[..], steps) == Visits(t, j)
    {
      VisitEvents(a[..], j, steps);
      steps := Then(steps, Compare(j, j + 1));
      if a[j] > a[j + 1] {
        a[j], a[j + 1] := a[j + 1], a[j];
        steps := Then(steps, Swap(j, j + 1));
      }
      j := j + 1;
    }
  }

  /**
   * Sorts `a` in place exactly as the reference run does, emitting the same
   * events; BubbleSortedCorrect, BubbleCompares, BubbleReplay and BubbleOnSorted
   * say what that run guarantees.
   */
  method BubbleSort(a: array<int>) returns (steps: Trace)
    modifies a
    ensures Run(a[..], steps) == BubbleRun(old(a[..]))
  {
    ghost var s := a[..];
    var n := a.Length;
    steps := Empty;
    var i := 0;
    while i < n - 1
      invariant 0 <= i <= PassCount(n)
      invariant Run(a[..], steps) == Iterate(Pass, s, i)
    {
      ghost var before := a[..];
      var passSteps := BubblePass(a, n - i - 1);
      assert Run(a[..], passSteps) == Pass(before, i);
      IterateNext(Pass, s, i);
      steps := Append(steps, passSteps);
      i := i + 1;
    }
  }
}
