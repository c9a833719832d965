/**
 * Merge sort as the visualizer runs it: split the range [start, end] at
 * floor((start + end) / 2), sort the left half, then the right half, then merge
 * them back through a cursor k that runs from start to end.
 *
 * The merge copies the halves into `left` and `right` and writes one value per
 * position. While both halves have values left, each write is preceded by a
 * comparison event at (k, k) and takes from `left` on ties; once one half runs
 * out the rest of the other is copied without comparison events.
 *
 * The reference merge is described from its cursor (i, j), the number of
 * values already taken from each half, with what has been produced so far as
 * an accumulator: OutFrom(l, r, i, j, done) is `done` followed by the values
 * the merge still writes, PlanFrom the same with where each value comes from,
 * and LogFrom(l, r, i, j, k, acc) the log `acc` followed by the events the
 * merge still emits when its next write goes to position k.
 */
module Merging {
  import opened Steps
  import opened Ordering

  // ---------------------------------------------------------------------------
  // The reference merge of two halves l and r

  /** Where a merged value came from: position idx of the left or of the right half. */
  datatype Origin = Left(idx: nat) | Right(idx: nat)

  /** The next write takes from the left half: it has values left, and the right one is out or not smaller. */
  predicate TakesLeft(l: seq<int>, r: seq<int>, i: nat, j: nat)
  {
    i < |l| && (j >= |r| || l[i] <= r[j])
  }

  /** Both halves still have values: the write is preceded by a comparison. */
  predicate Contested(l: seq<int>, r: seq<int>, i: nat, j: nat)
  {
    i < |l| && j < |r|
  }

  /** `done` followed by the values the merge still writes from cursor (i, j), in order. */
  function OutFrom(l: seq<int>, r: seq<int>, i: nat, j: nat, done: seq<int>): (o: seq<int>)
    requires i <= |l| && j <= |r|
    ensures |o| == |done| + |l| - i + |r| - j
    decreases |l| - i + |r| - j
  {
    if TakesLeft(l, r, i, j) then OutFrom(l, r, i + 1, j, done + [l[i]])
    else if j < |r| then OutFrom(l, r, i, j + 1, done + [r[j]])
    else done
  }

  /** `done` followed by where each of those values comes from. */
  function PlanFrom(l: seq<int>, r: seq<int>, i: nat, j: nat, done: seq<Origin>): (p: seq<Origin>)
    requires i <= |l| && j <= |r|
    ensures |p| == |done| + |l| - i + |r| - j
    decreases |l| - i + |r| - j
  {
    if TakesLeft(l, r, i, j) then PlanFrom(l, r, i + 1, j, done + [Left(i)])
    else if j < |r| then PlanFrom(l, r, i, j + 1, done + [Right(j)])
    else done
  }

  /** The log `acc` followed by the events of one write of v at k: a comparison (k, k) first if both halves still have values. */
  function Emit(acc: Trace, contested: bool, k: int, v: int): Trace
  {
    if contested then Then(Then(acc, Compare(k, k)), Write(k, v)) else Then(acc, Write(k, v))
  }

  /** The log `acc` followed by the events the merge still emits from cursor (i, j), the next write going to k. */
  function LogFrom(l: seq<int>, r: seq<int>, i: nat, j: nat, k: int, acc: Trace): Trace
    requires i <= |l| && j <= |r|
    decreases |l| - i + |r| - j
  {
    if TakesLeft(l, r, i, j) then LogFrom(l, r, i + 1, j, k + 1, Emit(acc, Contested(l, r, i, j), k, l[i]))
    else if j < |r| then LogFrom(l, r, i, j + 1, k + 1, Emit(acc, Contested(l, r, i, j), k, r[j]))
    else acc
  }

  /** The merge of l and r. */
  function Merged(l: seq<int>, r: seq<int>): seq<int>
  {
    OutFrom(l, r, 0, 0, [])
  }

  /** The value an origin names. */
  function ValueOf(l: seq<int>, r: seq<int>, o: Origin): int
    requires o.Left? ==> o.idx < |l|
    requires o.Right? ==> o.idx < |r|
  {
    match o
    case Left(p) => l[p]
    case Right(p) => r[p]
  }

  /** `s` with the values o written at start, start + 1, ... */
  function Paste(s: seq<int>, start: int, o: seq<int>): (r: seq<int>)
    requires 0 <= start && start + |o| <= |s|
    ensures |r| == |s|
  {
    s[..start] + o + s[start + |o|..]
  }

  /** merge(arr, start, mid, end) on values: the array it leaves and its events. */
  function MergeRun(s: seq<int>, start: int, mid: int, end: int): (r: Run)
    requires 0 <= start <= mid + 1 <= end + 1 <= |s|
    ensures |r.arr| == |s|
  {
    var l := s[start..mid + 1];
    var r := s[mid + 1..end + 1];
    Run(Paste(s, start, Merged(l, r)), LogFrom(l, r, 0, 0, start, Empty))
  }

  // ---------------------------------------------------------------------------
  // One write more

  /** Pasting nothing leaves the sequence as it is. */
  lemma PasteNothing(s: seq<int>, start: int)
    requires 0 <= start <= |s|
    ensures Paste(s, start, []) == s
  {
    assert s[..start] + [] + s[start..] == s;
  }

  /** Writing one more value at the end of what was pasted. */
  lemma PasteExtend(s: seq<int>, start: int, o: seq<int>, v: int)
    requires 0 <= start && start + |o| < |s|
    ensures Paste(s, start, o + [v]) == Paste(s, start, o)[start + |o| := v]
  {
    var a := Paste(s, start, o + [v]);
    var b := Paste(s, start, o)[start + |o| := v];
    assert |a| == |b|;
    forall p | 0 <= p < |a|
      ensures a[p] == b[p]
    {
      if p < start {
      } else if p < start + |o| {
        assert a[p] == o[p - start];
      } else if p == start + |o| {
      } else {
        assert a[p] == s[p];
      }
    }
  }

  /** The position of [start, end] an origin names, for a merge at mid: `left[a]` is start + a, `right[b]` is mid + 1 + b. */
  function Source(start: int, mid: int, o: Origin): int
  {
    match o
    case Left(a) => start + a
    case Right(b) => mid + 1 + b
  }

  /** o names a position of l or of r. */
  predicate Names(l: seq<int>, r: seq<int>, o: Origin)
  {
    (o.Left? ==> o.idx < |l|) && (o.Right? ==> o.idx < |r|)
  }

  /** The origin of position q of [start, end], for a merge at mid: the inverse of Source. */
  function OriginOf(start: int, mid: int, q: int): (o: Origin)
    requires start <= q
    ensures Source(start, mid, o) == q
  {
    if q <= mid then Left(q - start) else Right(q - mid - 1)
  }

  /** The comparison events (k, k), (k + 1, k + 1), ... (k + c - 1, k + c - 1). */
  function Diagonal(k: int, c: nat): (d: seq<Step>)
    ensures |d| == c
  {
    seq(c, p => Compare(k + p, k + p))
  }

  // ---------------------------------------------------------------------------
  // One step of the reference merge

  lemma OutLeft(l: seq<int>, r: seq<int>, i: nat, j: nat, done: seq<int>)
    requires i <= |l| && j <= |r| && TakesLeft(l, r, i, j)
    ensures OutFrom(l, r, i, j, done) == OutFrom(l, r, i + 1, j, done + [l[i]])
  {
  }

  lemma OutRight(l: seq<int>, r: seq<int>, i: nat, j: nat, done: seq<int>)
    requires i <= |l| && j < |r| && !TakesLeft(l, r, i, j)
    ensures OutFrom(l, r, i, j, done) == OutFrom(l, r, i, j + 1, done + [r[j]])
  {
  }

  lemma OutEnd(l: seq<int>, r: seq<int>, i: nat, j: nat, done: seq<int>)
    requires i <= |l| && j == |r| && !TakesLeft(l, r, i, j)
    ensures OutFrom(l, r, i, j, done) == done && i == |l|
  {
  }

  lemma PlanLeft(l: seq<int>, r: seq<int>, i: nat, j: nat, from: seq<Origin>)
    requires i <= |l| && j <= |r| && TakesLeft(l, r, i, j)
    ensures PlanFrom(l, r, i, j, from) == PlanFrom(l, r, i + 1, j, from + [Left(i)])
  {
  }

  lemma PlanRight(l: seq<int>, r: seq<int>, i: nat, j: nat, from: seq<Origin>)
    requires i <= |l| && j < |r| && !TakesLeft(l, r, i, j)
    ensures PlanFrom(l, r, i, j, from) == PlanFrom(l, r, i, j + 1, from + [Right(j)])
  {
  }

  lemma PlanEnd(l: seq<int>, r: seq<int>, i: nat, j: nat, from: seq<Origin>)
    requires i <= |l| && j == |r| && !TakesLeft(l, r, i, j)
    ensures PlanFrom(l, r, i, j, from) == from && i == |l|
  {
  }

  lemma LogLeft(l: seq<int>, r: seq<int>, i: nat, j: nat, k: int, acc: Trace)
    requires i <= |l| && j <= |r| && TakesLeft(l, r, i, j)
    ensures LogFrom(l, r, i, j, k, acc) == LogFrom(l, r, i + 1, j, k + 1, Emit(acc, Contested(l, r, i, j), k, l[i]))
  {
  }

  lemma LogRight(l: seq<int>, r: seq<int>, i: nat, j: nat, k: int, acc: Trace)
    requires i <= |l| && j < |r| && !TakesLeft(l, r, i, j)
    ensures LogFrom(l, r, i, j, k, acc) == LogFrom(l, r, i, j + 1, k + 1, Emit(acc, Contested(l, r, i, j), k, r[j]))
  {
  }

  lemma LogEnd(l: seq<int>, r: seq<int>, i: nat, j: nat, k: int, acc: Trace)
    requires i <= |l| && j == |r| && !TakesLeft(l, r, i, j)
    ensures LogFrom(l, r, i, j, k, acc) == acc && i == |l|
  {
  }

  /** One write adds its position to the written ones. */
  lemma EmitWritten(acc: Trace, contested: bool, k: int, v: int)
    ensures Written(Emit(acc, contested, k, v)) == Written(acc) + [k]
  {
  }

  /** One write adds the comparison (k, k) if both halves still have values, and none otherwise. */
  lemma EmitCompares(acc: Trace, contested: bool, k: int, v: int)
    ensures Events(Compares(Emit(acc, contested, k, v))) ==
      if contested then Events(Compares(acc)) + [Compare(k, k)] else Events(Compares(acc))
  {
  }

  /** Replaying one write at a position of the array sets it. */
  lemma EmitReplay(x: seq<int>, acc: Trace, contested: bool, k: int, v: int)
    requires 0 <= k < |x|
    ensures Replay(x, Emit(acc, contested, k, v)) == Replay(x, acc)[k := v]
  {
  }

  lemma MultisetDrop(s: seq<int>, i: nat)
    requires i < |s|
    ensures multiset(s[i..]) == multiset{s[i]} + multiset(s[i + 1..])
  {
    assert s[i..] == [s[i]] + s[i + 1..];
  }

  // ---------------------------------------------------------------------------
  // What the merge writes

  /** The merge writes exactly the values of the two halves, each once. */
  lemma {:induction false} OutPermutes(l: seq<int>, r: seq<int>, i: nat, j: nat, done: seq<int>)
    requires i <= |l| && j <= |r|
    ensures multiset(OutFrom(l, r, i, j, done)) == multiset(done) + multiset(l[i..]) + multiset(r[j..])
    decreases |l| - i + |r| - j
  {
    if TakesLeft(l, r, i, j) {
      OutLeft(l, r, i, j, done);
      OutPermutes(l, r, i + 1, j, done + [l[i]]);
      MultisetDrop(l, i);
    } else if j < |r| {
      OutRight(l, r, i, j, done);
      OutPermutes(l, r, i, j + 1, done + [r[j]]);
      MultisetDrop(r, j);
    } else {
      OutEnd(l, r, i, j, done);
      assert l[i..] == [] && r[j..] == [];
    }
  }

  /** Merging two sorted halves onto a sorted prefix no larger than what is left gives a sorted sequence. */
  lemma {:induction false} OutSorted(l: seq<int>, r: seq<int>, i: nat, j: nat, done: seq<int>)
    requires i <= |l| && j <= |r|
    requires Sorted(l) && Sorted(r) && Sorted(done)
    requires |done| > 0 && i < |l| ==> done[|done| - 1] <= l[i]
    requires |done| > 0 && j < |r| ==> done[|done| - 1] <= r[j]
    ensures Sorted(OutFrom(l, r, i, j, done))
    decreases |l| - i + |r| - j
  {
    if TakesLeft(l, r, i, j) {
      OutLeft(l, r, i, j, done);
      SortedSnoc(done, l[i]);
      OutSorted(l, r, i + 1, j, done + [l[i]]);
    } else if j < |r| {
      OutRight(l, r, i, j, done);
      SortedSnoc(done, r[j]);
      OutSorted(l, r, i, j + 1, done + [r[j]]);
    } else {
      OutEnd(l, r, i, j, done);
    }
  }

  /** The merge of two sorted sequences is sorted, and holds exactly their values. */
  lemma MergedSortedPermutation(l: seq<int>, r: seq<int>)
    requires Sorted(l) && Sorted(r)
    ensures Sorted(Merged(l, r))
    ensures multiset(Merged(l, r)) == multiset(l) + multiset(r)
  {
    OutSorted(l, r, 0, 0, []);
    OutPermutes(l, r, 0, 0, []);
    assert l[0..] == l && r[0..] == r;
  }

  // ---------------------------------------------------------------------------
  // Where the merged values come from

  /** The plan and the output agree: each output value is the value its origin names. */
  lemma {:induction false} PlanValues(l: seq<int>, r: seq<int>, i: nat, j: nat, done: seq<int>, from: seq<Origin>)
    requires i <= |l| && j <= |r| && |from| == |done|
    requires forall p :: 0 <= p < |from| ==> Names(l, r, from[p]) && ValueOf(l, r, from[p]) == done[p]
    ensures forall p :: 0 <= p < |from| + |l| - i + |r| - j ==>
      Names(l, r, PlanFrom(l, r, i, j, from)[p]) && ValueOf(l, r, PlanFrom(l, r, i, j, from)[p]) == OutFrom(l, r, i, j, done)[p]
    decreases |l| - i + |r| - j
  {
    if TakesLeft(l, r, i, j) {
      OutLeft(l, r, i, j, done);
      PlanLeft(l, r, i, j, from);
      PlanValues(l, r, i + 1, j, done + [l[i]], from + [Left(i)]);
    } else if j < |r| {
      OutRight(l, r, i, j, done);
      PlanRight(l, r, i, j, from);
      PlanValues(l, r, i, j + 1, done + [r[j]], from + [Right(j)]);
    } else {
      OutEnd(l, r, i, j, done);
      PlanEnd(l, r, i, j, from);
    }
  }

  /** The left half is taken in order. */
  lemma {:induction false} PlanLeftInOrder(l: seq<int>, r: seq<int>, i: nat, j: nat, from: seq<Origin>)
    requires i <= |l| && j <= |r|
    requires forall p :: 0 <= p < |from| && from[p].Left? ==> from[p].idx < i
    requires forall p, q :: 0 <= p < q < |from| && from[p].Left? && from[q].Left? ==> from[p].idx < from[q].idx
    ensures var plan := PlanFrom(l, r, i, j, from);
      forall p, q :: 0 <= p < q < |plan| && plan[p].Left? && plan[q].Left? ==> plan[p].idx < plan[q].idx
    decreases |l| - i + |r| - j
  {
    if TakesLeft(l, r, i, j) {
      PlanLeft(l, r, i, j, from);
      PlanLeftInOrder(l, r, i + 1, j, from + [Left(i)]);
    } else if j < |r| {
      PlanRight(l, r, i, j, from);
      PlanLeftInOrder(l, r, i, j + 1, from + [Right(j)]);
    } else {
      PlanEnd(l, r, i, j, from);
    }
  }

  /** The right half is taken in order. */
  lemma {:induction false} PlanRightInOrder(l: seq<int>, r: seq<int>, i: nat, j: nat, from: seq<Origin>)
    requires i <= |l| && j <= |r|
    requires forall p :: 0 <= p < |from| && from[p].Right? ==> from[p].idx < j
    requires forall p, q :: 0 <= p < q < |from| && from[p].Right? && from[q].Right? ==> from[p].idx < from[q].idx
    ensures var plan := PlanFrom(l, r, i, j, from);
      forall p, q :: 0 <= p < q < |plan| && plan[p].Right? && plan[q].Right? ==> plan[p].idx < plan[q].idx
    decreases |l| - i + |r| - j
  {
    if TakesLeft(l, r, i, j) {
      PlanLeft(l, r, i, j, from);
      PlanRightInOrder(l, r, i + 1, j, from + [Left(i)]);
    } else if j < |r| {
      PlanRight(l, r, i, j, from);
      PlanRightInOrder(l, r, i, j + 1, from + [Right(j)]);
    } else {
      PlanEnd(l, r, i, j, from);
    }
  }

  /** Every position of both halves is taken. */
  lemma {:induction false} PlanTakesAll(l: seq<int>, r: seq<int>, i: nat, j: nat, from: seq<Origin>)
    requires i <= |l| && j <= |r|
    requires forall a :: 0 <= a < i ==> Left(a) in from
    requires forall b :: 0 <= b < j ==> Right(b) in from
    ensures var plan := PlanFrom(l, r, i, j, from);
      && (forall a :: 0 <= a < |l| ==> Left(a) in plan)
      && (forall b :: 0 <= b < |r| ==> Right(b) in plan)
    decreases |l| - i + |r| - j
  {
    if TakesLeft(l, r, i, j) {
      PlanLeft(l, r, i, j, from);
      PlanTakesAll(l, r, i + 1, j, from + [Left(i)]);
    } else if j < |r| {
      PlanRight(l, r, i, j, from);
      PlanTakesAll(l, r, i, j + 1, from + [Right(j)]);
    } else {
      PlanEnd(l, r, i, j, from);
    }
  }

  /** Each half is taken in order, and every one of its positions is taken. */
  lemma PlanInOrder(l: seq<int>, r: seq<int>)
    ensures var plan := PlanFrom(l, r, 0, 0, []);
      && (forall p, q :: 0 <= p < q < |plan| && plan[p].Left? && plan[q].Left? ==> plan[p].idx < plan[q].idx)
      && (forall p, q :: 0 <= p < q < |plan| && plan[p].Right? && plan[q].Right? ==> plan[p].idx < plan[q].idx)
      && (forall a :: 0 <= a < |l| ==> Left(a) in plan)
      && (forall b :: 0 <= b < |r| ==> Right(b) in plan)
  {
    PlanLeftInOrder(l, r, 0, 0, []);
    PlanRightInOrder(l, r, 0, 0, []);
    PlanTakesAll(l, r, 0, 0, []);
  }

  /** Every origin of the plan names a position of its half. */
  lemma {:induction false} PlanNames(l: seq<int>, r: seq<int>, i: nat, j: nat, from: seq<Origin>)
    requires i <= |l| && j <= |r|
    requires forall p :: 0 <= p < |from| ==> Names(l, r, from[p])
    ensures forall p :: 0 <= p < |PlanFrom(l, r, i, j, from)| ==> Names(l, r, PlanFrom(l, r, i, j, from)[p])
    decreases |l| - i + |r| - j
  {
    if TakesLeft(l, r, i, j) {
      PlanLeft(l, r, i, j, from);
      PlanNames(l, r, i + 1, j, from + [Left(i)]);
    } else if j < |r| {
      PlanRight(l, r, i, j, from);
      PlanNames(l, r, i, j + 1, from + [Right(j)]);
    } else {
      PlanEnd(l, r, i, j, from);
    }
  }

  /** Ties go to the left: a value of the right half is written before one of a sorted left half only if it is smaller. */
  lemma {:induction false} PlanTies(l: seq<int>, r: seq<int>, i: nat, j: nat, from: seq<Origin>)
    requires i <= |l| && j <= |r| && Sorted(l)
    requires forall p :: 0 <= p < |from| ==> Names(l, r, from[p])
    requires forall p :: 0 <= p < |from| && from[p].Left? ==> from[p].idx < i
    requires forall p :: 0 <= p < |from| && from[p].Right? && from[p].idx < |r| && i < |l| ==> r[from[p].idx] < l[i]
    requires forall p, q :: 0 <= p < q < |from| && from[p].Right? && from[q].Left? && from[p].idx < |r| && from[q].idx < |l| ==>
      r[from[p].idx] < l[from[q].idx]
    ensures var plan := PlanFrom(l, r, i, j, from);
      forall p, q :: 0 <= p < q < |plan| && plan[p].Right? && plan[q].Left? ==>
        Names(l, r, plan[p]) && Names(l, r, plan[q]) && r[plan[p].idx] < l[plan[q].idx]
    decreases |l| - i + |r| - j
  {
    if TakesLeft(l, r, i, j) {
      PlanLeft(l, r, i, j, from);
      var next := from + [Left(i)];
      forall p | 0 <= p < |next| && next[p].Right? && next[p].idx < |r| && i + 1 < |l|
        ensures r[next[p].idx] < l[i + 1]
      {
        assert l[i] <= l[i + 1];
      }
      PlanTies(l, r, i + 1, j, next);
    } else if j < |r| {
      PlanRight(l, r, i, j, from);
      var next := from + [Right(j)];
      assert i < |l| ==> r[j] < l[i];
      PlanTies(l, r, i, j + 1, next);
    } else {
      PlanEnd(l, r, i, j, from);
      PlanNames(l, r, i, j, from);
    }
  }

  // ---------------------------------------------------------------------------
  // The events of the merge

  lemma ConcatAssoc<T>(x: seq<T>, y: seq<T>, z: seq<T>)
    ensures x + y + z == x + (y + z)
  {
  }

  lemma RangeCons(lo: int, hi: int)
    requires lo < hi
    ensures Range(lo, hi) == [lo] + Range(lo + 1, hi)
  {
    assert Range(lo, hi) == [lo] + Range(lo + 1, hi);
  }

  /** The merge writes the positions k, k + 1, ..., hi - 1 once each, in increasing order. */
  lemma {:induction false} LogWrites(l: seq<int>, r: seq<int>, i: nat, j: nat, k: int, hi: int, acc: Trace)
    requires i <= |l| && j <= |r| && hi == k + |l| - i + |r| - j
    ensures Written(LogFrom(l, r, i, j, k, acc)) == Written(acc) + Range(k, hi)
    decreases |l| - i + |r| - j
  {
    if TakesLeft(l, r, i, j) {
      LogLeft(l, r, i, j, k, acc);
      LogWrites(l, r, i + 1, j, k + 1, hi, Emit(acc, Contested(l, r, i, j), k, l[i]));
      EmitWritten(acc, Contested(l, r, i, j), k, l[i]);
      RangeCons(k, hi);
      ConcatAssoc(Written(acc), [k], Range(k + 1, hi));
    } else if j < |r| {
      LogRight(l, r, i, j, k, acc);
      LogWrites(l, r, i, j + 1, k + 1, hi, Emit(acc, Contested(l, r, i, j), k, r[j]));
      EmitWritten(acc, Contested(l, r, i, j), k, r[j]);
      RangeCons(k, hi);
      ConcatAssoc(Written(acc), [k], Range(k + 1, hi));
    } else {
      LogEnd(l, r, i, j, k, acc);
    }
  }

  /** Once a half has run out, the merge emits no more comparisons. */
  lemma {:induction false} NoContest(l: seq<int>, r: seq<int>, i: nat, j: nat, k: int, acc: Trace)
    requires i <= |l| && j <= |r| && (i == |l| || j == |r|)
    ensures Events(Compares(LogFrom(l, r, i, j, k, acc))) == Events(Compares(acc))
    decreases |l| - i + |r| - j
  {
    if TakesLeft(l, r, i, j) {
      LogLeft(l, r, i, j, k, acc);
      EmitCompares(acc, false, k, l[i]);
      NoContest(l, r, i + 1, j, k + 1, Emit(acc, false, k, l[i]));
    } else if j < |r| {
      LogRight(l, r, i, j, k, acc);
      EmitCompares(acc, false, k, r[j]);
      NoContest(l, r, i, j + 1, k + 1, Emit(acc, false, k, r[j]));
    } else {
      LogEnd(l, r, i, j, k, acc);
    }
  }

  /** How many of the writes still to come happen while both halves have values. */
  function ContestCount(l: seq<int>, r: seq<int>, i: nat, j: nat): nat
    requires i <= |l| && j <= |r|
    decreases |l| - i + |r| - j
  {
    if !Contested(l, r, i, j) then 0
    else if TakesLeft(l, r, i, j) then 1 + ContestCount(l, r, i + 1, j)
    else 1 + ContestCount(l, r, i, j + 1)
  }

  /** At least as many contested writes as the shorter half has values, and never the last write. */
  lemma {:induction false} ContestBounds(l: seq<int>, r: seq<int>, i: nat, j: nat)
    requires i <= |l| && j <= |r|
    ensures (if |l| - i < |r| - j then |l| - i else |r| - j) <= ContestCount(l, r, i, j)
    ensures |l| - i + |r| - j > 0 ==> ContestCount(l, r, i, j) < |l| - i + |r| - j
    decreases |l| - i + |r| - j
  {
    if Contested(l, r, i, j) {
      if TakesLeft(l, r, i, j) {
        ContestBounds(l, r, i + 1, j);
      } else {
        ContestBounds(l, r, i, j + 1);
      }
    }
  }

  lemma DiagonalCons(k: int, c: nat)
    ensures Diagonal(k, c + 1) == [Compare(k, k)] + Diagonal(k + 1, c)
  {
    assert Diagonal(k, c + 1) == [Compare(k, k)] + Diagonal(k + 1, c);
  }

  /** The comparison events the merge still emits are (k, k), (k + 1, k + 1), ...: one before each contested write. */
  lemma {:induction false} LogCompares(l: seq<int>, r: seq<int>, i: nat, j: nat, k: int, acc: Trace)
    requires i <= |l| && j <= |r|
    ensures Events(Compares(LogFrom(l, r, i, j, k, acc))) == Events(Compares(acc)) + Diagonal(k, ContestCount(l, r, i, j))
    decreases |l| - i + |r| - j
  {
    if Contested(l, r, i, j) {
      var c := ContestCount(l, r, i, j) - 1;
      var v := if TakesLeft(l, r, i, j) then l[i] else r[j];
      EmitCompares(acc, true, k, v);
      if TakesLeft(l, r, i, j) {
        LogLeft(l, r, i, j, k, acc);
        LogCompares(l, r, i + 1, j, k + 1, Emit(acc, true, k, v));
      } else {
        LogRight(l, r, i, j, k, acc);
        LogCompares(l, r, i, j + 1, k + 1, Emit(acc, true, k, v));
      }
      DiagonalCons(k, c);
      ConcatAssoc(Events(Compares(acc)), [Compare(k, k)], Diagonal(k + 1, c));
    } else {
      NoContest(l, r, i, j, k, acc);
      assert Diagonal(k, 0) == [];
    }
  }

  /** Replaying the merge's events from a state shows what the reference merge computes. */
  lemma {:induction false} LogReplay(x: seq<int>, s: seq<int>, start: int, l: seq<int>, r: seq<int>,
                                     i: nat, j: nat, k: int, done: seq<int>, acc: Trace)
    requires i <= |l| && j <= |r| && |x| == |s| && k == start + |done|
    requires 0 <= start && k + |l| - i + |r| - j <= |s|
    requires Replay(x, acc) == Paste(s, start, done)
    ensures Replay(x, LogFrom(l, r, i, j, k, acc)) == Paste(s, start, OutFrom(l, r, i, j, done))
    decreases |l| - i + |r| - j
  {
    if TakesLeft(l, r, i, j) {
      LogLeft(l, r, i, j, k, acc);
      OutLeft(l, r, i, j, done);
      EmitReplay(x, acc, Contested(l, r, i, j), k, l[i]);
      PasteExtend(s, start, done, l[i]);
      LogReplay(x, s, start, l, r, i + 1, j, k + 1, done + [l[i]], Emit(acc, Contested(l, r, i, j), k, l[i]));
    } else if j < |r| {
      LogRight(l, r, i, j, k, acc);
      OutRight(l, r, i, j, done);
      EmitReplay(x, acc, Contested(l, r, i, j), k, r[j]);
      PasteExtend(s, start, done, r[j]);
      LogReplay(x, s, start, l, r, i, j + 1, k + 1, done + [r[j]], Emit(acc, Contested(l, r, i, j), k, r[j]));
    } else {
      LogEnd(l, r, i, j, k, acc);
      OutEnd(l, r, i, j, done);
    }
  }

  // ---------------------------------------------------------------------------
  // The merge contract, on the array

  /** merge only touches [start, end], which it fills with the merge of the two halves. */
  lemma MergeFrame(s: seq<int>, start: int, mid: int, end: int)
    requires 0 <= start <= mid + 1 <= end + 1 <= |s|
    ensures forall p :: 0 <= p < |s| && (p < start || end < p) ==> MergeRun(s, start, mid, end).arr[p] == s[p]
    ensures MergeRun(s, start, mid, end).arr[start..end + 1] == Merged(s[start..mid + 1], s[mid + 1..end + 1])
  {
    var l, r := s[start..mid + 1], s[mid + 1..end + 1];
    var o := Paste(s, start, Merged(l, r));
    assert o[start..end + 1] == Merged(l, r);
    forall p | 0 <= p < |s| && (p < start || end < p) ensures o[p] == s[p] {
      if p >= start {
        assert o[p] == s[start + |Merged(l, r)|..][p - end - 1];
      }
    }
  }

  /** merge only rearranges [start, end]: the range, and so the whole array, keeps its multiset of values. */
  lemma MergePermutes(s: seq<int>, start: int, mid: int, end: int)
    requires 0 <= start <= mid + 1 <= end + 1 <= |s|
    ensures multiset(MergeRun(s, start, mid, end).arr[start..end + 1]) == multiset(s[start..end + 1])
    ensures multiset(MergeRun(s, start, mid, end).arr) == multiset(s)
  {
    var l, r := s[start..mid + 1], s[mid + 1..end + 1];
    MergeFrame(s, start, mid, end);
    OutPermutes(l, r, 0, 0, []);
    assert l[0..] == l && r[0..] == r;
    assert s[start..end + 1] == l + r;
    var o := MergeRun(s, start, mid, end).arr;
    assert o[..start] == s[..start];
    assert o[end + 1..] == s[end + 1..];
    SplicePermutes(o, s, start, end + 1);
  }

  /** With both halves sorted, merge leaves [start, end] sorted. */
  lemma MergeSorts(s: seq<int>, start: int, mid: int, end: int)
    requires 0 <= start <= mid + 1 <= end + 1 <= |s|
    requires Sorted(s[start..mid + 1]) && Sorted(s[mid + 1..end + 1])
    ensures Sorted(MergeRun(s, start, mid, end).arr[start..end + 1])
  {
    MergeFrame(s, start, mid, end);
    OutSorted(s[start..mid + 1], s[mid + 1..end + 1], 0, 0, []);
  }

  /** merge writes each position start, ..., end exactly once, in increasing order. */
  lemma MergeWrites(s: seq<int>, start: int, mid: int, end: int)
    requires 0 <= start <= mid + 1 <= end + 1 <= |s|
    ensures Written(MergeRun(s, start, mid, end).steps) == Range(start, end + 1)
  {
    LogWrites(s[start..mid + 1], s[mid + 1..end + 1], 0, 0, start, end + 1, Empty);
  }

  /**
   * merge compares (k, k) before each of its first c writes and never
   * afterwards, where c is at least the length of the shorter half and, for a
   * non-empty range, less than its length.
   */
  lemma MergeCompares(s: seq<int>, start: int, mid: int, end: int)
    requires 0 <= start <= mid + 1 <= end + 1 <= |s|
    ensures var c := ContestCount(s[start..mid + 1], s[mid + 1..end + 1], 0, 0);
      && Events(Compares(MergeRun(s, start, mid, end).steps)) == Diagonal(start, c)
      && (if mid + 1 - start < end - mid then mid + 1 - start else end - mid) <= c
      && (start <= end ==> c < end + 1 - start)
  {
    LogCompares(s[start..mid + 1], s[mid + 1..end + 1], 0, 0, start, Empty);
    ContestBounds(s[start..mid + 1], s[mid + 1..end + 1], 0, 0);
  }

  /** Replayed from the array merge starts with, its events show the array it leaves. */
  lemma MergeReplay(s: seq<int>, start: int, mid: int, end: int)
    requires 0 <= start <= mid + 1 <= end + 1 <= |s|
    ensures Replay(s, MergeRun(s, start, mid, end).steps) == MergeRun(s, start, mid, end).arr
  {
    var l, r := s[start..mid + 1], s[mid + 1..end + 1];
    PasteNothing(s, start);
    LogReplay(s, s, start, l, r, 0, 0, start, [], Empty);
    assert MergeRun(s, start, mid, end) == Run(Paste(s, start, Merged(l, r)), LogFrom(l, r, 0, 0, start, Empty));
  }


  /** Where each value merge(arr, start, mid, end) writes comes from, in the order it writes them. */
  function MergePlan(s: seq<int>, start: int, mid: int, end: int): seq<Origin>
    requires 0 <= start <= mid + 1 <= end + 1 <= |s|
  {
    PlanFrom(s[start..mid + 1], s[mid + 1..end + 1], 0, 0, [])
  }

  /** merge leaves the x-th merged value at start + x. */
  lemma MergeValues(s: seq<int>, start: int, mid: int, end: int)
    requires 0 <= start <= mid + 1 <= end + 1 <= |s|
    ensures var m := Merged(s[start..mid + 1], s[mid + 1..end + 1]);
      forall x :: 0 <= x < |m| ==> MergeRun(s, start, mid, end).arr[start + x] == m[x]
  {
    var o := MergeRun(s, start, mid, end).arr;
    var m := Merged(s[start..mid + 1], s[mid + 1..end + 1]);
    MergeFrame(s, start, mid, end);
    forall x | 0 <= x < |m|
      ensures o[start + x] == m[x]
    {
      assert o[start + x] == o[start..end + 1][x];
    }
  }

  /** The x-th value merge writes, at start + x, is the value that was at Source(plan[x]), a position of [start, end]. */
  lemma MergeSources(s: seq<int>, start: int, mid: int, end: int)
    requires 0 <= start <= mid + 1 <= end + 1 <= |s|
    ensures var plan := MergePlan(s, start, mid, end);
      && |plan| == end + 1 - start
      && forall x :: 0 <= x < |plan| ==>
           start <= Source(start, mid, plan[x]) <= end &&
           MergeRun(s, start, mid, end).arr[start + x] == s[Source(start, mid, plan[x])]
  {
    var l, r := s[start..mid + 1], s[mid + 1..end + 1];
    var plan := PlanFrom(l, r, 0, 0, []);
    PlanValues(l, r, 0, 0, [], []);
    MergeValues(s, start, mid, end);
  }

  /** Every position of [start, end] is the source of exactly one write of merge. */
  lemma MergeCovers(s: seq<int>, start: int, mid: int, end: int)
    requires 0 <= start <= mid + 1 <= end + 1 <= |s|
    ensures var plan := MergePlan(s, start, mid, end);
      && (forall q :: start <= q <= end ==> OriginOf(start, mid, q) in plan)
      && (forall x, y :: 0 <= x < y < |plan| ==> Source(start, mid, plan[x]) != Source(start, mid, plan[y]))
  {
    var l, r := s[start..mid + 1], s[mid + 1..end + 1];
    var plan := PlanFrom(l, r, 0, 0, []);
    PlanInOrder(l, r);
    PlanNames(l, r, 0, 0, []);
    forall q | start <= q <= end
      ensures OriginOf(start, mid, q) in plan
    {
      if q <= mid {
        assert Left(q - start) in plan;
      } else {
        assert Right(q - mid - 1) in plan;
      }
    }
  }

  /** o comes before o2 in [start, end]: the left half comes first, each half in order. */
  predicate Before(o: Origin, o2: Origin)
  {
    match o
    case Left(a) => o2.Right? || a < o2.idx
    case Right(b) => o2.Right? && b < o2.idx
  }

  /** Ties go to the left and each half is taken in order: of two equal values, the earlier origin is written first. */
  lemma PlanStable(l: seq<int>, r: seq<int>)
    requires Sorted(l)
    ensures var plan := PlanFrom(l, r, 0, 0, []);
      && (forall p :: 0 <= p < |plan| ==> Names(l, r, plan[p]))
      && (forall x, y :: 0 <= x < y < |plan| && ValueOf(l, r, plan[x]) == ValueOf(l, r, plan[y]) ==> Before(plan[x], plan[y]))
  {
    PlanNames(l, r, 0, 0, []);
    PlanInOrder(l, r);
    PlanTies(l, r, 0, 0, []);
  }

  /** An origin before another one is a smaller position of [start, end]. */
  lemma SourceOrder(l: seq<int>, r: seq<int>, start: int, mid: int, o: Origin, o2: Origin)
    requires |l| == mid + 1 - start && Names(l, r, o) && Before(o, o2)
    ensures Source(start, mid, o) < Source(start, mid, o2)
  {
  }

  /** The value an origin names is the value at its position of [start, end]. */
  lemma ValueSource(s: seq<int>, start: int, mid: int, end: int, o: Origin)
    requires 0 <= start <= mid + 1 <= end + 1 <= |s|
    requires Names(s[start..mid + 1], s[mid + 1..end + 1], o)
    ensures ValueOf(s[start..mid + 1], s[mid + 1..end + 1], o) == s[Source(start, mid, o)]
  {
  }

  /** merge is stable: two writes of equal values keep the order of the positions they come from. */
  lemma MergeStable(s: seq<int>, start: int, mid: int, end: int)
    requires 0 <= start <= mid + 1 <= end + 1 <= |s|
    requires Sorted(s[start..mid + 1])
    ensures var plan := MergePlan(s, start, mid, end);
      var o := MergeRun(s, start, mid, end).arr;
      forall x, y :: 0 <= x < y < |plan| && o[start + x] == o[start + y] ==>
        Source(start, mid, plan[x]) < Source(start, mid, plan[y])
  {
    var l, r := s[start..mid + 1], s[mid + 1..end + 1];
    var plan := MergePlan(s, start, mid, end);
    var o := MergeRun(s, start, mid, end).arr;
    MergeSources(s, start, mid, end);
    PlanStable(l, r);
    assert plan == PlanFrom(l, r, 0, 0, []);
    forall x, y | 0 <= x < y < |plan| && o[start + x] == o[start + y]
      ensures Source(start, mid, plan[x]) < Source(start, mid, plan[y])
    {
      assert Names(l, r, plan[x]) && Names(l, r, plan[y]);
      ValueSource(s, start, mid, end, plan[x]);
      ValueSource(s, start, mid, end, plan[y]);
      SourceOrder(l, r, start, mid, plan[x], plan[y]);
    }
  }

  // ---------------------------------------------------------------------------
  // The in-place merge

  /**
   * merge(arr, start, mid, end): copies arr[start..mid] and arr[mid+1..end]
   * and writes them back merged, emitting the events of the reference merge.
   */
  method Merge(a: array<int>, start: int, mid: int, end: int) returns (steps: Trace)
    requires 0 <= start <= mid + 1 <= end + 1 <= a.Length
    modifies a
    ensures Run(a[..], steps) == MergeRun(old(a[..]), start, mid, end)
  {
    var left := a[start..mid + 1];
    var right := a[mid + 1..end + 1];
    steps := WriteBack(a, start, left, right);
  }

  /**
   * The state of the merge loops after i values of `left` and j of `right` have
   * been written: `cur` is `s` with the merge so far pasted at start, and what
   * the reference merge still writes and emits from the cursor completes the
   * merge and its log.
   */
  ghost predicate Progress(left: seq<int>, right: seq<int>, s: seq<int>, start: int,
                           i: int, j: int, done: seq<int>, cur: seq<int>, steps: Trace)
  {
    && 0 <= start && start + |left| + |right| <= |s|
    && 0 <= i <= |left| && 0 <= j <= |right| && |done| == i + j
    && OutFrom(left, right, i, j, done) == Merged(left, right)
    && cur == Paste(s, start, done)
    && LogFrom(left, right, i, j, start + i + j, steps) == LogFrom(left, right, 0, 0, start, Empty)
  }

  /** Writing the next value of the left half keeps the loop state. */
  lemma StepLeft(left: seq<int>, right: seq<int>, s: seq<int>, start: int,
                 i: int, j: int, done: seq<int>, cur: seq<int>, steps: Trace)
    requires Progress(left, right, s, start, i, j, done, cur, steps)
    requires TakesLeft(left, right, i, j)
    ensures Progress(left, right, s, start, i + 1, j, done + [left[i]], cur[start + i + j := left[i]],
                     Emit(steps, Contested(left, right, i, j), start + i + j, left[i]))
  {
    PasteExtend(s, start, done, left[i]);
  }

  /** Writing the next value of the right half keeps the loop state. */
  lemma StepRight(left: seq<int>, right: seq<int>, s: seq<int>, start: int,
                  i: int, j: int, done: seq<int>, cur: seq<int>, steps: Trace)
    requires Progress(left, right, s, start, i, j, done, cur, steps)
    requires !TakesLeft(left, right, i, j) && j < |right|
    ensures Progress(left, right, s, start, i, j + 1, done + [right[j]], cur[start + i + j := right[j]],
                     Emit(steps, Contested(left, right, i, j), start + i + j, right[j]))
  {
    PasteExtend(s, start, done, right[j]);
  }

  /** The loop state with every value written is the merge and its whole log. */
  lemma Finished(left: seq<int>, right: seq<int>, s: seq<int>, start: int,
                 i: int, j: int, done: seq<int>, cur: seq<int>, steps: Trace)
    requires Progress(left, right, s, start, i, j, done, cur, steps)
    requires i == |left| && j == |right|
    ensures cur == Paste(s, start, Merged(left, right))
    ensures steps == LogFrom(left, right, 0, 0, start, Empty)
  {
  }

  /** The three loops of merge: write the merge of `left` and `right` to a[start..], one position at a time. */
  method WriteBack(a: array<int>, start: int, left: seq<int>, right: seq<int>) returns (steps: Trace)
    requires 0 <= start && start + |left| + |right| <= a.Length
    modifies a
    ensures a[..] == Paste(old(a[..]), start, Merged(left, right))
    ensures steps == LogFrom(left, right, 0, 0, start, Empty)
  {
    ghost var s := a[..];
    ghost var done: seq<int> := [];
    PasteNothing(s, start);
    var i, j;
    i, j, steps, done := Interleave(a, start, left, right, s, 0, 0, done, Empty);
    i, steps, done := CopyLeft(a, start, left, right, s, i, j, done, steps);
    j, steps, done := CopyRight(a, start, left, right, s, i, j, done, steps);
    Finished(left, right, s, start, i, j, done, a[..], steps);
  }

  /** The first loop of merge: while both halves have values, compare, then write the smaller, the left one on ties. */
  method Interleave(a: array<int>, start: int, left: seq<int>, right: seq<int>, ghost s: seq<int>,
                    i0: int, j0: int, ghost done0: seq<int>, steps0: Trace)
    returns (i: int, j: int, steps: Trace, ghost done: seq<int>)
    requires a.Length == |s|
    requires Progress(left, right, s, start, i0, j0, done0, a[..], steps0)
    modifies a
    ensures Progress(left, right, s, start, i, j, done, a[..], steps)
    ensures i == |left| || j == |right|
  {
    i, j, steps, done := i0, j0, steps0, done0;
    var k := start + i + j;
    while i < |left| && j < |right|
      invariant k == start + i + j
      invariant Progress(left, right, s, start, i, j, done, a[..], steps)
    {
      if left[i] <= right[j] {
        StepLeft(left, right, s, start, i, j, done, a[..], steps);
        steps := Then(steps, Compare(k, k));
        ghost var before := a[..];
        a[k] := left[i];
        assert a[..] == before[k := left[i]];
        steps := Then(steps, Write(k, left[i]));
        done := done + [left[i]];
        i := i + 1;
      } else {
        StepRight(left, right, s, start, i, j, done, a[..], steps);
        steps := Then(steps, Compare(k, k));
        ghost var before := a[..];
        a[k] := right[j];
        assert a[..] == before[k := right[j]];
        steps := Then(steps, Write(k, right[j]));
        done := done + [right[j]];
        j := j + 1;
      }
      k := k + 1;
    }
  }

  /** The second loop of merge: copy what is left of the left half, without comparisons. */
  method CopyLeft(a: array<int>, start: int, left: seq<int>, right: seq<int>, ghost s: seq<int>,
                  i0: int, j: int, ghost done0: seq<int>, steps0: Trace)
    returns (i: int, steps: Trace, ghost done: seq<int>)
    requires a.Length == |s|
    requires Progress(left, right, s, start, i0, j, done0, a[..], steps0)
    requires i0 == |left| || j == |right|
    modifies a
    ensures Progress(left, right, s, start, i, j, done, a[..], steps)
    ensures i == |left|
  {
    i, steps, done := i0, steps0, done0;
    var k := start + i + j;
    while i < |left|
      invariant k == start + i + j
      invariant i == |left| || j == |right|
      invariant Progress(left, right, s, start, i, j, done, a[..], steps)
    {
      StepLeft(left, right, s, start, i, j, done, a[..], steps);
      ghost var before := a[..];
      a[k] := left[i];
      assert a[..] == before[k := left[i]];
      steps := Then(steps, Write(k, left[i]));
      done := done + [left[i]];
      i := i + 1;
      k := k + 1;
    }
  }

  /** The third loop of merge: copy what is left of the right half, without comparisons. */
  method CopyRight(a: array<int>, start: int, left: seq<int>, right: seq<int>, ghost s: seq<int>,
                   i: int, j0: int, ghost done0: seq<int>, steps0: Trace)
    returns (j: int, steps: Trace, ghost done: seq<int>)
    requires a.Length == |s|
    requires Progress(left, right, s, start, i, j0, done0, a[..], steps0)
    requires i == |left|
    modifies a
    ensures Progress(left, right, s, start, i, j, done, a[..], steps)
    ensures j == |right|
  {
    j, steps, done := j0, steps0, done0;
    var k := start + i + j;
    while j < |right|
      invariant k == start + i + j
      invariant Progress(left, right, s, start, i, j, done, a[..], steps)
    {
      StepRight(left, right, s, start, i, j, done, a[..], steps);
      ghost var before := a[..];
      a[k] := right[j];
      assert a[..] == before[k := right[j]];
      steps := Then(steps, Write(k, right[j]));
      done := done + [right[j]];
      j := j + 1;
      k := k + 1;
    }
  }
}
