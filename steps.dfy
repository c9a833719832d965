/**
 * The animation events a sort run produces, in the order the visualizer shows them.
 *
 * Each `await animateComparison(i, j)` of a sort becomes a `Compare(i, j)` event,
 * each `await animateSwap(i, j)` a `Swap(i, j)` event (the array snapshot published
 * just before it already shows the exchange), and each element write of the merge
 * step (published with `setArray` and followed by one pacing delay) a `Write(k, v)`
 * event. The timers, the DOM highlighting and the snapshots themselves are not part
 * of the model; only which positions are involved, and in which order.
 */
module Steps {

  datatype Step =
    | Compare(i: int, j: int)
    | Swap(i: int, j: int)
    | Write(k: int, v: int)

  /** A log of events, oldest first: `Then(t, e)` is the log `t` followed by `e`. */
  datatype Trace = Empty | Then(before: Trace, last: Step)

  /** What a run has done so far: the array it leaves, and the events it has emitted. */
  datatype Run = Run(arr: seq<int>, steps: Trace)

  /** The log `x` followed by the log `y`. */
  function Append(x: Trace, y: Trace): Trace
  {
    match y
    case Empty => x
    case Then(y', e) => Then(Append(x, y'), e)
  }

  /** The number of events in a log. */
  function Size(t: Trace): nat
  {
    match t
    case Empty => 0
    case Then(t', _) => Size(t') + 1
  }

  /** The events of a log as a sequence, oldest first. */
  function Events(t: Trace): (r: seq<Step>)
    ensures |r| == Size(t)
  {
    match t
    case Empty => []
    case Then(t', e) => Events(t') + [e]
  }

  /** The comparison events of a log, in order. */
  function Compares(t: Trace): Trace
  {
    match t
    case Empty => Empty
    case Then(t', e) => if e.Compare? then Then(Compares(t'), e) else Compares(t')
  }

  /** The swap events of a log, in order. */
  function Swaps(t: Trace): Trace
  {
    match t
    case Empty => Empty
    case Then(t', e) => if e.Swap? then Then(Swaps(t'), e) else Swaps(t')
  }

  /** The write events of a log, in order. */
  function Writes(t: Trace): Trace
  {
    match t
    case Empty => Empty
    case Then(t', e) => if e.Write? then Then(Writes(t'), e) else Writes(t')
  }

  /** The positions written, in order: one entry per write event. */
  function Written(t: Trace): (r: seq<int>)
    ensures |r| == Size(Writes(t))
  {
    match t
    case Empty => []
    case Then(t', e) => if e.Write? then Written(t') + [e.k] else Written(t')
  }

  /** The second position of every comparison, in order: one entry per comparison. */
  function Probes(t: Trace): (r: seq<int>)
    ensures |r| == Size(Compares(t))
  {
    match t
    case Empty => []
    case Then(t', e) => if e.Compare? then Probes(t') + [e.j] else Probes(t')
  }

  /** The integers lo, lo + 1, ..., hi - 1 in increasing order. */
  function Range(lo: int, hi: int): (r: seq<int>)
    ensures |r| == if hi <= lo then 0 else hi - lo
  {
    if hi <= lo then [] else seq(hi - lo, p => lo + p)
  }

  /** Every entry of Range(lo, hi) lies in [lo, hi). */
  lemma RangeBounds(lo: int, hi: int)
    ensures forall p :: p in Range(lo, hi) ==> lo <= p < hi
  {
  }

  lemma RangeExtend(lo: int, hi: int)
    requires lo <= hi
    ensures Range(lo, hi + 1) == Range(lo, hi) + [hi]
  {
    assert Range(lo, hi + 1) == Range(lo, hi) + [hi];
  }

  /** `s` with the values at i and j exchanged. */
  function Exchanged(s: seq<int>, i: int, j: int): (r: seq<int>)
    requires 0 <= i < |s| && 0 <= j < |s|
    ensures |r| == |s|
  {
    s[i := s[j]][j := s[i]]
  }

  /**
   * The array the visualizer shows after the events of `t`, starting from `s`:
   * a swap exchanges two bars, a write sets one, a comparison only highlights.
   * An event that names a position outside the array changes nothing.
   */
  function Replay(s: seq<int>, t: Trace): (r: seq<int>)
    ensures |r| == |s|
  {
    match t
    case Empty => s
    case Then(t', e) =>
      var r := Replay(s, t');
      match e
      case Compare(_, _) => r
      case Swap(i, j) => if 0 <= i < |r| && 0 <= j < |r| then Exchanged(r, i, j) else r
      case Write(k, v) => if 0 <= k < |r| then r[k := v] else r
  }

  // ---------------------------------------------------------------------------
  // How the views of a log distribute over Append

  /** The empty log followed by t is t. */
  lemma {:induction false} EmptyAppend(t: Trace)
    ensures Append(Empty, t) == t
  {
    match t
    case Empty =>
    case Then(t', _) => EmptyAppend(t');
  }

  lemma {:induction false} SizeAppend(x: Trace, y: Trace)
    ensures Size(Append(x, y)) == Size(x) + Size(y)
  {
    match y
    case Empty =>
    case Then(y', _) => SizeAppend(x, y');
  }

  lemma {:induction false} EventsAppend(x: Trace, y: Trace)
    ensures Events(Append(x, y)) == Events(x) + Events(y)
  {
    match y
    case Empty =>
    case Then(y', e) =>
      EventsAppend(x, y');
      assert Events(x) + (Events(y') + [e]) == (Events(x) + Events(y')) + [e];
  }

  lemma {:induction false} ComparesAppend(x: Trace, y: Trace)
    ensures Compares(Append(x, y)) == Append(Compares(x), Compares(y))
  {
    match y
    case Empty =>
    case Then(y', _) => ComparesAppend(x, y');
  }

  lemma {:induction false} SwapsAppend(x: Trace, y: Trace)
    ensures Swaps(Append(x, y)) == Append(Swaps(x), Swaps(y))
  {
    match y
    case Empty =>
    case Then(y', _) => SwapsAppend(x, y');
  }

  lemma {:induction false} WritesAppend(x: Trace, y: Trace)
    ensures Writes(Append(x, y)) == Append(Writes(x), Writes(y))
  {
    match y
    case Empty =>
    case Then(y', _) => WritesAppend(x, y');
  }

  lemma {:induction false} WrittenAppend(x: Trace, y: Trace)
    ensures Written(Append(x, y)) == Written(x) + Written(y)
  {
    match y
    case Empty =>
    case Then(y', e) =>
      WrittenAppend(x, y');
      if e.Write? {
        assert Written(x) + (Written(y') + [e.k]) == (Written(x) + Written(y')) + [e.k];
      }
  }

  lemma {:induction false} ProbesAppend(x: Trace, y: Trace)
    ensures Probes(Append(x, y)) == Probes(x) + Probes(y)
  {
    match y
    case Empty =>
    case Then(y', e) =>
      ProbesAppend(x, y');
      if e.Compare? {
        assert Probes(x) + (Probes(y') + [e.j]) == (Probes(x) + Probes(y')) + [e.j];
      }
  }

  /** Replaying two logs one after the other is replaying their concatenation. */
  lemma {:induction false} ReplayAppend(s: seq<int>, x: Trace, y: Trace)
    ensures Replay(s, Append(x, y)) == Replay(Replay(s, x), y)
  {
    match y
    case Empty =>
    case Then(y', _) => ReplayAppend(s, x, y');
  }

  /** A log without writes only exchanges bars: what it shows is a rearrangement of the start. */
  lemma {:induction false} ReplayPermutes(s: seq<int>, t: Trace)
    requires Writes(t) == Empty
    ensures multiset(Replay(s, t)) == multiset(s)
  {
    match t
    case Empty =>
    case Then(t', e) =>
      ReplayPermutes(s, t');
      var r := Replay(s, t');
      if e.Swap? && 0 <= e.i < |r| && 0 <= e.j < |r| {
        assert multiset(Exchanged(r, e.i, e.j)) == multiset(r);
      }
  }
}
