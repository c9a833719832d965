/**
 * A counted loop over an array, as a function on values: `Iterate(body, s, i)`
 * is what the iterations k = 0, ..., i - 1 of a loop whose body is `body` leave
 * behind, each body working on the array the previous one left and adding its
 * events to the log. The inner and outer loops of both quadratic sorts have this
 * shape; the lemmas here carry a property of one body to the whole loop.
 */
module Iteration {
  import opened Steps

  function Iterate(body: (seq<int>, int) -> Run, s: seq<int>, i: int): Run
    decreases i
  {
    if i <= 0 then Run(s, Empty)
    else
      var p := Iterate(body, s, i - 1);
      var q := body(p.arr, i - 1);
      Run(q.arr, Append(p.steps, q.steps))
  }

  /** One iteration more, spelled out. */
  lemma IterateNext(body: (seq<int>, int) -> Run, s: seq<int>, i: int)
    requires i >= 0
    ensures Iterate(body, s, i + 1) ==
      Run(body(Iterate(body, s, i).arr, i).arr,
          Append(Iterate(body, s, i).steps, body(Iterate(body, s, i).arr, i).steps))
  {
  }

  /** A loop invariant: established before the loop and kept by every iteration, it holds after it. */
  lemma {:induction false} IterateKeeps(body: (seq<int>, int) -> Run, inv: (seq<int>, int) -> bool, s: seq<int>, i: int)
    requires i >= 0
    requires inv(s, 0)
    requires forall x, k :: 0 <= k < i && inv(x, k) ==> inv(body(x, k).arr, k + 1)
    ensures inv(Iterate(body, s, i).arr, i)
    decreases i
  {
    if i > 0 {
      IterateKeeps(body, inv, s, i - 1);
    }
  }

  /** A body that keeps the length of the array gives a loop that keeps it. */
  lemma {:induction false} IterateLength(body: (seq<int>, int) -> Run, s: seq<int>, i: int)
    requires forall x, k :: |body(x, k).arr| == |x|
    ensures |Iterate(body, s, i).arr| == |s|
    decreases i
  {
    if i > 0 {
      IterateLength(body, s, i - 1);
    }
  }

  /** If every body's events replay to the array it leaves, so do the loop's, and none of them writes. */
  lemma {:induction false} IterateReplay(body: (seq<int>, int) -> Run, s: seq<int>, i: int)
    requires forall x, k :: Replay(x, body(x, k).steps) == body(x, k).arr
    requires forall x, k :: Writes(body(x, k).steps) == Empty
    ensures Replay(s, Iterate(body, s, i).steps) == Iterate(body, s, i).arr
    ensures Writes(Iterate(body, s, i).steps) == Empty
    decreases i
  {
    if i > 0 {
      var p := Iterate(body, s, i - 1);
      IterateReplay(body, s, i - 1);
      ReplayAppend(s, p.steps, body(p.arr, i - 1).steps);
      WritesAppend(p.steps, body(p.arr, i - 1).steps);
    }
  }

  /** If no iteration changes `s` or swaps anything in it, the loop leaves `s` as it is, without a swap. */
  lemma {:induction false} IterateSteady(body: (seq<int>, int) -> Run, s: seq<int>, i: int)
    requires forall k :: 0 <= k < i ==> body(s, k).arr == s && Swaps(body(s, k).steps) == Empty
    ensures Iterate(body, s, i).arr == s
    ensures Swaps(Iterate(body, s, i).steps) == Empty
    decreases i
  {
    if i > 0 {
      IterateSteady(body, s, i - 1);
      SwapsAppend(Iterate(body, s, i - 1).steps, body(s, i - 1).steps);
    }
  }

  /** If every iteration swaps at most once, i iterations swap at most i times. */
  lemma {:induction false} IterateSwapBound(body: (seq<int>, int) -> Run, s: seq<int>, i: int)
    requires forall x, k :: Size(Swaps(body(x, k).steps)) <= 1
    ensures Size(Swaps(Iterate(body, s, i).steps)) <= if i <= 0 then 0 else i
    decreases i
  {
    if i > 0 {
      var p := Iterate(body, s, i - 1);
      IterateSwapBound(body, s, i - 1);
      SwapsAppend(p.steps, body(p.arr, i - 1).steps);
      SizeAppend(Swaps(p.steps), Swaps(body(p.arr, i - 1).steps));
    }
  }
}
