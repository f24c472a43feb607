/**
  `processTextNodesBatch` and `processImagesBatch` (browser-extension/content.js)
  share one shape: handle `[start, min(start + size, n))` with a per-item
  step, then recurse from the end of the batch. The `setTimeout` between
  batches is dropped; the batches run one after the other.
 */
module Batching {
  function Min(a: int, b: int): (r: int)
    ensures r <= a && r <= b && (r == a || r == b)
  {
    if a <= b then a else b
  }

  /** The per-item step applied to each id of `ids`, left to right. */
  function Sequential<S>(st: S, ids: seq<nat>, step: (S, nat) -> S): S
    decreases |ids|
  {
    if ids == [] then st else Sequential(step(st, ids[0]), ids[1..], step)
  }

  /** The batch recursion from `start`, `size` items at a time. */
  function Batches<S>(st: S, ids: seq<nat>, start: nat, size: nat, step: (S, nat) -> S): S
    requires size > 0
    decreases |ids| - start
  {
    if start >= |ids| then st
    else
      var end := Min(start + size, |ids|);
      Batches(Sequential(st, ids[start..end], step), ids, end, size, step)
  }

  /** Running over `a + b` is running over `a`, then over `b`. */
  lemma {:induction false} SequentialAppend<S>(st: S, a: seq<nat>, b: seq<nat>, step: (S, nat) -> S)
    ensures Sequential(st, a + b, step) == Sequential(Sequential(st, a, step), b, step)
    decreases |a|
  {
    if a == [] {
      assert a + b == b;
    } else {
      assert (a + b)[0] == a[0];
      assert (a + b)[1..] == a[1..] + b;
      SequentialAppend(step(st, a[0]), a[1..], b, step);
    }
  }

  /**
    However the ids are cut into batches, each id from `start` on is handed
    to the step exactly once, in order: the result is that of one pass over
    `ids[start..]`.
   */
  lemma {:induction false} BatchesAreSequential<S>(st: S, ids: seq<nat>, start: nat, size: nat, step: (S, nat) -> S)
    requires size > 0 && start <= |ids|
    ensures Batches(st, ids, start, size, step) == Sequential(st, ids[start..], step)
    decreases |ids| - start
  {
    if start < |ids| {
      var end := Min(start + size, |ids|);
      assert ids[start..] == ids[start..end] + ids[end..];
      SequentialAppend(st, ids[start..end], ids[end..], step);
      BatchesAreSequential(Sequential(st, ids[start..end], step), ids, end, size, step);
    }
  }
}
