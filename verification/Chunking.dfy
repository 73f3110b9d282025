/** The work splitting done by `parallel_for` under its lock: how `[0, total)` is cut into tasks.

  Sizes are the source's 64-bit `size_t`, so every addition and multiplication is reduced modulo 2^64
  here.  The chunks cover every index exactly once precisely when the rounding-up sum does not wrap. */
module Chunking {

  import opened NamedArithmetic
  import opened Words

  /** A queued task: the half-open index range its closure captured. */
  datatype Range = Range(lo: nat, hi: nat)

  function Min(a: int, b: int): int { if a <= b then a else b }

  function StepOf(total: nat, chunks: nat): nat
    requires 0 < chunks
  {
    ((total + chunks - 1) % U64_LIMIT) / chunks
  }

  function StartOf(total: nat, chunks: nat, c: nat): nat
    requires 0 < chunks
  {
    (c * StepOf(total, chunks)) % U64_LIMIT
  }

  function RangeOf(total: nat, chunks: nat, c: nat): Range
    requires 0 < chunks
  {
    var start := StartOf(total, chunks, c);
    Range(start, Min((start + StepOf(total, chunks)) % U64_LIMIT, total))
  }

  /** The tasks pushed by the first `c` iterations. */
  function Pushed(total: nat, chunks: nat, c: nat): seq<Range>
    requires 0 < chunks
  {
    if c == 0 then []
    else if StartOf(total, chunks, c - 1) < total then
      Pushed(total, chunks, c - 1) + [RangeOf(total, chunks, c - 1)]
    else
      Pushed(total, chunks, c - 1)
  }

  function Chunks(total: nat, chunks: nat): seq<Range>
    requires 0 < chunks
  {
    Pushed(total, chunks, chunks)
  }

  function Covers(r: Range, i: int): nat { if r.lo <= i < r.hi then 1 else 0 }

  /** How many of the tasks contain index `i`. */
  function Times(ts: seq<Range>, i: int): nat
  {
    if ts == [] then 0 else Times(ts[..|ts| - 1], i) + Covers(ts[|ts| - 1], i)
  }

  ghost predicate ExactlyOnce(total: nat, chunks: nat)
    requires 0 < chunks
  {
    forall i :: 0 <= i < total ==> Times(Chunks(total, chunks), i) == 1
  }

  lemma TimesPush(ts: seq<Range>, r: Range, i: int)
    ensures Times(ts + [r], i) == Times(ts, i) + Covers(r, i)
  {
  }

  lemma DivBounds(a: nat, b: nat)
    requires 0 < b
    ensures (a / b) * b <= a < (a / b) * b + b
  {
  }

  lemma StepBounds(sum: nat, chunks: nat, c: nat, step: nat)
    requires 0 < chunks && c < chunks && step == sum / chunks
    ensures 0 <= c * step <= c * step + step == (c + 1) * step <= sum
    ensures chunks * step + chunks > sum
  {
    DivBounds(sum, chunks);
    MulMono(c + 1, chunks, step);
  }

  /** The products and sums of the loop never wrap: the iteration-`c` range is
    `[c*step, min((c+1)*step, total))`.  Only the rounding-up sum can, and then the steps stay short of
    `total`. */
  lemma RangeIs(total: nat, chunks: nat, c: nat)
    requires 0 < chunks && c < chunks
    ensures var step := StepOf(total, chunks);
            StartOf(total, chunks, c) == c * step &&
            RangeOf(total, chunks, c) == Range(c * step, Min((c + 1) * step, total)) &&
            c * step <= (c + 1) * step &&
            (total + chunks - 1 < U64_LIMIT ==> chunks * step >= total)
  {
    var sum := (total + chunks - 1) % U64_LIMIT;
    var step := StepOf(total, chunks);
    StepBounds(sum, chunks, c, step);
    var start := c * step;
    assert start % U64_LIMIT == start && (start + step) % U64_LIMIT == start + step;
  }

  lemma CoversNext(step: nat, total: nat, c: nat, i: nat)
    requires 0 < c && i < total
    ensures (c - 1) * step + step == c * step
    ensures (if i < (c - 1) * step then 1 else 0)
            + (if (c - 1) * step < total then Covers(Range((c - 1) * step, Min(c * step, total)), i) else 0)
            == if i < c * step then 1 else 0
  {
  }

  /** After `c` iterations exactly the indices below `min(c*step, total)` are covered, once each. */
  lemma {:induction false} PushedCovers(total: nat, chunks: nat, c: nat, i: nat, step: nat)
    requires 0 < chunks && c <= chunks && total + chunks - 1 < U64_LIMIT && i < total
    requires step == StepOf(total, chunks)
    ensures Times(Pushed(total, chunks, c), i) == if i < c * step then 1 else 0
  {
    hide StepOf, StartOf, RangeOf;
    if c != 0 {
      PushedCovers(total, chunks, c - 1, i, step);
      RangeIs(total, chunks, c - 1);
      CoversNext(step, total, c, i);
      TimesPush(Pushed(total, chunks, c - 1), RangeOf(total, chunks, c - 1), i);
    }
  }

  /** Every pushed task is a subrange of `[0, total)`. */
  lemma {:induction false} PushedInside(total: nat, chunks: nat, c: nat, k: nat)
    requires 0 < chunks && c <= chunks
    requires k < |Pushed(total, chunks, c)|
    ensures var r := Pushed(total, chunks, c)[k]; r.lo <= r.hi <= total
  {
    hide StepOf, StartOf, RangeOf;
    RangeIs(total, chunks, c - 1);
    if k < |Pushed(total, chunks, c - 1)| {
      PushedInside(total, chunks, c - 1, k);
    } else {
    }
  }

  lemma WrappedStep(total: nat, chunks: nat, c: nat)
    requires 0 < chunks < U64_LIMIT && total < U64_LIMIT && 0 < c <= chunks
    requires total + chunks - 1 >= U64_LIMIT
    ensures RangeOf(total, chunks, c - 1).hi <= total - 1
  {
    var step := StepOf(total, chunks);
    var sum := (total + chunks - 1) % U64_LIMIT;
    assert sum == total + chunks - 1 - U64_LIMIT < total;
    DivBounds(sum, chunks);
    MulMono(c, chunks, step);
    assert c * step == (c - 1) * step + step;
    assert c * step <= sum;
    assert 0 <= (c - 1) * step;
  }

  /** When the rounding-up sum wraps, no task reaches the last index. */
  lemma {:induction false} WrappedMisses(total: nat, chunks: nat, c: nat)
    requires 0 < chunks < U64_LIMIT && total < U64_LIMIT && c <= chunks
    requires total + chunks - 1 >= U64_LIMIT
    ensures Times(Pushed(total, chunks, c), total - 1) == 0
  {
    hide StepOf, StartOf, RangeOf;
    if c != 0 {
      WrappedMisses(total, chunks, c - 1);
      WrappedStep(total, chunks, c);
      TimesPush(Pushed(total, chunks, c - 1), RangeOf(total, chunks, c - 1), total - 1);
    }
  }

  /** The first iteration always pushes a task when there is something to do. */
  lemma {:induction false} SomethingPushed(total: nat, chunks: nat, c: nat)
    requires 0 < chunks && 0 < c
    ensures Pushed(total, chunks, c) == [] <==> total == 0
  {
    if c > 1 {
      SomethingPushed(total, chunks, c - 1);
    } else {
      assert Pushed(total, chunks, 0) == [] && StartOf(total, chunks, 0) == 0;
    }
  }

  /** `parallel_for` splits its range into tasks that hit every index exactly once if and only if
    `total + chunks - 1` does not wrap around 64 bits. */
  lemma ExactlyOnceIff(total: nat, chunks: nat)
    requires 0 < chunks < U64_LIMIT && total < U64_LIMIT
    ensures ExactlyOnce(total, chunks) <==> total + chunks - 1 < U64_LIMIT
  {
    if total + chunks - 1 < U64_LIMIT {
      forall i | 0 <= i < total
        ensures Times(Chunks(total, chunks), i) == 1
      {
        PushedCovers(total, chunks, chunks, i, StepOf(total, chunks));
        RangeIs(total, chunks, 0);
      }
    } else {
      WrappedMisses(total, chunks, chunks);
      assert Times(Chunks(total, chunks), total - 1) == 0;
    }
  }
}
