/**
  The iterations of a loop and the part of them that a range of values runs.  A loop with a negative increment is
  the mirror image of one with a positive increment, on which the proofs are done.
  */
module Loops {
  import opened Arithmetic

  /** The loop has an iteration. */
  predicate NonEmpty(lower: int, upper: int, incr: int) {
    if incr > 0 then lower <= upper else incr < 0 && upper <= lower
  }

  /** The number of iterations of a non-empty loop. */
  function Size(lower: int, upper: int, incr: int): int
    requires incr != 0
  {
    if incr > 0 then (upper - lower) / incr + 1 else (lower - upper) / -incr + 1
  }

  /** `x` is a value of the loop variable. */
  predicate IsIteration(lower: int, upper: int, incr: int, x: int)
    requires incr != 0
  {
    if incr > 0 then lower <= x <= upper && (x - lower) % incr == 0
    else upper <= x <= lower && (lower - x) % -incr == 0
  }

  /** A thread that runs from `lo` to `up` executes `x`. */
  predicate Runs(lo: int, up: int, incr: int, x: int)
    requires incr != 0
  {
    IsIteration(lo, up, incr, x)
  }

  /** The end of a range, clipped to the loop's bound. */
  function Clip(up: int, upper: int, incr: int): int {
    if incr > 0 then (if up < upper then up else upper) else if up > upper then up else upper
  }

  lemma Mirror(lower: int, upper: int, incr: int, x: int)
    requires incr != 0
    ensures IsIteration(lower, upper, incr, x) == IsIteration(-lower, -upper, -incr, -x)
    ensures Size(lower, upper, incr) == Size(-lower, -upper, -incr)
    ensures NonEmpty(lower, upper, incr) == NonEmpty(-lower, -upper, -incr)
  {}

  /** The i-th value of the loop variable. */
  lemma IndexOf(lower: int, incr: int, x: int)
    requires incr > 0 && x >= lower && (x - lower) % incr == 0
    ensures x == lower + ((x - lower) / incr) * incr && (x - lower) / incr >= 0
  {
    DivBounds(x - lower, incr);
    QuotientNat(x - lower, incr);
  }

  lemma IterationBounds(lower: int, upper: int, incr: int, i: int)
    requires incr > 0 && lower <= upper
    ensures 0 <= i < Size(lower, upper, incr) <==> lower <= lower + i * incr <= upper
    ensures 0 <= i < Size(lower, upper, incr) <==> IsIteration(lower, upper, incr, lower + i * incr)
    ensures Size(lower, upper, incr) > 0
  {
    var m := (upper - lower) / incr;
    DivBounds(upper - lower, incr);
    MultipleMod(i, incr);
    ScaleOrder(0, i, incr);
    ScaleOrder(i, m, incr);
    ScaleOrder(m + 1, i, incr);
    ScaleOrder(m + 1, 0, incr);
  }

  lemma SizeBounds(lower: int, upper: int, incr: int)
    requires incr > 0 && lower <= upper
    ensures 0 < Size(lower, upper, incr) <= upper - lower + 1
  {
    QuotientAtMost(upper - lower, incr);
  }

  /** Of the values of the loop variable, a block of `len` iterations from the f-th on runs exactly its own. */
  lemma BlockRunsAt(lower: int, incr: int, f: int, len: int, i: int)
    requires incr > 0
    ensures Runs(lower + f * incr, lower + f * incr + len * incr - incr, incr, lower + i * incr) <==> f <= i < f + len
  {
    ScaleOrder(f, i, incr);
    ScaleOrder(i - f, len - 1, incr);
    MultipleMod(i - f, incr);
    assert lower + i * incr - (lower + f * incr) == (i - f) * incr;
    assert len * incr - incr == (len - 1) * incr;
  }

  /** A block runs nothing but values of the loop variable. */
  lemma BlockRunsOnly(lower: int, incr: int, f: int, len: int, x: int) returns (i: int)
    requires incr > 0 && Runs(lower + f * incr, lower + f * incr + len * incr - incr, incr, x)
    ensures f <= i < f + len && x == lower + i * incr
  {
    var lo := lower + f * incr;
    DivBounds(x - lo, incr);
    i := f + (x - lo) / incr;
    assert x == lower + i * incr;
    BlockRunsAt(lower, incr, f, len, i);
  }
}
