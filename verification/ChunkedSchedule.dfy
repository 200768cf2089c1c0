/**
  The static schedule with a chunk size: the ranges of the `kmp_sch_static_chunked` branch of
  `__kmpc_for_static_init_4`, and the last flags of that branch and of the one of `__kmpc_for_static_init_8u`, in
  software/snRuntime/src/omp/kmp.c.  The ranges of the latter, which wrap at 2^64, are in `ChunkedSchedule64`.
  `n` is the number of threads, `t` a thread.
  */
module ChunkedSchedule {
  import opened Arithmetic
  import opened Loops

  /** Lower bound of the k-th range of thread `t`: its first range, moved by `k` strides. */
  function ChunkLower(lower: int, incr: int, chunk: int, n: nat, t: nat, k: nat): int {
    lower + incr * chunk * t + k * (incr * chunk * n)
  }

  /** Thread `t` executes `x` in its k-th range, clipped to the loop's upper bound. */
  predicate ChunkRuns(lower: int, upper: int, incr: int, chunk: int, n: nat, t: nat, k: nat, x: int)
    requires incr != 0
  {
    var lo := ChunkLower(lower, incr, chunk, n, t, k);
    Runs(lo, lo + incr * chunk - incr, incr, x) && if incr > 0 then x <= upper else upper <= x
  }

  /** A schedule with a negative increment is the mirror image of one with a positive increment. */
  lemma ChunkMirror(lower: int, upper: int, incr: int, chunk: int, n: nat, t: nat, k: nat, x: int)
    requires incr != 0
    ensures ChunkLower(-lower, -incr, chunk, n, t, k) == -ChunkLower(lower, incr, chunk, n, t, k)
    ensures ChunkRuns(lower, upper, incr, chunk, n, t, k, x) == ChunkRuns(-lower, -upper, -incr, chunk, n, t, k, -x)
  {
    Negated(incr, chunk);
    Negated(incr * chunk, t);
    Negated(incr * chunk, n);
    Negated(k, incr * chunk * n);
    var lo := ChunkLower(lower, incr, chunk, n, t, k);
    Mirror(lo, lo + incr * chunk - incr, incr, x);
  }

  /** The k-th range of thread `t` is chunk number t + k * n of the loop. */
  lemma ChunkNumber(lower: int, incr: int, chunk: int, n: nat, t: nat, k: nat)
    ensures ChunkLower(lower, incr, chunk, n, t, k) == lower + ((t + k * n) * chunk) * incr
  {}

  lemma ChunkBlock(lower: int, incr: int, chunk: int, n: nat, t: nat, k: nat)
    ensures var lo := ChunkLower(lower, incr, chunk, n, t, k);
            var f := (t + k * n) * chunk;
            lo == lower + f * incr && lo + incr * chunk - incr == lower + f * incr + chunk * incr - incr
  {
    ChunkNumber(lower, incr, chunk, n, t, k);
  }

  /** Index `i` is in chunk t + k * n exactly if that is how its chunk number divides by `n`. */
  lemma ChunkOfIndex(i: int, chunk: int, n: nat, t: nat, k: nat)
    requires chunk > 0 && n > 0 && t < n
    ensures (t + k * n) * chunk <= i < (t + k * n) * chunk + chunk <==> t == (i / chunk) % n && k == (i / chunk) / n
  {
    var c := t + k * n;
    DivBounds(i, chunk);
    DivBounds(i / chunk, n);
    assert c * chunk + chunk == (c + 1) * chunk;
    if c * chunk <= i < c * chunk + chunk {
      DivUnique(i, chunk, c);
      assert k * n <= c < (k + 1) * n;
      DivUnique(c, n, k);
      DivBounds(c, n);
    }
    if t == (i / chunk) % n && k == (i / chunk) / n {
      assert c == i / chunk;
    }
  }

  lemma ChunkOwnership(lower: int, upper: int, incr: int, chunk: int, n: nat, t: nat, k: nat, i: int)
    requires incr > 0 && chunk > 0 && n > 0 && t < n && lower + i * incr <= upper
    ensures ChunkRuns(lower, upper, incr, chunk, n, t, k, lower + i * incr)
       <==> t == (i / chunk) % n && k == (i / chunk) / n
  {
    ChunkBlock(lower, incr, chunk, n, t, k);
    BlockRunsAt(lower, incr, (t + k * n) * chunk, chunk, i);
    ChunkOfIndex(i, chunk, n, t, k);
  }

  /** What a thread runs in one of its ranges is an iteration, and determines the thread and the range. */
  lemma ChunkRunsOnly(lower: int, upper: int, incr: int, chunk: int, n: nat, t: nat, k: nat, x: int) returns (i: int)
    requires incr > 0 && chunk > 0 && n > 0 && t < n && ChunkRuns(lower, upper, incr, chunk, n, t, k, x)
    ensures x == lower + i * incr && i >= 0 && IsIteration(lower, upper, incr, x)
    ensures t == (i / chunk) % n && k == (i / chunk) / n
  {
    ChunkBlock(lower, incr, chunk, n, t, k);
    i := BlockRunsOnly(lower, incr, (t + k * n) * chunk, chunk, x);
    assert (t + k * n) * chunk >= 0;
    ScaleOrder(0, i, incr);
    MultipleMod(i, incr);
    ChunkOwnership(lower, upper, incr, chunk, n, t, k, i);
  }

  lemma SameIndex(lower: int, incr: int, i: int, j: int)
    requires incr > 0 && lower + i * incr == lower + j * incr
    ensures i == j
  {
    ScaleOrder(i, j, incr);
    ScaleOrder(j, i, incr);
  }

  lemma UpwardsExactlyOnce(lower: int, upper: int, incr: int, chunk: int, n: nat, x: int)
    requires incr > 0 && chunk > 0 && n > 0
    ensures (exists t, k :: 0 <= t < n && k >= 0 && ChunkRuns(lower, upper, incr, chunk, n, t, k, x))
       <==> IsIteration(lower, upper, incr, x)
    ensures forall t, k, u, l | 0 <= t < n && 0 <= u < n && k >= 0 && l >= 0 ::
              ChunkRuns(lower, upper, incr, chunk, n, t, k, x) && ChunkRuns(lower, upper, incr, chunk, n, u, l, x)
              ==> t == u && k == l
  {
    forall t, k | 0 <= t < n && k >= 0 && ChunkRuns(lower, upper, incr, chunk, n, t, k, x)
      ensures IsIteration(lower, upper, incr, x)
    {
      var i := ChunkRunsOnly(lower, upper, incr, chunk, n, t, k, x);
    }
    forall t, k, u, l | 0 <= t < n && 0 <= u < n && k >= 0 && l >= 0
                        && ChunkRuns(lower, upper, incr, chunk, n, t, k, x)
                        && ChunkRuns(lower, upper, incr, chunk, n, u, l, x)
      ensures t == u && k == l
    {
      var i := ChunkRunsOnly(lower, upper, incr, chunk, n, t, k, x);
      var j := ChunkRunsOnly(lower, upper, incr, chunk, n, u, l, x);
      SameIndex(lower, incr, i, j);
    }
    if IsIteration(lower, upper, incr, x) {
      var t, k := ChunkOwner(lower, upper, incr, chunk, n, x);
    }
  }

  /**
    Stepping each thread's range by the returned stride and clipping it to the upper bound visits every
    iteration exactly once over the team, by one thread in one range, and visits nothing else.
    */
  lemma ChunkedExactlyOnce(lower: int, upper: int, incr: int, chunk: int, n: nat, x: int)
    requires incr != 0 && chunk > 0 && n > 0
    ensures (exists t, k :: 0 <= t < n && k >= 0 && ChunkRuns(lower, upper, incr, chunk, n, t, k, x))
       <==> IsIteration(lower, upper, incr, x)
    ensures forall t, k, u, l | 0 <= t < n && 0 <= u < n && k >= 0 && l >= 0 ::
              ChunkRuns(lower, upper, incr, chunk, n, t, k, x) && ChunkRuns(lower, upper, incr, chunk, n, u, l, x)
              ==> t == u && k == l
  {
    if incr > 0 {
      UpwardsExactlyOnce(lower, upper, incr, chunk, n, x);
    } else {
      DownwardsExactlyOnce(lower, upper, incr, chunk, n, x, -lower, -upper, -incr, -x);
    }
  }

  lemma DownwardsExactlyOnce(lower: int, upper: int, incr: int, chunk: int, n: nat, x: int, lo: int, up: int, step: int,
                             y: int)
    requires incr < 0 && chunk > 0 && n > 0 && lo == -lower && up == -upper && step == -incr && y == -x
    ensures (exists t, k :: 0 <= t < n && k >= 0 && ChunkRuns(lower, upper, incr, chunk, n, t, k, x))
       <==> IsIteration(lower, upper, incr, x)
    ensures forall t, k, u, l | 0 <= t < n && 0 <= u < n && k >= 0 && l >= 0 ::
              ChunkRuns(lower, upper, incr, chunk, n, t, k, x) && ChunkRuns(lower, upper, incr, chunk, n, u, l, x)
              ==> t == u && k == l
  {
    UpwardsExactlyOnce(lo, up, step, chunk, n, y);
    Mirror(lower, upper, incr, x);
    forall t: nat, k: nat
      ensures ChunkRuns(lower, upper, incr, chunk, n, t, k, x) == ChunkRuns(lo, up, step, chunk, n, t, k, y)
    {
      ChunkMirror(lower, upper, incr, chunk, n, t, k, x);
    }
  }

  lemma ChunkOwner(lower: int, upper: int, incr: int, chunk: int, n: nat, x: int) returns (t: nat, k: nat)
    requires incr > 0 && chunk > 0 && n > 0 && IsIteration(lower, upper, incr, x)
    ensures t < n && ChunkRuns(lower, upper, incr, chunk, n, t, k, x)
  {
    IndexOf(lower, incr, x);
    var i := (x - lower) / incr;
    QuotientNat(i, chunk);
    QuotientNat(i / chunk, n);
    RemainderNat(i / chunk, n);
    t, k := (i / chunk) % n, (i / chunk) / n;
    ChunkOwnership(lower, upper, incr, chunk, n, t, k, i);
  }

  /** The remainder by a positive number that takes the sign of the dividend. */
  function Truncated(a: int, b: int): int
    requires b > 0
  {
    if a >= 0 then a % b else -((-a) % b)
  }

  /** The last flag of `__kmpc_for_static_init_4` for a chunked loop with a positive increment. */
  function UpwardsLast(lower: int, upper: int, incr: int, chunk: int, n: nat, t: nat): bool
    requires incr > 0 && chunk > 0 && n > 0
  {
    var span := incr * chunk;
    var beginLastChunk := upper - Truncated(upper, span);
    Truncated(beginLastChunk - (lower + span * t), span * n) == 0
  }

  /** The number of the chunk that holds the last iteration. */
  function LastChunk(lower: int, upper: int, incr: int, chunk: int): int
    requires incr != 0 && chunk > 0
  {
    if incr > 0 then (upper - lower) / (incr * chunk) else (lower - upper) / (-incr * chunk)
  }

  /** Every thread's flag says whether the thread owns the final chunk. */
  ghost predicate UpwardsFlagsRight(lower: int, upper: int, incr: int, chunk: int, n: nat)
    requires incr > 0 && chunk > 0 && n > 0
  {
    forall t ::
        0 <= t < n ==> (UpwardsLast(lower, upper, incr, chunk, n, t) <==> t == LastChunk(lower, upper, incr, chunk) % n)
  }

  lemma UpwardsLastChunk(lower: int, upper: int, incr: int, chunk: int, n: nat, c: int)
    requires incr > 0 && chunk > 0 && n > 0 && lower <= upper && c == LastChunk(lower, upper, incr, chunk)
    ensures c >= 0 && c % n >= 0 && c / n >= 0
    ensures ChunkRuns(lower, upper, incr, chunk, n, c % n, c / n, lower + (Size(lower, upper, incr) - 1) * incr)
  {
    var i := Size(lower, upper, incr) - 1;
    IterationBounds(lower, upper, incr, i);
    QuotientOfQuotient(upper - lower, incr, chunk);
    QuotientNat(upper - lower, incr * chunk);
    RemainderNat(c, n);
    QuotientNat(c, n);
    ChunkOwnership(lower, upper, incr, chunk, n, c % n, c / n, i);
  }

  lemma QuotientOfQuotient(a: int, b: int, c: int)
    requires b > 0 && c > 0
    ensures b * c > 0 && a / b / c == a / (b * c)
  {
    var q := a / b / c;
    DivBounds(a, b);
    DivBounds(a / b, c);
    ScaleOrder(q * c, a / b, b);
    ScaleOrder(a / b + 1, (q + 1) * c, b);
    assert (q * c) * b == q * (b * c) && ((q + 1) * c) * b == (q + 1) * (b * c);
    DivUnique(a, b * c, q);
  }

  lemma RemainderZero(a: int, b: int)
    requires b > 0
    ensures Truncated(a, b) == 0 <==> a % b == 0
  {
    if a < 0 {
      DivBounds(a, b);
      DivBounds(-a, b);
      if a % b == 0 {
        assert -a == (-(a / b)) * b;
        MultipleMod(-(a / b), b);
      }
      if (-a) % b == 0 {
        assert a == (-((-a) / b)) * b;
        MultipleMod(-((-a) / b), b);
      }
    }
  }

  /** `beginLastChunk` is a multiple of the span: the upper bound rounded towards zero. */
  lemma RoundedUpper(upper: int, span: int)
    requires span > 0
    ensures var q := upper / span;
            upper - Truncated(upper, span) == span * (if upper < 0 && upper % span != 0 then q + 1 else q)
  {
    DivBounds(upper, span);
    if upper < 0 {
      DivBounds(-upper, span);
      var p := (-upper) / span;
      assert upper - Truncated(upper, span) == (-p) * span;
      if upper % span == 0 {
        RemainderZero(upper, span);
      } else {
        assert (upper / span) * span < upper < (upper / span + 1) * span;
        DivUnique(-upper, span, -(upper / span) - 1);
      }
    }
  }

  /** With an aligned lower bound, chunk numbers are differences of quotients. */
  lemma AlignedChunk(lower: int, upper: int, span: int)
    requires span > 0 && lower % span == 0
    ensures (upper - lower) / span == upper / span - lower / span
  {
    DivBounds(lower, span);
    DivBounds(upper, span);
    var q := upper / span - lower / span;
    assert q * span <= upper - lower < (q + 1) * span;
    DivUnique(upper - lower, span, q);
  }

  /** With an aligned lower bound, the flag of thread `t` tests whether `t` is congruent to a chunk number. */
  lemma AlignedFlag(lower: int, upper: int, incr: int, chunk: int, n: nat, t: nat)
    requires incr > 0 && chunk > 0 && n > 0 && lower % (incr * chunk) == 0 && t < n
    ensures var c := LastChunk(lower, upper, incr, chunk);
            var shown := if upper < 0 && upper % (incr * chunk) != 0 then c + 1 else c;
            UpwardsLast(lower, upper, incr, chunk, n, t) <==> t == shown % n
  {
    var span := incr * chunk;
    var l := lower / span;
    var b := if upper < 0 && upper % span != 0 then upper / span + 1 else upper / span;
    RoundedUpper(upper, span);
    AlignedChunk(lower, upper, span);
    DivBounds(lower, span);
    FlagDistance(span, b, l, t, n);
    OneResidue(b - l, t, n);
  }

  lemma FlagDistance(span: int, b: int, l: int, t: nat, n: nat)
    requires span > 0 && n > 0
    ensures span * n > 0
    ensures Truncated(span * b - (l * span + span * t), span * n) == 0 <==> (b - l - t) % n == 0
  {
    assert span * b - (l * span + span * t) == span * (b - l - t);
    ScaleDivides(span, b - l - t, n);
    RemainderZero(span * (b - l - t), span * n);
  }

  /** The condition under which the last flags of a chunked loop are right. */
  predicate UpwardsCondition(lower: int, upper: int, incr: int, chunk: int, n: nat)
    requires incr > 0 && chunk > 0 && n > 0
  {
    lower % (incr * chunk) == 0 && (upper >= 0 || upper % (incr * chunk) == 0 || n == 1)
  }

  /** A raised flag shows that the lower bound is aligned. */
  lemma FlagMeansAligned(lower: int, upper: int, incr: int, chunk: int, n: nat, t: nat)
    requires incr > 0 && chunk > 0 && n > 0 && t < n && UpwardsLast(lower, upper, incr, chunk, n, t)
    ensures lower % (incr * chunk) == 0
  {
    var span := incr * chunk;
    var q := if upper < 0 && upper % span != 0 then upper / span + 1 else upper / span;
    RoundedUpper(upper, span);
    var d := span * q - (lower + span * t);
    ScaleDivides(span, 0, n);
    RemainderZero(d, span * n);
    DivBounds(d, span * n);
    assert lower == (q - t - (d / (span * n)) * n) * span;
    MultipleMod(q - t - (d / (span * n)) * n, span);
  }

  lemma NextResidueDiffers(c: int, n: nat)
    requires n > 1
    ensures (c + 1) % n != c % n
  {
    DivBounds(c, n);
    if c % n + 1 < n {
      DivUnique(c + 1, n, c / n);
    } else {
      DivUnique(c + 1, n, c / n + 1);
    }
    DivBounds(c + 1, n);
  }

  /**
    The last flags of a chunked loop are right for all threads if and only if the lower bound is a multiple
    of the span and the upper bound is not a negative number off the span grid (or there is one thread).
    */
  lemma UpwardsLastFlags(lower: int, upper: int, incr: int, chunk: int, n: nat)
    requires incr > 0 && chunk > 0 && n > 0 && lower <= upper
    ensures UpwardsFlagsRight(lower, upper, incr, chunk, n) <==> UpwardsCondition(lower, upper, incr, chunk, n)
  {
    var span := incr * chunk;
    var c := LastChunk(lower, upper, incr, chunk);
    DivBounds(c, n);
    if UpwardsFlagsRight(lower, upper, incr, chunk, n) {
      FlagMeansAligned(lower, upper, incr, chunk, n, c % n);
      AlignedFlag(lower, upper, incr, chunk, n, c % n);
      if n > 1 {
        NextResidueDiffers(c, n);
      }
    }
    if UpwardsCondition(lower, upper, incr, chunk, n) {
      forall t | 0 <= t < n
        ensures UpwardsLast(lower, upper, incr, chunk, n, t) <==> t == c % n
      {
        AlignedFlag(lower, upper, incr, chunk, n, t);
      }
    }
  }

  // ----- The last flag for increments of either sign -----

  /** C's remainder: it takes the sign of the dividend, and the sign of the divisor does not matter. */
  function CRemainder(a: int, b: int): int
    requires b != 0
  {
    Truncated(a, if b > 0 then b else -b)
  }

  lemma NonZeroProduct(incr: int, chunk: int, n: nat)
    requires incr != 0 && chunk > 0 && n > 0
    ensures incr * chunk != 0 && incr * chunk * n != 0
    ensures incr > 0 ==> incr * chunk > 0 && incr * chunk * n > 0
  {
    if incr > 0 {
      ScaleOrder(1, chunk, incr);
      ScaleOrder(1, n, incr * chunk);
    } else {
      Negated(incr, chunk);
      ScaleOrder(1, chunk, -incr);
      Negated(incr * chunk, n);
      ScaleOrder(1, n, -incr * chunk);
    }
  }

  /** The last flag of `__kmpc_for_static_init_4` for a chunked loop. */
  function ChunkLast(lower: int, upper: int, incr: int, chunk: int, n: nat, t: nat): bool
    requires incr != 0 && chunk > 0 && n > 0
  {
    NonZeroProduct(incr, chunk, n);
    var span := incr * chunk;
    var beginLastChunk := upper - CRemainder(upper, span);
    CRemainder(beginLastChunk - (lower + span * t), span * n) == 0
  }

  lemma UpwardsFlag(lower: int, upper: int, incr: int, chunk: int, n: nat, t: nat)
    requires incr > 0 && chunk > 0 && n > 0
    ensures ChunkLast(lower, upper, incr, chunk, n, t) == UpwardsLast(lower, upper, incr, chunk, n, t)
  {
    NonZeroProduct(incr, chunk, n);
  }

  lemma TruncatedMirror(a: int, b: int)
    requires b > 0
    ensures Truncated(-a, b) == -Truncated(a, b)
  {}

  lemma DownwardsFlag(lower: int, upper: int, incr: int, chunk: int, n: nat, t: nat)
    requires incr < 0 && chunk > 0 && n > 0
    ensures ChunkLast(lower, upper, incr, chunk, n, t) == UpwardsLast(-lower, -upper, -incr, chunk, n, t)
  {
    var span := incr * chunk;
    NonZeroProduct(-incr, chunk, n);
    Negated(incr, chunk);
    Negated(span, t);
    Negated(span, n);
    TruncatedMirror(upper, -span);
    TruncatedMirror(upper - Truncated(upper, -span) - (lower + span * t), -span * n);
  }

  /** Every thread's flag says whether the thread owns the final chunk. */
  ghost predicate ChunkFlagsRight(lower: int, upper: int, incr: int, chunk: int, n: nat)
    requires incr != 0 && chunk > 0 && n > 0
  {
    forall t ::
        0 <= t < n ==> (ChunkLast(lower, upper, incr, chunk, n, t) <==> t == LastChunk(lower, upper, incr, chunk) % n)
  }

  /** The condition under which the last flags of a chunked loop are right. */
  predicate ChunkFlagCondition(lower: int, upper: int, incr: int, chunk: int, n: nat)
    requires incr != 0 && chunk > 0 && n > 0
  {
    NonZeroProduct(incr, chunk, n);
    && CRemainder(lower, incr * chunk) == 0
    && ((if incr > 0 then upper >= 0 else upper <= 0) || CRemainder(upper, incr * chunk) == 0 || n == 1)
  }

  lemma UpwardsFlagsIff(lower: int, upper: int, incr: int, chunk: int, n: nat)
    requires incr > 0 && chunk > 0 && n > 0 && lower <= upper
    ensures ChunkFlagsRight(lower, upper, incr, chunk, n) <==> ChunkFlagCondition(lower, upper, incr, chunk, n)
  {
    NonZeroProduct(incr, chunk, n);
    UpwardsLastFlags(lower, upper, incr, chunk, n);
    RemainderZero(lower, incr * chunk);
    RemainderZero(upper, incr * chunk);
    forall t | 0 <= t < n
      ensures ChunkLast(lower, upper, incr, chunk, n, t) == UpwardsLast(lower, upper, incr, chunk, n, t)
    {
      UpwardsFlag(lower, upper, incr, chunk, n, t);
    }
  }

  lemma DownwardsCondition(lower: int, upper: int, incr: int, chunk: int, n: nat)
    requires incr < 0 && chunk > 0 && n > 0
    ensures ChunkFlagCondition(lower, upper, incr, chunk, n) == UpwardsCondition(-lower, -upper, -incr, chunk, n)
  {
    NonZeroProduct(-incr, chunk, n);
    NonZeroProduct(incr, chunk, n);
    Negated(incr, chunk);
    TruncatedMirror(lower, -incr * chunk);
    TruncatedMirror(upper, -incr * chunk);
    RemainderZero(-lower, -incr * chunk);
    RemainderZero(-upper, -incr * chunk);
  }

  lemma DownwardsFlagsIff(lower: int, upper: int, incr: int, chunk: int, n: nat, l: int, u: int, i: int)
    requires incr < 0 && chunk > 0 && n > 0 && upper <= lower && l == -lower && u == -upper && i == -incr
    ensures ChunkFlagsRight(lower, upper, incr, chunk, n) <==> ChunkFlagCondition(lower, upper, incr, chunk, n)
  {
    UpwardsLastFlags(l, u, i, chunk, n);
    DownwardsCondition(lower, upper, incr, chunk, n);
    DownwardsLastChunk(lower, upper, incr, chunk);
    forall t | 0 <= t < n
      ensures ChunkLast(lower, upper, incr, chunk, n, t) == UpwardsLast(l, u, i, chunk, n, t)
    {
      DownwardsFlag(lower, upper, incr, chunk, n, t);
    }
  }

  lemma DownwardsLastChunk(lower: int, upper: int, incr: int, chunk: int)
    requires incr < 0 && chunk > 0
    ensures LastChunk(lower, upper, incr, chunk) == LastChunk(-lower, -upper, -incr, chunk)
  {}

  /**
    The last flags of a chunked loop are right for all threads if and only if the lower bound is a multiple
    of the span and the upper bound does not lie off the span grid on the far side of zero (or there is one thread).
    */
  lemma ChunkedLastFlags(lower: int, upper: int, incr: int, chunk: int, n: nat)
    requires NonEmpty(lower, upper, incr) && chunk > 0 && n > 0
    ensures ChunkFlagsRight(lower, upper, incr, chunk, n) <==> ChunkFlagCondition(lower, upper, incr, chunk, n)
  {
    if incr > 0 {
      UpwardsFlagsIff(lower, upper, incr, chunk, n);
    } else {
      DownwardsFlagsIff(lower, upper, incr, chunk, n, -lower, -upper, -incr);
    }
  }

  /** A loop from 1 to 2 in chunks of two on two threads: thread 0 owns the only chunk, but nobody is flagged. */
  lemma ChunkedCounterexample(chunk: int, n: nat, t: nat)
    requires chunk == 2 && n == 2 && t < 2
    ensures LastChunk(1, 2, 1, chunk) == 0 && !ChunkLast(1, 2, 1, chunk, n, t)
  {
    DivUnique(1, chunk, 0);
    UpwardsFlag(1, 2, 1, chunk, n, t);
    if UpwardsLast(1, 2, 1, chunk, n, t) {
      FlagMeansAligned(1, 2, 1, chunk, n, t);
      DivBounds(1, chunk);
    }
  }

  /** The last iteration lies in the final chunk, which is the one its owner runs last. */
  lemma LastChunkIsLast(lower: int, upper: int, incr: int, chunk: int, n: nat)
    requires NonEmpty(lower, upper, incr) && chunk > 0 && n > 0
    ensures var c := LastChunk(lower, upper, incr, chunk);
            && c >= 0
            && ChunkRuns(lower, upper, incr, chunk, n, c % n, c / n, lower + (Size(lower, upper, incr) - 1) * incr)
  {
    if incr > 0 {
      UpwardsLastChunk(lower, upper, incr, chunk, n, LastChunk(lower, upper, incr, chunk));
    } else {
      var c, i := LastChunk(lower, upper, incr, chunk), Size(lower, upper, incr) - 1;
      UpwardsLastChunk(-lower, -upper, -incr, chunk, n, c);
      RemainderNat(c, n);
      QuotientNat(c, n);
      ChunkMirror(lower, upper, incr, chunk, n, c % n, c / n, lower + i * incr);
      Negated(i, incr);
    }
  }

  // ----- The last flag in unsigned 64-bit arithmetic -----

  /** The last flag of `__kmpc_for_static_init_8u` for a chunked loop: the distance wraps before the remainder. */
  function ChunkLast64(lower: int, upper: int, incr: int, chunk: int, n: nat, t: nat): bool
    requires incr > 0 && chunk > 0 && n > 0
  {
    var span := incr * chunk;
    ((upper - upper % span - (lower + span * t)) % TWO_64) % (span * n) == 0
  }

  ghost predicate ChunkFlags64Right(lower: int, upper: int, incr: int, chunk: int, n: nat)
    requires incr > 0 && chunk > 0 && n > 0
  {
    forall t ::
        0 <= t < n ==> (ChunkLast64(lower, upper, incr, chunk, n, t) <==> t == LastChunk(lower, upper, incr, chunk) % n)
  }

  /** Whether the wrapped distance of a thread beyond the final chunk can be mistaken for a multiple of the stride. */
  predicate WrapHarmless(lower: int, upper: int, incr: int, chunk: int, n: nat)
    requires incr > 0 && chunk > 0 && n > 0
  {
    var span := incr * chunk;
    var r := TWO_64 % (span * n);
    r == 0 || r % span != 0 || r / span + LastChunk(lower, upper, incr, chunk) >= n
  }

  /** Numbers smaller than the modulus: a difference is divisible exactly if the remainders agree. */
  lemma WrappedDistance(d: int, m: int)
    requires 0 < d < m <= TWO_64
    ensures ((-d) % TWO_64) % m == 0 <==> TWO_64 % m == d
  {
    assert (-d) % TWO_64 == TWO_64 - d by {
      DivUnique(-d, TWO_64, -1);
      DivBounds(-d, TWO_64);
    }
    DivBounds(TWO_64, m);
    var q, r := TWO_64 / m, TWO_64 % m;
    if r >= d {
      DivUnique(TWO_64 - d, m, q);
      DivBounds(TWO_64 - d, m);
    } else {
      assert q * m - m == (q - 1) * m;
      DivUnique(TWO_64 - d, m, q - 1);
      DivBounds(TWO_64 - d, m);
    }
  }

  lemma Aligned64(lower: int, upper: int, incr: int, chunk: int, n: nat, t: nat)
    requires incr > 0 && chunk > 0 && n > 0 && 0 <= lower <= upper < TWO_64 && lower % (incr * chunk) == 0 && t < n
    ensures var span, c := incr * chunk, LastChunk(lower, upper, incr, chunk);
            && c >= 0
            && upper - upper % span - (lower + span * t) == span * (c - t)
            && span * c <= upper
  {
    NonZeroProduct(incr, chunk, n);
    AlignedDistance(lower, upper, incr * chunk, t);
  }

  lemma AlignedDistance(lower: int, upper: int, span: int, t: nat)
    requires span > 0 && 0 <= lower <= upper && lower % span == 0
    ensures var c := (upper - lower) / span;
            && c >= 0 && span * c <= upper
            && upper - upper % span - (lower + span * t) == span * (c - t)
  {
    var c := (upper - lower) / span;
    AlignedChunk(lower, upper, span);
    DivBounds(lower, span);
    DivBounds(upper, span);
    DivBounds(upper - lower, span);
    QuotientNat(upper - lower, span);
    Distribute(upper / span, -(lower / span), span);
    Distribute(c, 0 - t, span);
  }

  lemma FlagWithinLoop(lower: int, upper: int, incr: int, chunk: int, n: nat, t: nat)
    requires incr > 0 && chunk > 0 && n > 0 && 0 <= lower <= upper < TWO_64 && lower % (incr * chunk) == 0
    requires t < n && t <= LastChunk(lower, upper, incr, chunk)
    ensures ChunkLast64(lower, upper, incr, chunk, n, t) <==> t == LastChunk(lower, upper, incr, chunk) % n
  {
    NonZeroProduct(incr, chunk, n);
    Aligned64(lower, upper, incr, chunk, n, t);
    DistanceWithinLoop(incr * chunk, LastChunk(lower, upper, incr, chunk), n, t);
  }

  lemma DistanceWithinLoop(span: int, c: int, n: nat, t: nat)
    requires span > 0 && t < n && t <= c && span * c < TWO_64
    ensures span * n > 0
    ensures ((span * (c - t)) % TWO_64) % (span * n) == 0 <==> t == c % n
  {
    ScaleOrder(0, c - t, span);
    ScaleOrder(c - t, c, span);
    SmallRemainder(span * (c - t), TWO_64);
    ScaleDivides(span, c - t, n);
    OneResidue(c, t, n);
  }

  lemma FlagBeyondLoop(lower: int, upper: int, incr: int, chunk: int, n: nat, t: nat)
    requires incr > 0 && chunk > 0 && n > 0 && 0 <= lower <= upper < TWO_64 && lower % (incr * chunk) == 0
    requires LastChunk(lower, upper, incr, chunk) < t < n && incr * chunk * n <= TWO_64
    ensures var span, c := incr * chunk, LastChunk(lower, upper, incr, chunk);
            ChunkLast64(lower, upper, incr, chunk, n, t) <==> TWO_64 % (span * n) == span * (t - c)
  {
    var span, c := incr * chunk, LastChunk(lower, upper, incr, chunk);
    Aligned64(lower, upper, incr, chunk, n, t);
    ScaleOrder(1, t - c, span);
    ScaleOrder(t - c + 1, n, span);
    assert span * (c - t) == -(span * (t - c));
    WrappedDistance(span * (t - c), span * n);
  }

  /** The flag of any thread, in terms of the remainder of 2^64. */
  lemma Flag64(lower: int, upper: int, incr: int, chunk: int, n: nat, t: nat)
    requires incr > 0 && chunk > 0 && n > 0 && 0 <= lower <= upper < TWO_64 && lower % (incr * chunk) == 0
    requires t < n && incr * chunk * n <= TWO_64
    ensures var span, c := incr * chunk, LastChunk(lower, upper, incr, chunk);
            && c >= 0
            && (ChunkLast64(lower, upper, incr, chunk, n, t)
                <==> if t <= c then t == c % n else TWO_64 % (span * n) == span * (t - c))
  {
    Aligned64(lower, upper, incr, chunk, n, t);
    if t <= LastChunk(lower, upper, incr, chunk) {
      FlagWithinLoop(lower, upper, incr, chunk, n, t);
    } else {
      FlagBeyondLoop(lower, upper, incr, chunk, n, t);
    }
  }

  lemma SmallRemainder(c: int, n: int)
    requires 0 <= c < n
    ensures c % n == c
  {
    DivUnique(c, n, 0);
    DivBounds(c, n);
  }

  lemma QuotientOfMultiple(k: int, span: int)
    requires span > 0 && k > 0
    ensures span * k > 0 && (span * k) % span == 0 && (span * k) / span == k
  {
    ScaleOrder(1, k, span);
    DivUnique(span * k, span, k);
    DivBounds(span * k, span);
  }

  /** A remainder that does no harm is not the distance of any thread beyond the final chunk. */
  lemma HarmlessDistance(r: int, span: int, c: int, n: nat, t: nat)
    requires span > 0 && 0 <= c < t < n
    requires r == 0 || r % span != 0 || r / span + c >= n
    ensures r != span * (t - c)
  {
    QuotientOfMultiple(t - c, span);
  }

  /** A remainder that does harm is the distance of a thread beyond the final chunk. */
  lemma HarmfulDistance(r: int, span: int, c: int, n: nat) returns (t: nat)
    requires span > 0 && 0 <= c && 0 < r && r % span == 0 && r / span + c < n
    ensures c < t < n && r == span * (t - c)
  {
    DivBounds(r, span);
    t := c + r / span;
  }

  lemma AlignedFlags64(lower: int, upper: int, incr: int, chunk: int, n: nat)
    requires incr > 0 && chunk > 0 && n > 0 && 0 <= lower <= upper < TWO_64
    requires lower % (incr * chunk) == 0 && incr * chunk * n <= TWO_64
    ensures ChunkFlags64Right(lower, upper, incr, chunk, n) <==> WrapHarmless(lower, upper, incr, chunk, n)
  {
    if WrapHarmless(lower, upper, incr, chunk, n) {
      HarmlessWrap(lower, upper, incr, chunk, n);
    } else {
      HarmfulWrap(lower, upper, incr, chunk, n);
    }
  }

  lemma HarmlessWrap(lower: int, upper: int, incr: int, chunk: int, n: nat)
    requires incr > 0 && chunk > 0 && n > 0 && 0 <= lower <= upper < TWO_64
    requires lower % (incr * chunk) == 0 && incr * chunk * n <= TWO_64
    requires WrapHarmless(lower, upper, incr, chunk, n)
    ensures ChunkFlags64Right(lower, upper, incr, chunk, n)
  {
    var span, c := incr * chunk, LastChunk(lower, upper, incr, chunk);
    forall t | 0 <= t < n
      ensures ChunkLast64(lower, upper, incr, chunk, n, t) <==> t == c % n
    {
      Flag64(lower, upper, incr, chunk, n, t);
      if t > c {
        HarmlessDistance(TWO_64 % (span * n), span, c, n, t);
        SmallRemainder(c, n);
      }
    }
  }

  lemma HarmfulWrap(lower: int, upper: int, incr: int, chunk: int, n: nat)
    requires incr > 0 && chunk > 0 && n > 0 && 0 <= lower <= upper < TWO_64
    requires lower % (incr * chunk) == 0 && incr * chunk * n <= TWO_64
    requires !WrapHarmless(lower, upper, incr, chunk, n)
    ensures !ChunkFlags64Right(lower, upper, incr, chunk, n)
  {
    var span, c := incr * chunk, LastChunk(lower, upper, incr, chunk);
    Flag64(lower, upper, incr, chunk, n, 0);
    DivBounds(TWO_64, span * n);
    var t := HarmfulDistance(TWO_64 % (span * n), span, c, n);
    Flag64(lower, upper, incr, chunk, n, t);
    SmallRemainder(c, n);
  }

  /** The lower bound is off the span grid by `r`; the quotients of the bounds are `q` apart. */
  lemma Unaligned64(lower: int, upper: int, span: int, t: nat)
    requires span > 0 && 0 <= lower <= upper
    ensures var q, r := upper / span - lower / span, lower % span;
            && q >= 0 && 0 <= r < span
            && upper - upper % span - (lower + span * t) == span * (q - t) - r
            && (upper - lower) / span == if upper % span >= r then q else q - 1
  {
    var q, r, s := upper / span - lower / span, lower % span, upper % span;
    DivBounds(lower, span);
    DivBounds(upper, span);
    QuotientsOrdered(lower, upper, span);
    Distribute(upper / span, -(lower / span), span);
    assert upper - lower == q * span + s - r;
    assert span * (q - t) == q * span - span * t;
    Distribute(q, -1, span);
    Distribute(q, 1, span);
    DivUnique(upper - lower, span, if s >= r then q else q - 1);
  }

  lemma QuotientsOrdered(a: int, b: int, m: int)
    requires m > 0 && a <= b
    ensures a / m <= b / m
  {
    DivBounds(a, m);
    DivBounds(b, m);
    ScaleOrder(b / m + 1, a / m, m);
  }

  lemma OffGrid(k: int, r: int, span: int, n: nat)
    requires 0 < r < span && n > 0
    ensures span * n > 0 && (span * k - r) % (span * n) != 0
  {
    ScaleOrder(1, n, span);
    var d := span * k - r;
    if d % (span * n) == 0 {
      DivBounds(d, span * n);
      var j := d / (span * n);
      assert d == (j * n) * span;
      MultipleMod(j * n, span);
      Distribute(k, -1, span);
      DivUnique(d, span, k - 1);
      DivBounds(d, span);
    }
  }

  lemma DistanceWithin(k: int, r: int, span: int, n: nat)
    requires 0 < r < span && n > 0 && k > 0 && span * k - r < TWO_64
    ensures span * n > 0 && ((span * k - r) % TWO_64) % (span * n) != 0
  {
    OffGrid(k, r, span, n);
    ScaleOrder(1, k, span);
    SmallRemainder(span * k - r, TWO_64);
  }

  lemma DistanceBeyond(k: int, r: int, span: int, n: nat)
    requires 0 < r < span && 0 <= k < n && span * n <= TWO_64
    ensures span * n > 0 && (((span * (-k) - r) % TWO_64) % (span * n) == 0 <==> TWO_64 % (span * n) == r + span * k)
  {
    ScaleOrder(k + 1, n, span);
    ScaleOrder(0, k, span);
    Distribute(k, 1, span);
    assert span * (-k) - r == -(r + span * k);
    WrappedDistance(r + span * k, span * n);
  }

  lemma SpanNonNegative(span: int, t: nat)
    requires span > 0
    ensures span * t >= 0
  {}

  /** The distance that the flag is about is zero modulo the stride only beyond the loop, where it wraps. */
  lemma UnalignedDistance(lower: int, upper: int, span: int, n: nat, t: nat, q: int, r: int)
    requires span > 0 && t < n && 0 <= lower <= upper < TWO_64 && span * n <= TWO_64
    requires q == upper / span - lower / span && r == lower % span > 0
    ensures span * n > 0
    ensures ((upper - upper % span - (lower + span * t)) % TWO_64) % (span * n) == 0
       <==> t >= q && TWO_64 % (span * n) == r + span * (t - q)
  {
    Unaligned64(lower, upper, span, t);
    if t < q {
      SpanNonNegative(span, t);
      RemainderNat(upper, span);
      DistanceWithin(q - t, r, span, n);
    } else {
      DistanceBeyond(t - q, r, span, n);
    }
  }

  /** With an unaligned lower bound only a wrapped distance can raise a flag. */
  lemma UnalignedFlag64(lower: int, upper: int, incr: int, chunk: int, n: nat, t: nat, q: int, r: int)
    requires incr > 0 && chunk > 0 && t < n && 0 <= lower <= upper < TWO_64 && incr * chunk * n <= TWO_64
    requires q == upper / (incr * chunk) - lower / (incr * chunk) && r == lower % (incr * chunk) > 0
    ensures incr * chunk * n > 0
    ensures ChunkLast64(lower, upper, incr, chunk, n, t)
       <==> t >= q && TWO_64 % (incr * chunk * n) == r + incr * chunk * (t - q)
  {
    UnalignedDistance(lower, upper, incr * chunk, n, t, q, r);
  }

  /** With an unaligned lower bound, whether the wrapped distance raises the owner's flag and no other. */
  predicate LuckyWrap(lower: int, upper: int, incr: int, chunk: int, n: nat)
    requires incr > 0 && chunk > 0 && n > 0
  {
    var span := incr * chunk;
    && upper % span >= lower % span && LastChunk(lower, upper, incr, chunk) < n
    && TWO_64 % (span * n) == lower % span
  }

  lemma LuckyFlags(lower: int, upper: int, incr: int, chunk: int, n: nat)
    requires incr > 0 && chunk > 0 && n > 0 && 0 <= lower <= upper < TWO_64 && incr * chunk * n <= TWO_64
    requires lower % (incr * chunk) > 0 && LuckyWrap(lower, upper, incr, chunk, n)
    ensures ChunkFlags64Right(lower, upper, incr, chunk, n)
  {
    var span := incr * chunk;
    var q, r := upper / span - lower / span, lower % span;
    Unaligned64(lower, upper, span, 0);
    SmallRemainder(q, n);
    forall t | 0 <= t < n
      ensures ChunkLast64(lower, upper, incr, chunk, n, t) <==> t == LastChunk(lower, upper, incr, chunk) % n
    {
      UnalignedFlag64(lower, upper, incr, chunk, n, t, q, r);
      ScaleOrder(1, t - q, span);
      assert t == q ==> span * (t - q) == 0;
    }
  }

  lemma UnluckyFlags(lower: int, upper: int, incr: int, chunk: int, n: nat)
    requires incr > 0 && chunk > 0 && n > 0 && 0 <= lower <= upper < TWO_64 && incr * chunk * n <= TWO_64
    requires lower % (incr * chunk) > 0 && ChunkFlags64Right(lower, upper, incr, chunk, n)
    ensures LuckyWrap(lower, upper, incr, chunk, n)
  {
    var span, c := incr * chunk, LastChunk(lower, upper, incr, chunk);
    var q, r := upper / span - lower / span, lower % span;
    Unaligned64(lower, upper, span, 0);
    DivBounds(c, n);
    var t := c % n;
    UnalignedFlag64(lower, upper, incr, chunk, n, t, q, r);
    assert c >= 0 by {
      DivBounds(upper - lower, span);
      ScaleOrder(c + 1, 0, span);
    }
    RemainderAtMost(c, n);
    assert t == c == q;
    assert span * (t - q) == 0;
  }

  lemma RemainderAtMost(c: nat, n: nat)
    requires n > 0
    ensures 0 <= c % n <= c && c % n < n
  {
    DivBounds(c, n);
    QuotientNat(c, n);
    ScaleOrder(0, c / n, n);
  }

  /** When the last flags of the unsigned 64-bit version are right. */
  predicate ChunkFlag64Condition(lower: int, upper: int, incr: int, chunk: int, n: nat)
    requires incr > 0 && chunk > 0 && n > 0
  {
    if lower % (incr * chunk) == 0 then WrapHarmless(lower, upper, incr, chunk, n)
    else LuckyWrap(lower, upper, incr, chunk, n)
  }

  /**
    In the unsigned 64-bit version the last flags are right for all threads if and only if the lower bound is
    aligned and the wrapped distance of the threads beyond the final chunk does no harm, or it is unaligned and
    the wrapped distance happens to raise the right flag.
    */
  lemma Chunked64LastFlags(lower: int, upper: int, incr: int, chunk: int, n: nat)
    requires incr > 0 && chunk > 0 && n > 0 && 0 <= lower <= upper < TWO_64 && incr * chunk * n <= TWO_64
    ensures ChunkFlags64Right(lower, upper, incr, chunk, n) <==> ChunkFlag64Condition(lower, upper, incr, chunk, n)
  {
    RemainderNat(lower, incr * chunk);
    if lower % (incr * chunk) == 0 {
      AlignedFlags64(lower, upper, incr, chunk, n);
    } else {
      if LuckyWrap(lower, upper, incr, chunk, n) {
        LuckyFlags(lower, upper, incr, chunk, n);
      }
      if ChunkFlags64Right(lower, upper, incr, chunk, n) {
        UnluckyFlags(lower, upper, incr, chunk, n);
      }
    }
  }

  /** One iteration, three threads, chunk size 1: thread 0 owns the final chunk, but thread 1 is flagged. */
  lemma Chunked64Counterexample(incr: int, chunk: int, n: nat)
    requires incr == 1 && chunk == 1 && n == 3
    ensures LastChunk(0, 0, incr, chunk) == 0 && ChunkLast64(0, 0, incr, chunk, n, 1)
  {
    var span := incr * chunk;
    assert span == 1 && span * n == n;
    assert 0 - 0 % span - (0 + span * 1) == -1;
    WrappedDistance(1, n);
  }
}
