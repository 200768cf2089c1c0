/**
  `__kmpc_for_static_init_4` and `__kmpc_for_static_init_8u` of software/snRuntime/src/omp/kmp.c with their
  integer widths, proved against the schedules.  The preconditions say what C demands: the increment is not zero,
  and no operation on signed integers overflows.  Conversions and unsigned operations wrap.
  */
module LoopInit {
  import opened Arithmetic
  import opened Loops
  import opened ShiftedSchedule
  import opened StaticSchedule
  import opened StaticSchedule64
  import opened ChunkedSchedule
  import opened ChunkedSchedule64

  datatype Kind = StaticChunked | Static | Other

  /** `x` is one of the values of a signed integer type with `half` values to either side of zero. */
  predicate InRange(x: int, half: int) {
    -half <= x < half
  }

  const HALF_32: int := TWO_32 / 2
  const HALF_64: int := TWO_64 / 2

  lemma Fits32(x: int)
    requires InRange(x, HALF_32)
    ensures I32(U32(x)) == x && (x >= 0 ==> U32(x) == x) && I32(x) == x
  {}

  lemma SameWrap32(x: int)
    ensures I32(U32(x)) == I32(x)
  {
    DivBounds(x, TWO_32);
  }

  /** C's quotient, which truncates towards zero. */
  function CQuotient(a: int, b: int): int
    requires b != 0
  {
    var q := (if a < 0 then -a else a) / (if b < 0 then -b else b);
    if (a < 0) == (b < 0) then q else -q
  }

  /** For a non-empty loop the truncated quotient counts the iterations. */
  lemma SizeByQuotient(lower: int, upper: int, incr: int)
    requires NonEmpty(lower, upper, incr)
    ensures CQuotient(upper - lower, incr) + 1 == Size(lower, upper, incr)
    ensures 0 < Size(lower, upper, incr) <= Extent(lower, upper, incr) + 1
  {
    var e, i := Extent(lower, upper, incr), if incr > 0 then incr else -incr;
    QuotientAtMost(e, i);
    if e == 0 {
      DivUnique(0, i, 0);
    }
  }

  /** The distance between the bounds. */
  function Extent(lower: int, upper: int, incr: int): nat
    requires NonEmpty(lower, upper, incr)
  {
    if incr > 0 then upper - lower else lower - upper
  }

  // ----- 32 bits, with a chunk size -----

  /** No signed operation of the chunked branch overflows. */
  predicate Chunked4Defined(lower: int, upper: int, incr: int, chunk: int, n: nat, t: nat)
    requires incr != 0 && chunk > 0 && n > 0
  {
    NonZeroProduct(incr, chunk, n);
    var span := incr * chunk;
    var lo := I32(U32(lower + span * t));
    var begin := upper - CRemainder(upper, span);
    && InRange(lower, HALF_32) && InRange(upper, HALF_32) && InRange(span, HALF_32) && InRange(span * n, HALF_32)
    && InRange(lo + span, HALF_32) && InRange(lo + span - incr, HALF_32)
    && InRange(begin, HALF_32) && InRange(begin - lo, HALF_32)
    && !(upper == -HALF_32 && span == -1) && !(begin - lo == -HALF_32 && span * n == -1)
  }

  lemma StrideOfChunks(lower: int, incr: int, chunk: int, n: nat, t: nat)
    ensures ChunkLower(lower, incr, chunk, n, t, 0) == lower + incr * chunk * t
    ensures ChunkLower(lower, incr, chunk, n, t, 1) == lower + incr * chunk * t + incr * chunk * n
  {}

  lemma WrapsOnce32(x: int)
    ensures HALF_32 <= x < TWO_32 + HALF_32 ==> I32(x) == x - TWO_32
    ensures -TWO_32 - HALF_32 <= x < -HALF_32 ==> I32(x) == x + TWO_32
  {}

  lemma TruncatedBounds(a: int, b: int)
    requires b > 0
    ensures -b < Truncated(a, b) < b && (a >= 0 ==> Truncated(a, b) >= 0) && (a <= 0 ==> Truncated(a, b) <= 0)
  {}

  /** A begin that wrapped would make the distance to the final chunk overflow: going up, ... */
  lemma UpwardsBeginFits(lower: int, upper: int, span: int, rest: int, move: int)
    requires lower <= upper && InRange(lower, HALF_32) && InRange(upper, HALF_32)
    requires span > 0 && 0 <= move && move + span < HALF_32 && -span < rest < span && (upper >= 0 ==> rest >= 0)
    requires InRange(upper - rest - I32(lower + move), HALF_32)
    ensures InRange(lower + move, HALF_32)
  {
    WrapsOnce32(lower + move);
  }

  /** ... and going down. */
  lemma DownwardsBeginFits(lower: int, upper: int, span: int, rest: int, move: int)
    requires upper <= lower && InRange(lower, HALF_32) && InRange(upper, HALF_32)
    requires span > 0 && 0 <= move && move + span <= HALF_32 && -span < rest < span && (upper <= 0 ==> rest <= 0)
    requires InRange(upper - rest - I32(lower - move), HALF_32)
    ensures InRange(lower - move, HALF_32)
  {
    WrapsOnce32(lower - move);
  }

  lemma UpwardsChunkFits(lower: int, upper: int, incr: int, chunk: int, n: nat, t: nat, span: int)
    requires t < n && incr > 0 && lower <= upper && chunk > 0 && Chunked4Defined(lower, upper, incr, chunk, n, t)
    requires span == incr * chunk > 0
    ensures InRange(lower + span * t, HALF_32)
  {
    SliceFits(t, n, span);
    TruncatedBounds(upper, span);
    SameWrap32(lower + span * t);
    UpwardsBeginFits(lower, upper, span, Truncated(upper, span), span * t);
  }

  lemma DownwardsChunkFits(lower: int, upper: int, incr: int, chunk: int, n: nat, t: nat, span: int, move: int)
    requires t < n && incr < 0 && upper <= lower && chunk > 0 && Chunked4Defined(lower, upper, incr, chunk, n, t)
    requires span == -(incr * chunk) > 0 && move == -(incr * chunk * t) && 0 <= move && move + span <= HALF_32
    ensures InRange(lower - move, HALF_32)
  {
    TruncatedBounds(upper, span);
    SameWrap32(lower - move);
    DownwardsBeginFits(lower, upper, span, Truncated(upper, span), move);
  }

  /** The extent of the chunks up to that of thread `t`. */
  lemma DownwardsMove(span: int, n: nat, t: nat)
    requires span < 0 && t < n && span * n >= -HALF_32
    ensures 0 <= -(span * t) && -(span * t) - span <= HALF_32
  {
    Negated(span, t);
    Negated(span, n);
    SliceFits(t, n, -span);
  }

  /** In a non-empty loop no thread's first range wraps. */
  lemma ChunkBeginFits(lower: int, upper: int, incr: int, chunk: int, n: nat, t: nat)
    requires t < n && NonEmpty(lower, upper, incr) && chunk > 0 && Chunked4Defined(lower, upper, incr, chunk, n, t)
    ensures InRange(ChunkLower(lower, incr, chunk, n, t, 0), HALF_32)
  {
    StrideOfChunks(lower, incr, chunk, n, t);
    if incr > 0 {
      ScaledAtLeast(incr, chunk);
      UpwardsChunkFits(lower, upper, incr, chunk, n, t, incr * chunk);
    } else {
      Negated(incr, chunk);
      ScaledAtLeast(-incr, chunk);
      DownwardsMove(incr * chunk, n, t);
      DownwardsChunkFits(lower, upper, incr, chunk, n, t, -(incr * chunk), -(incr * chunk * t));
    }
  }

  /** The chunked branch of `__kmpc_for_static_init_4`. */
  method ChunkedRange4(lower: int, upper: int, incr: int, chunk: int, n: nat, t: nat)
    returns (last: bool, lo: int, up: int, stride: int)
    requires t < n && incr != 0 && chunk > 0 && Chunked4Defined(lower, upper, incr, chunk, n, t)
    ensures lo == I32(ChunkLower(lower, incr, chunk, n, t, 0)) && up == lo + incr * chunk - incr
    ensures stride == ChunkLower(lower, incr, chunk, n, t, 1) - ChunkLower(lower, incr, chunk, n, t, 0)
    ensures NonEmpty(lower, upper, incr) ==>
              lo == ChunkLower(lower, incr, chunk, n, t, 0) && last == ChunkLast(lower, upper, incr, chunk, n, t)
  {
    NonZeroProduct(incr, chunk, n);
    StrideOfChunks(lower, incr, chunk, n, t);
    if NonEmpty(lower, upper, incr) {
      ChunkBeginFits(lower, upper, incr, chunk, n, t);
      Fits32(ChunkLower(lower, incr, chunk, n, t, 0));
    }
    var span := incr * chunk;
    stride := span * n;
    SameWrap32(lower + span * t);
    lo := I32(U32(lower + span * t));
    up := lo + span - incr;
    var beginLastChunk := upper - CRemainder(upper, span);
    last := CRemainder(beginLastChunk - lo, stride) == 0;
  }

  // ----- 32 bits, without a chunk size -----

  /** No signed operation of the function's head overflows. */
  predicate HeadDefined(lower: int, upper: int, incr: int) {
    && incr != 0 && InRange(lower, HALF_32) && InRange(upper, HALF_32)
    && InRange(upper - lower, HALF_32) && InRange(CQuotient(upper - lower, incr), HALF_32)
    && InRange(CQuotient(upper - lower, incr) + 1, HALF_32)
  }

  /** The loop size as the code computes it: for an empty loop it may have wrapped. */
  function Size4(lower: int, upper: int, incr: int): int
    requires incr != 0
  {
    U32(CQuotient(upper - lower, incr) + 1)
  }

  function Base4(size: int, n: nat): int
    requires n > 0
  {
    I32(size / n)
  }

  function LeftOver4(size: int, n: nat): int
    requires n > 0
  {
    I32(U32(size - Base4(size, n) * n))
  }

  function Share4(size: int, n: nat, t: nat): int
    requires n > 0
  {
    Base4(size, n) + (if t < LeftOver4(size, n) then 1 else 0)
  }

  /** Where thread `t` begins, before the conversion to 32 bits. */
  function Begin4(lower: int, upper: int, incr: int, n: nat, t: nat): int
    requires incr != 0 && n > 0
  {
    var size := Size4(lower, upper, incr);
    lower + t * Share4(size, n, t) * incr + (if t < LeftOver4(size, n) then 0 else LeftOver4(size, n))
  }

  /** No signed operation of the unchunked branch overflows. */
  predicate Plain4Defined(lower: int, upper: int, incr: int, n: nat, t: nat)
    requires incr != 0 && n > 0
  {
    var size := Size4(lower, upper, incr);
    var share, lo := Share4(size, n, t), I32(Begin4(lower, upper, incr, n, t));
    && InRange(Base4(size, n) * n, HALF_32) && InRange(share, HALF_32)
    && InRange(share * incr, HALF_32) && InRange(lo + share * incr, HALF_32)
    && InRange(lo + share * incr - incr, HALF_32)
  }

  lemma BaseBounds(size: int, n: nat)
    requires size > 0 && n > 0
    ensures 0 <= LeftOver(size, n) < n && 0 <= LeftOver(size, n) <= size && 0 <= Base(size, n) <= size
    ensures Base(size, n) * n == size - LeftOver(size, n)
  {
    BaseAndLeftOver(size, n);
    QuotientAtMost(size, n);
    ScaleOrder(0, Base(size, n), n);
  }

  /** For a non-empty loop the conversions change nothing. */
  lemma SharesFit(lower: int, upper: int, incr: int, n: nat, t: nat)
    requires HeadDefined(lower, upper, incr) && NonEmpty(lower, upper, incr) && n > 0
    ensures var size := Size(lower, upper, incr);
            && Size4(lower, upper, incr) == size && 0 < size < HALF_32
            && Base4(size, n) == Base(size, n) && LeftOver4(size, n) == LeftOver(size, n)
            && Share4(size, n, t) == Share(size, n, t)
            && Begin4(lower, upper, incr, n, t) == StaticLower(lower, upper, incr, n, t)
  {
    var size := Size(lower, upper, incr);
    SizeByQuotient(lower, upper, incr);
    Fits32(size);
    BaseBounds(size, n);
    Fits32(Base(size, n));
    Fits32(LeftOver(size, n));
  }

  /** Going up, no range wraps: one that did would begin at the smallest value and end below it. */
  lemma PlainBeginFits(lower: int, upper: int, incr: int, n: nat, t: nat)
    requires t < n && HeadDefined(lower, upper, incr) && incr > 0 && lower <= upper
    requires Plain4Defined(lower, upper, incr, n, t)
    ensures InRange(StaticLower(lower, upper, incr, n, t), HALF_32)
  {
    var size := Size(lower, upper, incr);
    SharesFit(lower, upper, incr, n, t);
    NoShare(size, n, t);
    if Share(size, n, t) >= 1 {
      ShareWithin(lower, upper, incr, n, t);
    } else {
      SizeBounds(lower, upper, incr);
    }
  }

  /** For a non-empty loop the results are those of the schedule, going up without any wrap. */
  lemma PlainResults(lower: int, upper: int, incr: int, n: nat, t: nat, lo: int, up: int)
    requires t < n && HeadDefined(lower, upper, incr) && Plain4Defined(lower, upper, incr, n, t)
    requires NonEmpty(lower, upper, incr) && lo == I32(Begin4(lower, upper, incr, n, t))
    requires up == lo + Share4(Size4(lower, upper, incr), n, t) * incr - incr
    ensures I32(Size4(lower, upper, incr)) == Size(lower, upper, incr)
    ensures up == lo + Share(Size(lower, upper, incr), n, t) * incr - incr
    ensures incr > 0 || lo == StaticLower(lower, upper, incr, n, t) ==>
              lo == StaticLower(lower, upper, incr, n, t) && up == StaticUpper(lower, upper, incr, n, t)
  {
    SharesFit(lower, upper, incr, n, t);
    Fits32(Size(lower, upper, incr));
    if incr > 0 {
      PlainBeginFits(lower, upper, incr, n, t);
      Fits32(StaticLower(lower, upper, incr, n, t));
    }
  }

  /** The unchunked branch of `__kmpc_for_static_init_4`. */
  method PlainRange4(lower: int, upper: int, incr: int, n: nat, t: nat)
    returns (last: bool, lo: int, up: int, stride: int)
    requires t < n && HeadDefined(lower, upper, incr) && Plain4Defined(lower, upper, incr, n, t)
    ensures lo == I32(Begin4(lower, upper, incr, n, t))
    ensures up == lo + Share4(Size4(lower, upper, incr), n, t) * incr - incr
    ensures stride == I32(Size4(lower, upper, incr)) && (last <==> up == upper && lo <= upper)
    ensures NonEmpty(lower, upper, incr) ==>
              && stride == Size(lower, upper, incr) && up == lo + Share(stride, n, t) * incr - incr
              && (incr > 0 || lo == StaticLower(lower, upper, incr, n, t) ==>
                    && lo == StaticLower(lower, upper, incr, n, t) && up == StaticUpper(lower, upper, incr, n, t)
                    && last == StaticLast(lower, upper, incr, n, t))
  {
    var loopSize := U32(CQuotient(upper - lower, incr) + 1);
    lo, up := Range4(lower, incr, loopSize, n, t);
    last := up == upper && lo <= upper;
    stride := I32(loopSize);
    if NonEmpty(lower, upper, incr) {
      PlainResults(lower, upper, incr, n, t, lo, up);
    }
  }

  /** A thread's range, from the loop size. */
  method Range4(lower: int, incr: int, loopSize: int, n: nat, t: nat) returns (lo: int, up: int)
    requires n > 0
    ensures var left := LeftOver4(loopSize, n);
            lo == I32(lower + t * Share4(loopSize, n, t) * incr + (if t < left then 0 else left))
    ensures up == lo + Share4(loopSize, n, t) * incr - incr
  {
    var chunk := I32(loopSize / n);
    var leftOver := I32(U32(loopSize - chunk * n));
    if t < leftOver {
      chunk := chunk + 1;
      SameWrap32(lower + t * chunk * incr);
      lo := I32(U32(lower + t * chunk * incr));
    } else {
      SameWrap32(lower + t * chunk * incr + leftOver);
      lo := I32(U32(lower + t * chunk * incr + leftOver));
    }
    up := lo + chunk * incr - incr;
  }

  /** `__kmpc_for_static_init_4`, called by thread `t` of `n`. */
  method StaticInit4(kind: Kind, last0: bool, lower: int, upper: int, stride0: int, incr: int, chunk: int, n: nat,
                     t: nat)
    returns (last: bool, lo: int, up: int, stride: int)
    requires t < n && HeadDefined(lower, upper, incr)
    requires kind.Static? ==> Plain4Defined(lower, upper, incr, n, t)
    requires kind.StaticChunked? ==> chunk > 0 && Chunked4Defined(lower, upper, incr, chunk, n, t)
    ensures kind.StaticChunked? ==>
              && lo == I32(ChunkLower(lower, incr, chunk, n, t, 0)) && up == lo + incr * chunk - incr
              && stride == ChunkLower(lower, incr, chunk, n, t, 1) - ChunkLower(lower, incr, chunk, n, t, 0)
    ensures kind.StaticChunked? && NonEmpty(lower, upper, incr) ==>
              lo == ChunkLower(lower, incr, chunk, n, t, 0) && last == ChunkLast(lower, upper, incr, chunk, n, t)
    ensures kind.Static? ==>
              && lo == I32(Begin4(lower, upper, incr, n, t)) && stride == I32(Size4(lower, upper, incr))
              && up == lo + Share4(Size4(lower, upper, incr), n, t) * incr - incr
              && (last <==> up == upper && lo <= upper)
    ensures kind.Static? && NonEmpty(lower, upper, incr) ==>
              && stride == Size(lower, upper, incr) && up == lo + Share(stride, n, t) * incr - incr
              && (incr > 0 || lo == StaticLower(lower, upper, incr, n, t) ==>
                    && lo == StaticLower(lower, upper, incr, n, t) && up == StaticUpper(lower, upper, incr, n, t)
                    && last == StaticLast(lower, upper, incr, n, t))
    ensures kind.Other? ==> last == last0 && lo == lower && up == upper && stride == stride0
  {
    last, lo, up, stride := last0, lower, upper, stride0;
    if kind.StaticChunked? {
      last, lo, up, stride := ChunkedRange4(lower, upper, incr, chunk, n, t);
    } else if kind.Static? {
      last, lo, up, stride := PlainRange4(lower, upper, incr, n, t);
    }
  }

  // ----- Unsigned 64 bits -----

  lemma NonZero64(x: int)
    requires x != 0 && InRange(x, HALF_64)
    ensures U64(x) != 0
  {
    Fits64(x);
  }

  lemma WrappedDifference(a: int, b: int)
    ensures U64(a - U64(b)) == U64(a - b)
  {
    DivBounds(b, TWO_64);
    DivBounds(a - b, TWO_64);
    DivUnique(a - U64(b), TWO_64, (a - b) / TWO_64 + b / TWO_64);
    DivBounds(a - U64(b), TWO_64);
  }

  /** The chunked branch of `__kmpc_for_static_init_8u`: all bounds and both signs of the increment. */
  method ChunkedRange8u(lower: int, upper: int, incr: int, chunk: int, n: nat, t: nat)
    returns (last: bool, lo: int, up: int, stride: int)
    requires t < n && incr != 0 && chunk > 0 && 0 <= lower < TWO_64 && 0 <= upper < TWO_64
    requires InRange(incr * chunk, HALF_64) && InRange(incr * chunk * n, HALF_64)
    ensures U64(incr * chunk) != 0 && U64(incr * chunk * n) != 0
    ensures lo == U64(ChunkLower(lower, incr, chunk, n, t, 0)) && up == U64(lo + incr * chunk - incr)
    ensures lo == Lower64(lower, incr, chunk, n, t, 0)
    ensures Clip(up, upper, incr) == Upper64(lower, upper, incr, chunk, n, t, 0)
    ensures stride == ChunkLower(lower, incr, chunk, n, t, 1) - ChunkLower(lower, incr, chunk, n, t, 0)
    ensures stride == incr * chunk * n && last == CodeLast64(lower, upper, incr, chunk, n, t)
    ensures incr > 0 ==> last == ChunkLast64(lower, upper, incr, chunk, n, t)
  {
    NonZeroProduct(incr, chunk, n);
    NonZero64(incr * chunk);
    NonZero64(incr * chunk * n);
    StrideOfChunks(lower, incr, chunk, n, t);
    BeginsAsReturned(lower, upper, incr, chunk, n, t);
    if incr > 0 {
      CodeLastUpwards(lower, upper, incr, chunk, n, t);
    }
    var span := incr * chunk;
    stride := span * n;
    lo := U64(lower + span * t);
    up := U64(lo + span - incr);
    last := ChunkFlag8u(lower, upper, incr, chunk, n, t, span, stride, lo);
  }

  /** The flag of the chunked branch. */
  method ChunkFlag8u(ghost lower: int, upper: int, ghost incr: int, ghost chunk: int, ghost n: nat, ghost t: nat,
                     span: int, stride: int, lo: int)
    returns (last: bool)
    requires span == incr * chunk && U64(span) != 0 && stride == span * n && U64(stride) != 0
    requires lo == U64(lower + span * t)
    ensures last == CodeLast64(lower, upper, incr, chunk, n, t)
  {
    var beginLastChunk := upper - upper % U64(span);
    WrappedDifference(beginLastChunk, lower + span * t);
    last := U64(beginLastChunk - lo) % U64(stride) == 0;
  }

  /** No signed operation of the unchunked branch overflows. */
  predicate Plain8Defined(lower: int, upper: int, incr: int, n: nat, t: nat)
    requires U64(incr) != 0 && n > 0
  {
    var size := Size64(lower, upper, incr);
    var share := Share(size, n, t);
    && InRange(Base(size, n), HALF_64) && InRange(share, HALF_64) && InRange(Base(size, n) * n, HALF_64)
    && InRange(t * share, HALF_64) && InRange(t * share * incr, HALF_64) && InRange(share * incr, HALF_64)
  }

  /** The unchunked branch of `__kmpc_for_static_init_8u`: all bounds and both signs of the increment. */
  method PlainRange8u(lower: int, upper: int, incr: int, n: nat, t: nat)
    returns (last: bool, lo: int, up: int, stride: int)
    requires t < n && U64(incr) != 0
    ensures lo == Static64Lower(lower, upper, incr, n, t) && up == Static64Upper(lower, upper, incr, n, t)
    ensures last == Static64Last(lower, upper, incr, n, t) && stride == I64(Size64(lower, upper, incr))
  {
    var loopSize := LoopSize8u(lower, upper, incr);
    var chunk, shift := ShareAndShift(loopSize, n, t);
    lo, up := Range8u(lower, incr, chunk, shift, t);
    last := up == upper && lo <= upper;
    stride := I64(loopSize);
  }

  method Range8u(lower: int, incr: int, chunk: int, shift: int, t: nat) returns (lo: int, up: int)
    ensures lo == U64(lower + t * chunk * incr + shift) && up == U64(lo + chunk * incr - incr)
  {
    lo := U64(lower + t * chunk * incr + shift);
    up := U64(lo + chunk * incr - incr);
  }

  method LoopSize8u(lower: int, upper: int, incr: int) returns (loopSize: int)
    requires U64(incr) != 0
    ensures loopSize == Size64(lower, upper, incr)
  {
    loopSize := U64(U64(upper - lower) / U64(incr) + 1);
  }

  /** A thread's number of iterations, and by how much its start is shifted beyond those of the threads before. */
  method ShareAndShift(loopSize: int, n: nat, t: nat) returns (chunk: int, shift: int)
    requires t < n
    ensures chunk == Share(loopSize, n, t) && shift == if t < LeftOver(loopSize, n) then 0 else LeftOver(loopSize, n)
  {
    chunk, shift := loopSize / n, 0;
    var leftOver := loopSize - chunk * n;
    if t < leftOver {
      chunk := chunk + 1;
    } else {
      shift := leftOver;
    }
  }

  /** `__kmpc_for_static_init_8u`, called by thread `t` of `n`. */
  method StaticInit8u(kind: Kind, last0: bool, lower: int, upper: int, stride0: int, incr: int, chunk: int, n: nat,
                      t: nat)
    returns (last: bool, lo: int, up: int, stride: int)
    requires t < n && InRange(incr, HALF_64) && U64(incr) != 0 && 0 <= lower < TWO_64 && 0 <= upper < TWO_64
    requires kind.Static? ==> Plain8Defined(lower, upper, incr, n, t)
    requires kind.StaticChunked? ==> chunk > 0 && InRange(incr * chunk, HALF_64) && InRange(incr * chunk * n, HALF_64)
    ensures kind.StaticChunked? ==>
              && U64(incr * chunk) != 0 && U64(incr * chunk * n) != 0
              && lo == U64(ChunkLower(lower, incr, chunk, n, t, 0)) && up == U64(lo + incr * chunk - incr)
              && stride == ChunkLower(lower, incr, chunk, n, t, 1) - ChunkLower(lower, incr, chunk, n, t, 0)
              && last == CodeLast64(lower, upper, incr, chunk, n, t)
    ensures kind.Static? ==>
              && lo == Static64Lower(lower, upper, incr, n, t) && up == Static64Upper(lower, upper, incr, n, t)
              && last == Static64Last(lower, upper, incr, n, t) && stride == I64(Size64(lower, upper, incr))
    ensures kind.Other? ==> last == last0 && lo == lower && up == upper && stride == stride0
  {
    last, lo, up, stride := last0, lower, upper, stride0;
    Fits64(incr);
    if kind.StaticChunked? {
      last, lo, up, stride := ChunkedRange8u(lower, upper, incr, chunk, n, t);
    } else if kind.Static? {
      last, lo, up, stride := PlainRange8u(lower, upper, incr, n, t);
    }
  }
}
