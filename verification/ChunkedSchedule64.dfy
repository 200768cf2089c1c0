/**
  The ranges of the static schedule with a chunk size in unsigned 64-bit arithmetic: the `kmp_sch_static_chunked`
  branch of `__kmpc_for_static_init_8u` in software/snRuntime/src/omp/kmp.c, and its caller.  The caller clips the
  end of a range to the loop's bound, runs the range unless it is empty, which ends its loop, and adds the stride to
  both ends.  All additions wrap at 2^64.
  */
module ChunkedSchedule64 {
  import opened Arithmetic
  import opened Loops
  import opened ChunkedSchedule

  /** Where the k-th range of thread `t` begins. */
  function Lower64(lower: int, incr: int, chunk: int, n: nat, t: nat, k: nat): int {
    if k == 0 then U64(lower + incr * chunk * t)
    else U64(Lower64(lower, incr, chunk, n, t, k - 1) + incr * chunk * n)
  }

  /** Where it ends, clipped. */
  function Upper64(lower: int, upper: int, incr: int, chunk: int, n: nat, t: nat, k: nat): int {
    if k == 0 then Clip(U64(Lower64(lower, incr, chunk, n, t, 0) + incr * chunk - incr), upper, incr)
    else Clip(U64(Upper64(lower, upper, incr, chunk, n, t, k - 1) + incr * chunk * n), upper, incr)
  }

  /** The k-th range of the thread is not empty. */
  predicate HasRange(lower: int, upper: int, incr: int, chunk: int, n: nat, t: nat, k: nat) {
    var lo, up := Lower64(lower, incr, chunk, n, t, k), Upper64(lower, upper, incr, chunk, n, t, k);
    if incr > 0 then lo <= up else up <= lo
  }

  /** The thread comes to its k-th range: those before it are not empty. */
  predicate Reaches(lower: int, upper: int, incr: int, chunk: int, n: nat, t: nat, k: nat) {
    k == 0
    || (Reaches(lower, upper, incr, chunk, n, t, k - 1) && HasRange(lower, upper, incr, chunk, n, t, k - 1))
  }

  /** Thread `t` executes `x` in its k-th range. */
  predicate Chunk64Runs(lower: int, upper: int, incr: int, chunk: int, n: nat, t: nat, k: nat, x: int)
    requires incr != 0
  {
    && Reaches(lower, upper, incr, chunk, n, t, k)
    && Runs(Lower64(lower, incr, chunk, n, t, k), Upper64(lower, upper, incr, chunk, n, t, k), incr, x)
  }

  /** Every iteration is executed by one thread in one of its ranges, and nothing else is executed. */
  ghost predicate Chunked64Exact(lower: int, upper: int, incr: int, chunk: int, n: nat)
    requires incr != 0
  {
    && (forall x, t: nat, k: nat ::
          t < n && Chunk64Runs(lower, upper, incr, chunk, n, t, k, x) ==> IsIteration(lower, upper, incr, x))
    && (forall x :: IsIteration(lower, upper, incr, x) ==>
          exists t: nat, k: nat :: t < n && Chunk64Runs(lower, upper, incr, chunk, n, t, k, x))
    && (forall x, t: nat, k: nat, u: nat, l: nat | t < n && u < n ::
          Chunk64Runs(lower, upper, incr, chunk, n, t, k, x) && Chunk64Runs(lower, upper, incr, chunk, n, u, l, x)
          ==> t == u && k == l)
  }

  // ----- Chunk numbers -----

  /** Where chunk number `j` begins, before any wrap. */
  function Start(lower: int, span: int, j: int): int {
    lower + span * j
  }

  lemma StartOrder(lower: int, span: int, j: int, l: int)
    requires span > 0
    ensures Start(lower, span, j + 1) == Start(lower, span, j) + span
    ensures j < l ==> Start(lower, span, j) + span <= Start(lower, span, l)
    ensures j <= l <==> Start(lower, span, j) <= Start(lower, span, l)
  {
    Distribute(j, 1, span);
    ScaleOrder(j + 1, l, span);
    ScaleOrder(j, l, span);
  }

  lemma StartMoves(lower: int, span: int, j: int, n: nat)
    ensures Start(lower, span, j + n) == Start(lower, span, j) + span * n
  {
    Distribute(j, n, span);
  }

  lemma ChunkLowerIsStart(lower: int, incr: int, chunk: int, n: nat, t: nat, k: nat)
    ensures ChunkLower(lower, incr, chunk, n, t, k) == Start(lower, incr * chunk, t + k * n)
  {
    var span := incr * chunk;
    assert k * (span * n) == span * (k * n);
    Distribute(t, k * n, span);
  }

  /** Stepping with wrap-around is one wrap at the end. */
  lemma {:induction false} LowerIsStart(lower: int, incr: int, chunk: int, n: nat, t: nat, k: nat)
    ensures Lower64(lower, incr, chunk, n, t, k) == U64(Start(lower, incr * chunk, t + k * n))
  {
    if k > 0 {
      var span := incr * chunk;
      LowerIsStart(lower, incr, chunk, n, t, k - 1);
      NumberMoves(t, k, n);
      StartMoves(lower, span, t + (k - 1) * n, n);
      WrapSum(Start(lower, span, t + (k - 1) * n), span * n);
    }
  }

  lemma NumberMoves(t: nat, k: nat, n: nat)
    requires k > 0
    ensures t + k * n == t + (k - 1) * n + n && (k - 1) * n >= 0
  {
    Distribute(k - 1, 1, n);
    ProductNat(k - 1, n);
  }

  /** A loop with a positive increment whose stride the code can represent. */
  predicate Upwards64(lower: int, upper: int, incr: int, chunk: int, n: nat) {
    && incr > 0 && chunk > 0 && n > 0 && 0 <= lower <= upper < TWO_64
    && 0 < incr <= incr * chunk <= incr * chunk * n <= TWO_64 / 2
  }

  lemma LastStart(lower: int, upper: int, incr: int, chunk: int)
    requires incr > 0 && chunk > 0 && incr * chunk > 0 && lower <= upper
    ensures var span, c := incr * chunk, LastChunk(lower, upper, incr, chunk);
            c >= 0 && Start(lower, span, c) <= upper < Start(lower, span, c) + span
  {
    var span := incr * chunk;
    DivBounds(upper - lower, span);
    QuotientNat(upper - lower, span);
    StartOrder(lower, span, (upper - lower) / span, 0);
  }

  // ----- Ranges that do not wrap -----

  /** Chunk `j` is one of the loop's, and its end does not wrap. */
  predicate Whole(lower: int, upper: int, incr: int, chunk: int, j: int)
    requires incr > 0 && chunk > 0
  {
    j <= LastChunk(lower, upper, incr, chunk) && Start(lower, incr * chunk, j) + incr * chunk - incr < TWO_64
  }

  /** Chunks before the final one are whole. */
  lemma BeforeLast(lower: int, upper: int, incr: int, chunk: int, n: nat, j: int)
    requires Upwards64(lower, upper, incr, chunk, n) && j < LastChunk(lower, upper, incr, chunk)
    ensures Whole(lower, upper, incr, chunk, j) && Start(lower, incr * chunk, j) + incr * chunk - incr <= upper
  {
    LastStart(lower, upper, incr, chunk);
    StartOrder(lower, incr * chunk, j, LastChunk(lower, upper, incr, chunk));
  }

  lemma UpperMoves(lower: int, upper: int, incr: int, chunk: int, n: nat, t: nat, k: nat, stride: int, end: int)
    requires k > 0 && stride == incr * chunk * n && end == Upper64(lower, upper, incr, chunk, n, t, k - 1) + stride
    ensures Upper64(lower, upper, incr, chunk, n, t, k) == Clip(U64(end), upper, incr)
  {}

  lemma UpperBegins(lower: int, upper: int, incr: int, chunk: int, n: nat, t: nat, span: int, end: int)
    requires span == incr * chunk && end == Lower64(lower, incr, chunk, n, t, 0) + span - incr
    ensures Upper64(lower, upper, incr, chunk, n, t, 0) == Clip(U64(end), upper, incr)
  {}

  lemma WholeLower(lower: int, upper: int, incr: int, chunk: int, n: nat, t: nat, k: nat)
    requires Upwards64(lower, upper, incr, chunk, n) && Whole(lower, upper, incr, chunk, t + k * n)
    ensures Lower64(lower, incr, chunk, n, t, k) == Start(lower, incr * chunk, t + k * n)
    ensures 0 <= Start(lower, incr * chunk, t + k * n) <= upper
  {
    var span, c, j := incr * chunk, LastChunk(lower, upper, incr, chunk), t + k * n;
    LastStart(lower, upper, incr, chunk);
    ProductNat(k, n);
    StartOrder(lower, span, j, c);
    StartOrder(lower, span, 0, j);
    LowerIsStart(lower, incr, chunk, n, t, k);
    Fits64(Start(lower, span, j));
  }

  /** The thread comes to a whole chunk, and its range is that chunk. */
  lemma {:induction false} WholeRange(lower: int, upper: int, incr: int, chunk: int, n: nat, t: nat, k: nat)
    requires Upwards64(lower, upper, incr, chunk, n) && t < n
    requires Whole(lower, upper, incr, chunk, t + k * n)
    ensures var start := Start(lower, incr * chunk, t + k * n);
            && Lower64(lower, incr, chunk, n, t, k) == start <= upper
            && Upper64(lower, upper, incr, chunk, n, t, k) == Clip(start + incr * chunk - incr, upper, incr)
    ensures Reaches(lower, upper, incr, chunk, n, t, k) && HasRange(lower, upper, incr, chunk, n, t, k)
  {
    var span, j := incr * chunk, t + k * n;
    var end := Start(lower, span, j) + span - incr;
    WholeLower(lower, upper, incr, chunk, n, t, k);
    Fits64(end);
    if k == 0 {
      UpperBegins(lower, upper, incr, chunk, n, t, span, end);
    } else {
      NumberMoves(t, k, n);
      LastStart(lower, upper, incr, chunk);
      BeforeLast(lower, upper, incr, chunk, n, j - n);
      WholeRange(lower, upper, incr, chunk, n, t, k - 1);
      StartMoves(lower, span, j - n, n);
      UpperMoves(lower, upper, incr, chunk, n, t, k, span * n, end);
    }
  }

  lemma WholeRuns(lower: int, upper: int, incr: int, chunk: int, n: nat, t: nat, k: nat, x: int)
    requires Upwards64(lower, upper, incr, chunk, n) && t < n
    requires Whole(lower, upper, incr, chunk, t + k * n)
    ensures Chunk64Runs(lower, upper, incr, chunk, n, t, k, x) <==> ChunkRuns(lower, upper, incr, chunk, n, t, k, x)
  {
    WholeRange(lower, upper, incr, chunk, n, t, k);
    ChunkLowerIsStart(lower, incr, chunk, n, t, k);
  }

  // ----- When all exits are in range -----

  /** The first chunk of each thread beyond the loop does not wrap, so the thread stops there. */
  lemma {:induction false} BeyondStops(lower: int, upper: int, incr: int, chunk: int, n: nat, t: nat, k: nat)
    requires Upwards64(lower, upper, incr, chunk, n) && t < n && t + k * n > LastChunk(lower, upper, incr, chunk)
    requires Start(lower, incr * chunk, LastChunk(lower, upper, incr, chunk) + n) < TWO_64
    ensures !(Reaches(lower, upper, incr, chunk, n, t, k) && HasRange(lower, upper, incr, chunk, n, t, k))
  {
    var span, c, j := incr * chunk, LastChunk(lower, upper, incr, chunk), t + k * n;
    LastStart(lower, upper, incr, chunk);
    if k > 0 {
      NumberMoves(t, k, n);
    }
    if j > c + n {
      BeyondStops(lower, upper, incr, chunk, n, t, k - 1);
    } else {
      StartOrder(lower, span, c, j);
      StartOrder(lower, span, j, c + n);
      LowerIsStart(lower, incr, chunk, n, t, k);
      Fits64(Start(lower, span, j));
    }
  }

  lemma SameAsUnbounded(lower: int, upper: int, incr: int, chunk: int, n: nat, t: nat, k: nat, x: int)
    requires Upwards64(lower, upper, incr, chunk, n) && t < n
    requires Start(lower, incr * chunk, LastChunk(lower, upper, incr, chunk) + n) < TWO_64
    ensures Chunk64Runs(lower, upper, incr, chunk, n, t, k, x) == ChunkRuns(lower, upper, incr, chunk, n, t, k, x)
  {
    var span, c, j := incr * chunk, LastChunk(lower, upper, incr, chunk), t + k * n;
    LastStart(lower, upper, incr, chunk);
    if j <= c {
      StartOrder(lower, span, j, c + n);
      WholeRuns(lower, upper, incr, chunk, n, t, k, x);
    } else {
      BeyondStops(lower, upper, incr, chunk, n, t, k);
      StartOrder(lower, span, c, j);
      ChunkLowerIsStart(lower, incr, chunk, n, t, k);
    }
  }

  lemma ExactWithinRange(lower: int, upper: int, incr: int, chunk: int, n: nat)
    requires Upwards64(lower, upper, incr, chunk, n)
    requires Start(lower, incr * chunk, LastChunk(lower, upper, incr, chunk) + n) < TWO_64
    ensures Chunked64Exact(lower, upper, incr, chunk, n)
  {
    forall x, t: nat, k: nat | t < n
      ensures Chunk64Runs(lower, upper, incr, chunk, n, t, k, x) == ChunkRuns(lower, upper, incr, chunk, n, t, k, x)
    {
      SameAsUnbounded(lower, upper, incr, chunk, n, t, k, x);
    }
    forall x
      ensures IsIteration(lower, upper, incr, x) ==>
                exists t: nat, k: nat :: t < n && Chunk64Runs(lower, upper, incr, chunk, n, t, k, x)
    {
      if IsIteration(lower, upper, incr, x) {
        var t, k := ChunkOwner(lower, upper, incr, chunk, n, x);
        assert Chunk64Runs(lower, upper, incr, chunk, n, t, k, x);
      }
    }
    forall x, t: nat, k: nat, u: nat, l: nat | && t < n && u < n
                                               && Chunk64Runs(lower, upper, incr, chunk, n, t, k, x)
                                               && Chunk64Runs(lower, upper, incr, chunk, n, u, l, x)
      ensures t == u && k == l
    {
      ChunkedExactlyOnce(lower, upper, incr, chunk, n, x);
    }
    forall x, t: nat, k: nat | t < n && Chunk64Runs(lower, upper, incr, chunk, n, t, k, x)
      ensures IsIteration(lower, upper, incr, x)
    {
      ChunkedExactlyOnce(lower, upper, incr, chunk, n, x);
    }
  }

  // ----- When an exit wraps -----

  /** What a thread runs beyond the final chunk is no iteration, or is run a second time. */
  lemma Astray(lower: int, upper: int, incr: int, chunk: int, n: nat, t: nat, k: nat, x: int)
    requires Upwards64(lower, upper, incr, chunk, n) && t < n && t + k * n > LastChunk(lower, upper, incr, chunk)
    requires Chunk64Runs(lower, upper, incr, chunk, n, t, k, x)
    requires x < Start(lower, incr * chunk, LastChunk(lower, upper, incr, chunk))
    ensures !Chunked64Exact(lower, upper, incr, chunk, n)
  {
    if IsIteration(lower, upper, incr, x) {
      var u, l := ChunkOwner(lower, upper, incr, chunk, n, x);
      ChunkLowerIsStart(lower, incr, chunk, n, u, l);
      StartOrder(lower, incr * chunk, LastChunk(lower, upper, incr, chunk), u + l * n);
      BeforeLast(lower, upper, incr, chunk, n, u + l * n);
      WholeRuns(lower, upper, incr, chunk, n, u, l, x);
    }
  }

  /** A range that is reached and not empty runs its first value. */
  lemma RunsFirst(lower: int, upper: int, incr: int, chunk: int, n: nat, t: nat, k: nat, x: int)
    requires incr > 0 && Reaches(lower, upper, incr, chunk, n, t, k)
    requires Lower64(lower, incr, chunk, n, t, k) == x <= Upper64(lower, upper, incr, chunk, n, t, k)
    ensures Chunk64Runs(lower, upper, incr, chunk, n, t, k, x)
  {
    MultipleMod(0, incr);
  }

  lemma OwnerOf(j: nat, n: nat) returns (t: nat, k: nat)
    requires n > 0
    ensures t < n && t + k * n == j && t == j % n && k == j / n
  {
    DivBounds(j, n);
    RemainderNat(j, n);
    QuotientNat(j, n);
    t, k := j % n, j / n;
  }

  /** Both ends of the final chunk wrap when the stride is added, and stay in order. */
  lemma WrappedPair(start: int, end: int, upper: int, stride: int)
    requires 0 <= start <= end <= upper < TWO_64 && stride <= TWO_64 / 2 && start + stride >= TWO_64
    ensures U64(start + stride) == start + stride - TWO_64 < start
    ensures U64(start + stride) <= U64(end + stride) && U64(start + stride) <= upper
  {
    Fits64(start + stride);
    Fits64(end + stride);
  }

  /** The final chunk is whole: its owner goes on and begins again before the loop's end. */
  lemma OwnerGoesOn(lower: int, upper: int, incr: int, chunk: int, n: nat)
    requires Upwards64(lower, upper, incr, chunk, n)
    requires Start(lower, incr * chunk, LastChunk(lower, upper, incr, chunk) + n) >= TWO_64
    requires Whole(lower, upper, incr, chunk, LastChunk(lower, upper, incr, chunk))
    ensures !Chunked64Exact(lower, upper, incr, chunk, n)
  {
    var span, c := incr * chunk, LastChunk(lower, upper, incr, chunk);
    LastStart(lower, upper, incr, chunk);
    var t, k := OwnerOf(c, n);
    WholeRange(lower, upper, incr, chunk, n, t, k);
    StartMoves(lower, span, c, n);
    var start, end := Start(lower, span, c), Upper64(lower, upper, incr, chunk, n, t, k);
    WrappedPair(start, end, upper, span * n);
    NextRange(lower, upper, incr, chunk, n, t, k, start, end, span * n);
    NumberMoves(t, k + 1, n);
    Astray(lower, upper, incr, chunk, n, t, k + 1, U64(start + span * n));
  }

  /** The range after one that is not empty: it runs its first value if both ends stay in order. */
  lemma NextRange(lower: int, upper: int, incr: int, chunk: int, n: nat, t: nat, k: nat, lo: int, up: int, stride: int)
    requires incr > 0 && stride == incr * chunk * n && Reaches(lower, upper, incr, chunk, n, t, k)
    requires lo == Lower64(lower, incr, chunk, n, t, k) <= Upper64(lower, upper, incr, chunk, n, t, k) == up
    requires U64(lo + stride) <= upper && U64(lo + stride) <= U64(up + stride)
    ensures Chunk64Runs(lower, upper, incr, chunk, n, t, k + 1, U64(lo + stride))
  {
    UpperMoves(lower, upper, incr, chunk, n, t, k + 1, stride, up + stride);
    RunsFirst(lower, upper, incr, chunk, n, t, k + 1, U64(lo + stride));
  }

  /** The chunk after the final one, `end` being where it ends once it has wrapped. */
  lemma NextEnd(lower: int, upper: int, incr: int, chunk: int, n: nat, t: nat, k: nat, end: int)
    requires Upwards64(lower, upper, incr, chunk, n) && t < n && n > 1
    requires t + k * n == LastChunk(lower, upper, incr, chunk) + 1 && 0 <= end < TWO_64
    requires end == Start(lower, incr * chunk, t + k * n) - TWO_64 + incr * chunk - incr
    requires k == 0 ==> Lower64(lower, incr, chunk, n, t, 0) == end - incr * chunk + incr
    ensures Reaches(lower, upper, incr, chunk, n, t, k)
    ensures Upper64(lower, upper, incr, chunk, n, t, k) == Clip(end, upper, incr)
  {
    var span, c := incr * chunk, LastChunk(lower, upper, incr, chunk);
    Fits64(end);
    if k == 0 {
      UpperBegins(lower, upper, incr, chunk, n, t, span, end);
    } else {
      NumberMoves(t, k, n);
      BeforeLast(lower, upper, incr, chunk, n, c + 1 - n);
      WholeRange(lower, upper, incr, chunk, n, t, k - 1);
      StartMoves(lower, span, c + 1 - n, n);
      Fits64(end + TWO_64);
      UpperMoves(lower, upper, incr, chunk, n, t, k, span * n, end + TWO_64);
    }
  }

  /** The final chunk's end wraps, and another thread's next chunk begins again before the loop's end. */
  lemma NextGoesOn(lower: int, upper: int, incr: int, chunk: int, n: nat)
    requires Upwards64(lower, upper, incr, chunk, n) && n > 1
    requires !Whole(lower, upper, incr, chunk, LastChunk(lower, upper, incr, chunk))
    ensures !Chunked64Exact(lower, upper, incr, chunk, n)
  {
    var span, c := incr * chunk, LastChunk(lower, upper, incr, chunk);
    LastStart(lower, upper, incr, chunk);
    StartOrder(lower, span, c, c + 1);
    ScaleOrder(2, n, span);
    var t, k := OwnerOf(c + 1, n);
    LowerIsStart(lower, incr, chunk, n, t, k);
    var x := Start(lower, span, c + 1) - TWO_64;
    Fits64(Start(lower, span, c + 1));
    NextEnd(lower, upper, incr, chunk, n, t, k, x + span - incr);
    RunsFirst(lower, upper, incr, chunk, n, t, k, x);
    assert Chunk64Runs(lower, upper, incr, chunk, n, t, k, x);
    Astray(lower, upper, incr, chunk, n, t, k, x);
  }

  /** A single thread whose final chunk's end wraps stops before it. */
  lemma FinalChunkMissed(lower: int, upper: int, incr: int, chunk: int, n: nat)
    requires Upwards64(lower, upper, incr, chunk, n) && n == 1
    requires !Whole(lower, upper, incr, chunk, LastChunk(lower, upper, incr, chunk))
    ensures !Chunked64Exact(lower, upper, incr, chunk, n)
  {
    var span, c := incr * chunk, LastChunk(lower, upper, incr, chunk);
    var x := Start(lower, span, c);
    LastStart(lower, upper, incr, chunk);
    assert IsIteration(lower, upper, incr, x) by {
      StartOrder(lower, span, 0, c);
      MultipleMod(chunk * c, incr);
      assert x - lower == (chunk * c) * incr;
    }
    FinalRangeEmpty(lower, upper, incr, chunk, n);
    forall t: nat, k: nat | t < n
      ensures !Chunk64Runs(lower, upper, incr, chunk, n, t, k, x)
    {
      if k < c {
        BeforeLast(lower, upper, incr, chunk, n, k);
        WholeRange(lower, upper, incr, chunk, n, t, k);
        StartOrder(lower, span, k, c);
      } else {
        NotReached(lower, upper, incr, chunk, n, t, c, k);
      }
    }
  }

  lemma FinalRangeEmpty(lower: int, upper: int, incr: int, chunk: int, n: nat)
    requires Upwards64(lower, upper, incr, chunk, n) && n == 1
    requires !Whole(lower, upper, incr, chunk, LastChunk(lower, upper, incr, chunk))
    ensures LastChunk(lower, upper, incr, chunk) >= 0
    ensures !HasRange(lower, upper, incr, chunk, n, 0, LastChunk(lower, upper, incr, chunk))
  {
    var span, c := incr * chunk, LastChunk(lower, upper, incr, chunk);
    var end := Start(lower, span, c) + span - incr;
    LastStart(lower, upper, incr, chunk);
    StartOrder(lower, span, 0, c);
    LowerIsStart(lower, incr, chunk, n, 0, c);
    Fits64(Start(lower, span, c));
    FinalEnd(lower, upper, incr, chunk, n, c);
    Fits64(end);
  }

  lemma FinalEnd(lower: int, upper: int, incr: int, chunk: int, n: nat, c: nat)
    requires Upwards64(lower, upper, incr, chunk, n) && n == 1 && c == LastChunk(lower, upper, incr, chunk)
    requires c == 0 ==> Lower64(lower, incr, chunk, n, 0, 0) == Start(lower, incr * chunk, c)
    ensures Upper64(lower, upper, incr, chunk, n, 0, c)
         == Clip(U64(Start(lower, incr * chunk, c) + incr * chunk - incr), upper, incr)
  {
    var span := incr * chunk;
    var end := Start(lower, span, c) + span - incr;
    if c == 0 {
      UpperBegins(lower, upper, incr, chunk, n, 0, span, end);
    } else {
      BeforeLast(lower, upper, incr, chunk, n, c - 1);
      WholeRange(lower, upper, incr, chunk, n, 0, c - 1);
      StartOrder(lower, span, c - 1, c);
      UpperMoves(lower, upper, incr, chunk, n, 0, c, span, end);
    }
  }

  /** Nothing is run from an empty range on. */
  lemma {:induction false} NotReached(lower: int, upper: int, incr: int, chunk: int, n: nat, t: nat, k: nat, l: nat)
    requires incr != 0 && k <= l && !HasRange(lower, upper, incr, chunk, n, t, k)
    ensures !(Reaches(lower, upper, incr, chunk, n, t, l) && HasRange(lower, upper, incr, chunk, n, t, l))
  {
    if k < l {
      NotReached(lower, upper, incr, chunk, n, t, k, l - 1);
    }
  }

  lemma UpwardsExactIff(lower: int, upper: int, incr: int, chunk: int, n: nat)
    requires Upwards64(lower, upper, incr, chunk, n)
    ensures Chunked64Exact(lower, upper, incr, chunk, n)
       <==> Start(lower, incr * chunk, LastChunk(lower, upper, incr, chunk) + n) < TWO_64
  {
    var c := LastChunk(lower, upper, incr, chunk);
    if Start(lower, incr * chunk, c + n) < TWO_64 {
      ExactWithinRange(lower, upper, incr, chunk, n);
    } else if Whole(lower, upper, incr, chunk, c) {
      OwnerGoesOn(lower, upper, incr, chunk, n);
    } else if n > 1 {
      NextGoesOn(lower, upper, incr, chunk, n);
    } else {
      FinalChunkMissed(lower, upper, incr, chunk, n);
    }
  }

  // ----- Negative increments -----

  /** The mirror image of a 64-bit value. */
  function Mirrored(x: int): int {
    TWO_64 - 1 - x
  }

  lemma MirrorWrap(x: int)
    ensures U64(Mirrored(x)) == Mirrored(U64(x))
  {
    DivBounds(x, TWO_64);
    DivUnique(Mirrored(x), TWO_64, -(x / TWO_64));
    DivBounds(Mirrored(x), TWO_64);
  }

  lemma {:induction false} MirrorLower(lower: int, incr: int, chunk: int, n: nat, t: nat, k: nat)
    ensures Lower64(Mirrored(lower), -incr, chunk, n, t, k) == Mirrored(Lower64(lower, incr, chunk, n, t, k))
  {
    var span := incr * chunk;
    Negated(incr, chunk);
    Negated(span, t);
    Negated(span, n);
    if k == 0 {
      MirrorWrap(lower + span * t);
    } else {
      MirrorLower(lower, incr, chunk, n, t, k - 1);
      MirrorWrap(Lower64(lower, incr, chunk, n, t, k - 1) + span * n);
    }
  }

  lemma ClipMirror(up: int, upper: int, incr: int)
    requires incr != 0
    ensures Clip(Mirrored(up), Mirrored(upper), -incr) == Mirrored(Clip(up, upper, incr))
  {}

  lemma {:induction false} MirrorUpper(lower: int, upper: int, incr: int, chunk: int, n: nat, t: nat, k: nat)
    requires incr != 0
    ensures Upper64(Mirrored(lower), Mirrored(upper), -incr, chunk, n, t, k)
         == Mirrored(Upper64(lower, upper, incr, chunk, n, t, k))
  {
    var span := incr * chunk;
    Negated(incr, chunk);
    Negated(span, n);
    if k == 0 {
      var end := Lower64(lower, incr, chunk, n, t, 0) + span - incr;
      MirrorLower(lower, incr, chunk, n, t, 0);
      MirrorWrap(end);
      ClipMirror(U64(end), upper, incr);
    } else {
      var end := Upper64(lower, upper, incr, chunk, n, t, k - 1) + span * n;
      MirrorUpper(lower, upper, incr, chunk, n, t, k - 1);
      MirrorWrap(end);
      ClipMirror(U64(end), upper, incr);
    }
  }

  lemma {:induction false} MirrorReaches(lower: int, upper: int, incr: int, chunk: int, n: nat, t: nat, k: nat)
    requires incr != 0
    ensures Reaches(Mirrored(lower), Mirrored(upper), -incr, chunk, n, t, k)
         == Reaches(lower, upper, incr, chunk, n, t, k)
  {
    if k > 0 {
      MirrorReaches(lower, upper, incr, chunk, n, t, k - 1);
      MirrorLower(lower, incr, chunk, n, t, k - 1);
      MirrorUpper(lower, upper, incr, chunk, n, t, k - 1);
    }
  }

  lemma MirrorIteration(lower: int, upper: int, incr: int, x: int)
    requires incr != 0
    ensures IsIteration(Mirrored(lower), Mirrored(upper), -incr, Mirrored(x)) == IsIteration(lower, upper, incr, x)
  {}

  lemma MirrorRuns(lower: int, upper: int, incr: int, chunk: int, n: nat, t: nat, k: nat, x: int)
    requires incr != 0
    ensures Chunk64Runs(Mirrored(lower), Mirrored(upper), -incr, chunk, n, t, k, Mirrored(x))
         == Chunk64Runs(lower, upper, incr, chunk, n, t, k, x)
  {
    MirrorReaches(lower, upper, incr, chunk, n, t, k);
    MirrorLower(lower, incr, chunk, n, t, k);
    MirrorUpper(lower, upper, incr, chunk, n, t, k);
    MirrorIteration(Lower64(lower, incr, chunk, n, t, k), Upper64(lower, upper, incr, chunk, n, t, k), incr, x);
  }

  /** `lower1`, `upper1` and `incr1` are the mirrored loop. */
  lemma MirrorExact(lower: int, upper: int, incr: int, chunk: int, n: nat, lower1: int, upper1: int, incr1: int)
    requires incr != 0 && lower1 == Mirrored(lower) && upper1 == Mirrored(upper) && incr1 == -incr
    requires Chunked64Exact(lower1, upper1, incr1, chunk, n)
    ensures Chunked64Exact(lower, upper, incr, chunk, n)
  {
    forall x, t: nat, k: nat
      ensures Chunk64Runs(lower, upper, incr, chunk, n, t, k, x)
           == Chunk64Runs(lower1, upper1, incr1, chunk, n, t, k, Mirrored(x))
    {
      MirrorRuns(lower, upper, incr, chunk, n, t, k, x);
    }
    forall x
      ensures IsIteration(lower, upper, incr, x) == IsIteration(lower1, upper1, incr1, Mirrored(x))
    {
      MirrorIteration(lower, upper, incr, x);
    }
    forall x | IsIteration(lower, upper, incr, x)
      ensures exists t: nat, k: nat :: t < n && Chunk64Runs(lower, upper, incr, chunk, n, t, k, x)
    {
      assert IsIteration(lower1, upper1, incr1, Mirrored(x));
      var t: nat, k: nat :| t < n && Chunk64Runs(lower1, upper1, incr1, chunk, n, t, k, Mirrored(x));
      assert Chunk64Runs(lower, upper, incr, chunk, n, t, k, x);
    }
  }

  // ----- Main results -----

  /** What the caller starts from is what the code returns, before the caller clips it. */
  lemma BeginsAsReturned(lower: int, upper: int, incr: int, chunk: int, n: nat, t: nat)
    ensures Lower64(lower, incr, chunk, n, t, 0) == U64(ChunkLower(lower, incr, chunk, n, t, 0))
    ensures Upper64(lower, upper, incr, chunk, n, t, 0)
         == Clip(U64(U64(ChunkLower(lower, incr, chunk, n, t, 0)) + incr * chunk - incr), upper, incr)
  {
    ChunkLowerIsStart(lower, incr, chunk, n, t, 0);
    LowerIsStart(lower, incr, chunk, n, t, 0);
  }

  /** The chunk at which the owner of the final chunk ends its loop begins within 64 bits. */
  predicate ExitsWithinRange(lower: int, upper: int, incr: int, chunk: int, n: nat)
    requires incr != 0 && chunk > 0
  {
    0 <= lower + incr * chunk * (LastChunk(lower, upper, incr, chunk) + n) < TWO_64
  }

  /**
    In unsigned 64-bit arithmetic the chunked schedule visits every iteration exactly once, and nothing else, if and
    only if the chunk `n` chunks behind the final one begins within 64 bits.
    */
  lemma Chunked64ExactlyOnce(lower: int, upper: int, incr: int, chunk: int, n: nat)
    requires NonEmpty(lower, upper, incr) && 0 <= lower < TWO_64 && 0 <= upper < TWO_64 && chunk > 0 && n > 0
    requires -(TWO_64 / 2) <= incr * chunk * n <= TWO_64 / 2
    ensures Chunked64Exact(lower, upper, incr, chunk, n) <==> ExitsWithinRange(lower, upper, incr, chunk, n)
  {
    if incr > 0 {
      AreUpwards(lower, upper, incr, chunk, n);
      LastStart(lower, upper, incr, chunk);
      StartOrder(lower, incr * chunk, 0, LastChunk(lower, upper, incr, chunk) + n);
      UpwardsExactIff(lower, upper, incr, chunk, n);
    } else {
      DownwardsExactIff(lower, upper, incr, chunk, n, Mirrored(lower), Mirrored(upper), -incr);
    }
  }

  lemma AreUpwards(lower: int, upper: int, incr: int, chunk: int, n: nat)
    requires incr > 0 && chunk > 0 && n > 0 && 0 <= lower <= upper < TWO_64 && incr * chunk * n <= TWO_64 / 2
    ensures Upwards64(lower, upper, incr, chunk, n)
  {
    ScaledAtLeast(incr, chunk);
    ScaledAtLeast(incr * chunk, n);
  }

  lemma DownwardsExactIff(lower: int, upper: int, incr: int, chunk: int, n: nat, lower1: int, upper1: int, incr1: int)
    requires lower1 == Mirrored(lower) && upper1 == Mirrored(upper) && incr1 == -incr > 0 && chunk > 0 && n > 0
    requires 0 <= upper <= lower < TWO_64 && -(TWO_64 / 2) <= incr * chunk * n
    ensures Chunked64Exact(lower, upper, incr, chunk, n) <==> ExitsWithinRange(lower, upper, incr, chunk, n)
  {
    Negated(incr, chunk);
    Negated(incr * chunk, n);
    AreUpwards(lower1, upper1, incr1, chunk, n);
    var c := LastChunk(lower, upper, incr, chunk);
    assert c == LastChunk(lower1, upper1, incr1, chunk);
    Negated(incr * chunk, c + n);
    LastStart(lower1, upper1, incr1, chunk);
    StartOrder(lower1, incr1 * chunk, 0, c + n);
    UpwardsExactIff(lower1, upper1, incr1, chunk, n);
    if Chunked64Exact(lower1, upper1, incr1, chunk, n) {
      MirrorExact(lower, upper, incr, chunk, n, lower1, upper1, incr1);
    } else if Chunked64Exact(lower, upper, incr, chunk, n) {
      MirrorExact(lower1, upper1, incr1, chunk, n, lower, upper, incr);
    }
  }

  /**
    The last ten values in chunks of eight on four threads: the end of thread 1's chunk wraps, so that its two
    iterations are run by nobody, and thread 2 begins again at 6.
    */
  lemma Chunked64StrayCounterexample(lower: int, upper: int, incr: int, chunk: int, n: nat)
    requires lower == TWO_64 - 10 && upper == TWO_64 - 1 && incr == 1 && chunk == 8 && n == 4
    ensures IsIteration(lower, upper, incr, TWO_64 - 2) && Lower64(lower, incr, chunk, n, 1, 0) == TWO_64 - 2
    ensures !HasRange(lower, upper, incr, chunk, n, 1, 0)
    ensures Chunk64Runs(lower, upper, incr, chunk, n, 2, 0, 6) && !IsIteration(lower, upper, incr, 6)
    ensures !Chunked64Exact(lower, upper, incr, chunk, n)
  {
    Fits64(TWO_64 - 2);
    Fits64(TWO_64 + 5);
    Fits64(TWO_64 + 6);
    Fits64(13);
    assert Lower64(lower, incr, chunk, n, 2, 0) == 6 && Upper64(lower, upper, incr, chunk, n, 2, 0) == 13;
    RunsFirst(lower, upper, incr, chunk, n, 2, 0, 6);
  }

  // ----- The last flag -----

  /** The last flag as the code computes it, with its conversions of the span and the stride. */
  function CodeLast64(lower: int, upper: int, incr: int, chunk: int, n: nat, t: nat): bool
    requires U64(incr * chunk) != 0 && U64(incr * chunk * n) != 0
  {
    U64(upper - upper % U64(incr * chunk) - (lower + incr * chunk * t)) % U64(incr * chunk * n) == 0
  }

  lemma CodeLastUpwards(lower: int, upper: int, incr: int, chunk: int, n: nat, t: nat)
    requires incr > 0 && chunk > 0 && n > 0 && incr * chunk * n < TWO_64
    ensures U64(incr * chunk) != 0 && U64(incr * chunk * n) != 0
    ensures CodeLast64(lower, upper, incr, chunk, n, t) == ChunkLast64(lower, upper, incr, chunk, n, t)
  {
    NonZeroProduct(incr, chunk, n);
    ScaleOrder(1, n, incr * chunk);
    Fits64(incr * chunk);
    Fits64(incr * chunk * n);
  }

  /** Every thread's flag says whether the thread owns the final chunk. */
  ghost predicate CodeFlagsRight(lower: int, upper: int, incr: int, chunk: int, n: nat)
    requires incr != 0 && chunk > 0 && n > 0 && U64(incr * chunk) != 0 && U64(incr * chunk * n) != 0
  {
    forall t: nat :: t < n ==>
      (CodeLast64(lower, upper, incr, chunk, n, t) <==> t == LastChunk(lower, upper, incr, chunk) % n)
  }

  /** A distance is divisible by a stride that has become 2^64 - `stride` exactly if it is zero or that stride. */
  lemma WrappedMultiple(d: int, stride: int)
    requires 0 < stride <= TWO_64 / 2 && -TWO_64 < d < TWO_64 - stride
    ensures U64(d) % (TWO_64 - stride) == 0 <==> d == 0 || d == -stride
  {
    Fits64(d);
    var m := TWO_64 - stride;
    if d >= 0 {
      SmallRemainder(d, m);
    } else if -d <= stride {
      DivUnique(TWO_64 + d, m, 1);
      DivBounds(TWO_64 + d, m);
    } else {
      SmallRemainder(TWO_64 + d, m);
    }
  }

  /** The start of the final chunk as the code computes it: 0, or the largest value below that it can reach. */
  lemma DownwardsBegin(upper: int, span: int)
    requires 0 <= upper < TWO_64 && 0 < span <= TWO_64 / 2
    ensures upper - upper % (TWO_64 - span) == if upper < TWO_64 - span then 0 else TWO_64 - span
  {
    if upper < TWO_64 - span {
      SmallRemainder(upper, TWO_64 - span);
    } else {
      DivUnique(upper, TWO_64 - span, 1);
      DivBounds(upper, TWO_64 - span);
    }
  }

  /** Which threads the code flags; `span` is the extent of a chunk. */
  lemma DownwardsFlag64(lower: int, upper: int, incr: int, chunk: int, n: nat, t: nat, span: int)
    requires span == -(incr * chunk) > 0 && t < n && span * n <= TWO_64 / 2 && 0 <= upper <= lower < TWO_64
    ensures U64(incr * chunk) == TWO_64 - span != 0 && U64(incr * chunk * n) == TWO_64 - span * n != 0
    ensures CodeLast64(lower, upper, incr, chunk, n, t) <==>
              if upper < TWO_64 - span then lower == span * t || lower == span * (t + n)
              else t == 0 && lower == TWO_64 - span
  {
    Negated(span, n);
    Negated(span, t);
    SliceFits(t, n, span);
    ScaleOrder(1, n, span);
    Fits64(-span);
    Fits64(-(span * n));
    DownwardsBegin(upper, span);
    Distribute(t, n, span);
    ScaleOrder(1, t, span);
    var d := upper - upper % (TWO_64 - span) - lower + span * t;
    WrappedMultiple(d, span * n);
  }

  /** When the last flags of a downward loop are right. */
  predicate DownwardsFlagCondition(lower: int, upper: int, incr: int, chunk: int, n: nat)
    requires incr < 0 && chunk > 0 && n > 0 && -(incr * chunk) > 0
  {
    var span := -(incr * chunk);
    if upper < TWO_64 - span then
      && lower % span == 0 && lower / span < 2 * n
      && lower / span % n == LastChunk(lower, upper, incr, chunk) % n
    else lower == TWO_64 - span
  }

  lemma IsMultiple(a: int, b: int, q: int)
    requires b > 0
    ensures a == b * q <==> a % b == 0 && a / b == q
  {
    DivBounds(a, b);
    MultipleMod(q, b);
  }

  lemma FirstOrSecond(q: nat, n: nat, t: nat)
    requires t < n
    ensures q == t || q == t + n <==> q < 2 * n && q % n == t
  {
    if q < n {
      SmallRemainder(q, n);
    } else if q < 2 * n {
      DivUnique(q, n, 1);
      DivBounds(q, n);
    }
  }

  lemma FlaggedThread(lower: int, span: int, n: nat, t: nat)
    requires span > 0 && t < n && lower >= 0
    ensures lower == span * t || lower == span * (t + n)
       <==> lower % span == 0 && lower / span < 2 * n && lower / span % n == t
  {
    QuotientNat(lower, span);
    IsMultiple(lower, span, t);
    IsMultiple(lower, span, t + n);
    FirstOrSecond(lower / span, n, t);
  }

  /**
    With a negative increment the last flags are right for all threads if and only if the lower bound is one of the
    first 2 * n multiples of the chunk's extent and belongs to the owner of the final chunk; or, for a loop within
    the last extent below 2^64, if it begins with it.
    */
  lemma Downwards64LastFlags(lower: int, upper: int, incr: int, chunk: int, n: nat)
    requires incr < 0 && chunk > 0 && n > 0 && 0 <= upper <= lower < TWO_64 && -(TWO_64 / 2) <= incr * chunk * n
    ensures U64(incr * chunk) != 0 && U64(incr * chunk * n) != 0 && incr * chunk < 0
    ensures CodeFlagsRight(lower, upper, incr, chunk, n) <==> DownwardsFlagCondition(lower, upper, incr, chunk, n)
  {
    var span, c := -(incr * chunk), LastChunk(lower, upper, incr, chunk);
    Negated(incr, chunk);
    ScaledAtLeast(-incr, chunk);
    Negated(incr * chunk, n);
    QuotientNat(lower - upper, span);
    RemainderNat(c, n);
    DownwardsFlag64(lower, upper, incr, chunk, n, c % n, span);
    forall t: nat | t < n
      ensures CodeLast64(lower, upper, incr, chunk, n, t) <==>
                if upper < TWO_64 - span then
                  lower % span == 0 && lower / span < 2 * n && lower / span % n == t
                else t == 0 && lower == TWO_64 - span
    {
      DownwardsFlag64(lower, upper, incr, chunk, n, t, span);
      FlaggedThread(lower, span, n, t);
    }
    if upper >= TWO_64 - span {
      DivUnique(lower - upper, span, 0);
      SmallRemainder(0, n);
    }
  }
}
