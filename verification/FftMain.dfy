/**
  The measured part of software/tests/fft-32b/main.c, in its first iteration: the stages that all cores compute
  together, then each core's own stages.
  */
module FftMain {
  import opened Arithmetic
  import opened ComplexNumbers
  import opened Dft
  import opened Powers
  import opened PhaseOne
  import opened VectorUnit
  import opened PhaseOneKernel
  import opened PhaseTwoKernel
  import opened PhaseTwoCore
  import opened PhaseTwoStrips

  /** The active cores. */
  function Cores(n: nat): (s: set<nat>)
    ensures forall cid :: cid in s <==> 0 <= cid < n
  {
    if n == 0 then {} else Cores(n - 1) + {n - 1}
  }

  // ----- The first phase -----

  /**
    One parallel stage, up to the barrier: the cores' calls in any order.
    */
  method ParallelStage(src: array<real>, buf: array<real>, twi: array<real>, at: nat, nfft: nat, ntwi: nat, cores: nat,
                       stage: nat, len: nat, ghost perGroup: nat, ghost v: Complex)
    requires Shape(nfft, cores, stage, perGroup, len)
    requires src != buf && twi != buf && src.Length == buf.Length == 2 * nfft
    requires at + ntwi + perGroup * len <= twi.Length
    requires Segment(twi[..], ntwi, at, perGroup * len, v)
    modifies buf
    ensures Stage(Elems(src[..], nfft), Elems(buf[..], nfft), stage, perGroup * len, v)
  {
    var todo := Cores(cores);
    while todo != {}
      invariant todo <= Cores(cores)
      invariant forall cid ::
          0 <= cid < cores && cid !in todo ==> CoreDone(src[..], buf[..], twi[..], nfft, cid, perGroup, len, at, ntwi)
      decreases |todo|
    {
      var cid :| cid in todo;
      ghost var before := buf[..];
      FftP1(src, buf, twi, at, nfft, ntwi, cid, cores, stage, len, perGroup);
      forall other | 0 <= other < cores && other !in todo
        ensures CoreDone(src[..], buf[..], twi[..], nfft, other, perGroup, len, at, ntwi)
      {
        OthersKept(src[..], before, buf[..], twi[..], nfft, cid, other, perGroup, len, at, ntwi, len);
      }
      todo := todo - {cid};
    }
    CoresMakeStage(src[..], buf[..], twi[..], nfft, cores, stage, perGroup, len, at, ntwi, v);
  }

  /** How far each core has come in a stage. */
  ghost predicate CoresUpTo(src: seq<real>, out: seq<real>, twi: seq<real>, n: nat, perGroup: nat, len: nat, at: nat,
                            ntwi: nat, done: seq<nat>) {
    forall cid :: 0 <= cid < |done| ==> CoreUpTo(src, out, twi, n, cid, perGroup, len, at, ntwi, done[cid])
  }

  lemma StripKeepsCores(src: seq<real>, before: seq<real>, after: seq<real>, twi: seq<real>, n: nat, perGroup: nat,
                        len: nat, at: nat, ntwi: nat, done: seq<nat>, cid: nat, count: nat)
    requires perGroup > 0 && len > 0 && cid < |done| && CoresUpTo(src, before, twi, n, perGroup, len, at, ntwi, done)
    requires CoreUpTo(src, after, twi, n, cid, perGroup, len, at, ntwi, count)
    requires Untouched(before, after, n, CoreBase(cid, perGroup, len), perGroup * len, len)
    ensures CoresUpTo(src, after, twi, n, perGroup, len, at, ntwi, done[cid := count])
  {
    var next := done[cid := count];
    forall other | 0 <= other < |next|
      ensures CoreUpTo(src, after, twi, n, other, perGroup, len, at, ntwi, next[other])
    {
      assert CoreUpTo(src, before, twi, n, other, perGroup, len, at, ntwi, done[other]);
      if other != cid {
        OthersKept(src, before, after, twi, n, cid, other, perGroup, len, at, ntwi, done[other]);
      }
    }
  }

  /**
    One parallel stage with the strips of the cores interleaved in any way: the outcome is the same stage, since
    a core reads only `src` and stores only to its own ranges of `buf`.
    */
  method InterleavedStage(src: array<real>, buf: array<real>, twi: array<real>, at: nat, nfft: nat, ntwi: nat,
                          cores: nat, ghost stage: nat, len: nat, perGroup: nat, ghost v: Complex)
    requires Shape(nfft, cores, stage, perGroup, len)
    requires src != buf && twi != buf && src.Length == buf.Length == 2 * nfft
    requires at + ntwi + perGroup * len <= twi.Length
    requires Segment(twi[..], ntwi, at, perGroup * len, v)
    modifies buf
    ensures Stage(Elems(src[..], nfft), Elems(buf[..], nfft), stage, perGroup * len, v)
  {
    var done: seq<nat> := seq(cores, _ => 0);
    forall cid | 0 <= cid < cores
      ensures CoreUpTo(src[..], buf[..], twi[..], nfft, cid, perGroup, len, at, ntwi, 0)
    {
      CoreFits(nfft, cores, stage, perGroup, len, cid, at);
    }
    while exists cid :: 0 <= cid < |done| && done[cid] < len
      invariant |done| == cores && CoresUpTo(src[..], buf[..], twi[..], nfft, perGroup, len, at, ntwi, done)
      decreases Remaining(done, len)
    {
      var cid :| 0 <= cid < |done| && done[cid] < len;
      assert CoreUpTo(src[..], buf[..], twi[..], nfft, cid, perGroup, len, at, ntwi, done[cid]);
      CoreFits(nfft, cores, stage, perGroup, len, cid, at);
      ghost var before := buf[..];
      var vl := CoreStrip(src, buf, twi, nfft, ntwi, CoreBase(cid, perGroup, len), perGroup * len,
                          CoreEntry(at, cid, perGroup, len), len, done[cid]);
      StripKeepsCores(src[..], before, buf[..], twi[..], nfft, perGroup, len, at, ntwi, done, cid, done[cid] + vl);
      RemainingDrops(done, len, cid, done[cid] + vl);
      done := done[cid := done[cid] + vl];
    }
    forall cid | 0 <= cid < cores
      ensures CoreDone(src[..], buf[..], twi[..], nfft, cid, perGroup, len, at, ntwi)
    {
      assert CoreUpTo(src[..], buf[..], twi[..], nfft, cid, perGroup, len, at, ntwi, done[cid]);
    }
    CoresMakeStage(src[..], buf[..], twi[..], nfft, cores, stage, perGroup, len, at, ntwi, v);
  }

  /** The tables of the first phase: stage `i` finds the powers of its root where the previous stages' segments end. */
  ghost predicate FirstTables(twi: seq<real>, ntwi: nat, m: nat, c: nat, w: Complex)
    requires c < m
  {
    forall i :: 0 <= i < c ==> SegmentOf(twi, ntwi, m, w, i)
  }

  ghost predicate SegmentOf(twi: seq<real>, ntwi: nat, m: nat, w: Complex, i: nat)
    requires i < m
  {
    SegmentStart(m, i) >= 0 && Segment(twi, ntwi, SegmentStart(m, i), Pow2(m - i - 1), Pow(w, Pow2(i)))
  }

  /** The sum of the sizes of the segments before stage `i`. */
  function SegmentStart(m: nat, i: nat): int
    requires i <= m
  {
    Pow2(m) - Pow2(m - i)
  }

  lemma NextSegment(m: nat, i: nat)
    requires i < m
    ensures Shr(Pow2(m), i + 1) == Pow2(m - i - 1) && SegmentStart(m, i + 1) == SegmentStart(m, i) + Pow2(m - i - 1)
    ensures SegmentStart(m, i) >= 0
    decreases i
  {
    ShiftPow2(m, i + 1);
    assert m - i == (m - i - 1) + 1;
    if i > 0 {
      NextSegment(m, i - 1);
    }
  }

  /** The root of stage `i` makes a half turn over half a block. */
  lemma StageHalfTurn(w: Complex, m: nat, i: nat)
    requires i < m && Pow(w, Pow2(m - 1)) == MINUS_ONE
    ensures Pow(Pow(w, Pow2(i)), Pow2(m - i - 1)) == MINUS_ONE
  {
    PowMul(w, Pow2(i), Pow2(m - i - 1));
    Pow2Add(i, m - i - 1);
    assert i + (m - i - 1) == m - 1;
  }

  /** Every parallel stage splits the transforms of its blocks. */
  ghost predicate StagesDecimate(t: Spectra, w: Complex, m: nat) {
    forall i :: 0 <= i < m ==> StageDecimates(t, w, m, i)
  }

  ghost predicate StageDecimates(t: Spectra, w: Complex, m: nat, i: nat)
    requires i < m
  {
    Decimates(t, Pow2(i), Pow(w, Pow2(i)), Pow2(m - i - 1))
  }

  lemma SpectraDecimateAll(w: Complex, m: nat)
    requires m > 0 && Pow(w, Pow2(m - 1)) == MINUS_ONE
    ensures StagesDecimate(SpectraOf(w), w, m)
  {
    forall i | 0 <= i < m
      ensures StageDecimates(SpectraOf(w), w, m, i)
    {
      StageHalfTurn(w, m, i);
      SpectraDecimate(w, Pow2(i), Pow2(m - i - 1));
    }
  }

  /** The data before stage `i` of the first phase. */
  ghost predicate Halfway(t: Spectra, x: seq<Complex>, a: seq<real>, m: nat, i: nat) {
    i <= m && |a| == 2 * Pow2(m) && Interleaved(t, x, Elems(a, Pow2(m)), i, Pow2(m - i))
  }

  lemma StageAdvances(t: Spectra, x: seq<Complex>, a: seq<real>, b: seq<real>, w: Complex, m: nat, i: nat)
    requires i < m && |b| == 2 * Pow2(m) && Halfway(t, x, a, m, i) && StagesDecimate(t, w, m)
    requires Stage(Elems(a, Pow2(m)), Elems(b, Pow2(m)), i, Pow2(m - i - 1), Pow(w, Pow2(i)))
    ensures Halfway(t, x, b, m, i + 1)
  {
    assert StageDecimates(t, w, m, i);
    assert Pow2(m - i) == 2 * Pow2(m - i - 1);
    StageKeepsTransform(t, x, Elems(a, Pow2(m)), Elems(b, Pow2(m)), i, Pow2(m - i - 1), Pow(w, Pow2(i)));
  }

  /** One pass of the loop over the parallel stages, the cores one after the other or with their strips interleaved. */
  method ParallelStep(src: array<real>, buf: array<real>, twiddle: array<real>, at: nat, ntwi: nat, m: nat, c: nat,
                      i: nat, len: nat, ghost t: Spectra, ghost x: seq<Complex>, ghost w: Complex)
    requires i < c < m && src != buf && twiddle != buf && src.Length == buf.Length == 2 * Pow2(m)
    requires StagesDecimate(t, w, m) && len == Pow2(m - c - 1)
    requires FirstTables(twiddle[..], ntwi, m, c, w) && at == SegmentStart(m, i)
    requires Halfway(t, x, src[..], m, i)
    modifies buf
    ensures Halfway(t, x, buf[..], m, i + 1) && SegmentStart(m, i + 1) == at + Shr(Pow2(m), i + 1)
  {
    NextSegment(m, i);
    PowersHaveShape(m, c, i);
    GroupSize(m, c, i);
    assert SegmentOf(twiddle[..], ntwi, m, w, i);
    if * {
      ParallelStage(src, buf, twiddle, at, Pow2(m), ntwi, Pow2(c), i, len, Pow2(c - i), Pow(w, Pow2(i)));
    } else {
      InterleavedStage(src, buf, twiddle, at, Pow2(m), ntwi, Pow2(c), i, len, Shr(Pow2(c), i), Pow(w, Pow2(i)));
    }
    StageAdvances(t, x, src[..], buf[..], w, m, i);
  }

  lemma GroupSize(m: nat, c: nat, i: nat)
    requires i < c < m
    ensures Pow2(c - i) * Pow2(m - c - 1) == Pow2(m - i - 1)
  {
    Pow2Add(c - i, m - c - 1);
    assert (c - i) + (m - c - 1) == m - i - 1;
  }

  /** The parallel stages; `p2Switch` tells the second phase which buffer holds the data. */
  method FirstPhase(samples: array<real>, buffer: array<real>, twiddle: array<real>, ntwi: nat, m: nat, c: nat,
                    ghost t: Spectra, ghost x: seq<Complex>, ghost w: Complex)
    returns (p2Switch: nat)
    requires 0 < c < m && samples != buffer && twiddle != samples && twiddle != buffer
    requires samples.Length == buffer.Length == 2 * Pow2(m) && StagesDecimate(t, w, m)
    requires FirstTables(twiddle[..], ntwi, m, c, w) && Halfway(t, x, samples[..], m, 0)
    modifies samples, buffer
    ensures p2Switch < 2
    ensures Halfway(t, x, if p2Switch == 1 then samples[..] else buffer[..], m, c)
  {
    var nfft := Pow2(m);
    var nfftPc := PerCore(m, c);
    var len := Shr(nfftPc, 1);
    ShiftPow2(m - c, 1);
    var src, buf, at := samples, buffer, 0;
    p2Switch := 0;
    var i := 0;
    while i < c
      invariant 0 <= i <= c && at == SegmentStart(m, i)
      invariant i % 2 == 0 ==> src == samples && buf == buffer && (p2Switch == 1 || i == 0)
      invariant i % 2 == 1 ==> src == buffer && buf == samples && p2Switch == 0
      invariant Halfway(t, x, src[..], m, i)
    {
      ParallelStep(src, buf, twiddle, at, ntwi, m, c, i, len, t, x, w);
      src := if i % 2 == 1 then samples else buffer;
      buf := if i % 2 == 1 then buffer else samples;
      at := at + Shr(nfft, i + 1);
      p2Switch := i % 2;
      i := i + 1;
    }
  }

  /** The number of points per core. */
  method PerCore(m: nat, c: nat) returns (nfftPc: nat)
    requires c < m
    ensures nfftPc == Pow2(m - c)
  {
    Pow2Add(m - c, c);
    MultipleMod(Pow2(m - c), Pow2(c));
    nfftPc := Pow2(m) / Pow2(c);
  }

  // ----- The second phase -----

  /** A core's part of the data is as the first phase left it. */
  ghost predicate PartKept(now: seq<real>, data: seq<real>, n: nat, p: nat, cid: nat) {
    && |now| == |data| == 2 * n && 0 <= cid * p && cid * p + p <= n
    && Part(now, n, cid * p, p) == Part(data, n, cid * p, p)
  }

  lemma OtherPartKept(before: seq<real>, after: seq<real>, data: seq<real>, n: nat, p: nat, cid: nat, other: nat)
    requires cid != other && 0 <= cid * p && PartKept(before, data, n, p, other)
    requires OnlyPart(before, after, n, cid * p, p)
    ensures PartKept(after, data, n, p, other)
  {
    SlicesDisjoint(cid, other, p);
    var now, was := Part(after, n, other * p, p), Part(before, n, other * p, p);
    forall k | 0 <= k < p
      ensures now[k] == was[k]
    {}
    assert now == was;
  }

  lemma OtherResultsKept(before: seq<real>, after: seq<real>, n: nat, data: seq<real>, w: Complex, p: nat, half: nat,
                         c: nat, cid: nat, other: nat)
    requires cid != other && cid < Pow2(c) && other < Pow2(c) && CoreDelivered(before, n, data, w, p, c, other)
    requires OnlyStrided(before, after, n, half, Rev(c, cid), Pow2(c), 0, half)
    ensures CoreDelivered(after, n, data, w, p, c, other)
  {
    forall f | 0 <= f < p
      ensures ResultAt(after, n, Part(data, n, other * p, p), w, Rev(c, other), Pow2(c), f)
    {
      assert ResultAt(before, n, Part(data, n, other * p, p), w, Rev(c, other), Pow2(c), f);
      NotTouched(c, cid, other, 0, half, f);
      NotTouched(c, cid, other, half, half + half, f);
    }
  }

  /** The sizes that the cores share. */
  function SizesOf(m: nat, c: nat, at: nat, ntwi: nat): Sizes
    requires c < m
  {
    Sizes(Pow2(m), Pow2(m - c - 1), Shr(Pow2(m - c), 2), m - c, c, at, ntwi)
  }

  lemma SizesFit(m: nat, c: nat, at: nat, ntwi: nat)
    requires c < m
    ensures Fit(SizesOf(m, c, at, ntwi)) && Pow2(c) * Pow2(m - c) == Pow2(m)
  {
    Pow2Add(c, m - c);
  }

  /** The cores that are still to run find their parts of the data as the first phase left them. */
  ghost predicate Pending(now: seq<real>, first: seq<real>, n: nat, p: nat, todo: set<nat>) {
    forall cid :: cid in todo ==> PartKept(now, first, n, p, cid)
  }

  /** The other cores have delivered their results. */
  ghost predicate Finished(out: seq<real>, first: seq<real>, n: nat, p: nat, c: nat, w: Complex, todo: set<nat>) {
    forall cid :: 0 <= cid < Pow2(c) && cid !in todo ==> CoreDelivered(out, n, first, w, p, c, cid)
  }

  lemma PendingAtFirst(first: seq<real>, n: nat, p: nat, c: nat, todo: set<nat>)
    requires |first| == 2 * n && n == Pow2(c) * p && todo <= Cores(Pow2(c))
    ensures Pending(first, first, n, p, todo)
  {
    forall cid | cid in todo
      ensures PartKept(first, first, n, p, cid)
    {
      SliceFits(cid, Pow2(c), p);
    }
  }

  lemma CoreHasRun(data0: seq<real>, data1: seq<real>, out0: seq<real>, out1: seq<real>, first: seq<real>, n: nat,
                   p: nat, half: nat, c: nat, w: Complex, todo: set<nat>, cid: nat)
    requires cid in todo && todo <= Cores(Pow2(c)) && Pending(data0, first, n, p, todo)
    requires Finished(out0, first, n, p, c, w, todo)
    requires 0 <= cid * p && OnlyPart(data0, data1, n, cid * p, p)
    requires OnlyStrided(out0, out1, n, half, Rev(c, cid), Pow2(c), 0, half)
    requires CoreDelivered(out1, n, first, w, p, c, cid)
    ensures Pending(data1, first, n, p, todo - {cid}) && Finished(out1, first, n, p, c, w, todo - {cid})
  {
    forall other | other in todo && other != cid
      ensures PartKept(data1, first, n, p, other)
    {
      OtherPartKept(data0, data1, first, n, p, cid, other);
    }
    forall other | 0 <= other < Pow2(c) && other !in todo
      ensures CoreDelivered(out1, n, first, w, p, c, other)
    {
      OtherResultsKept(out0, out1, n, first, w, p, half, c, cid, other);
    }
  }

  /** One core's own stages. */
  method CoreTurn(data: array<real>, spare: array<real>, out: array<real>, twiddle: array<real>, storeIdx: array<nat>,
                  offset: nat, ntwi1: nat, ntwi2: nat, m: nat, c: nat, p: nat, cid: nat, ghost first: seq<real>,
                  ghost w: Complex, ghost todo: set<nat>)
    requires 0 < c < m && p == Pow2(m - c) && data != spare && data != twiddle && spare != twiddle
    requires out != data && out != spare && out != twiddle
    requires data.Length == spare.Length == out.Length == 2 * Pow2(m) && Pow(w, Pow2(m - c - 1)) == MINUS_ONE
    requires cid in todo && todo <= Cores(Pow2(c)) && offset == Rev(c, cid)
    requires AllTables(twiddle[..], ntwi2, 2 * ntwi1, storeIdx[..], w, m - c)
    requires Pending(data[..], first, Pow2(m), p, todo) && Finished(out[..], first, Pow2(m), p, c, w, todo)
    modifies data, spare, out
    ensures Pending(data[..], first, Pow2(m), p, todo - {cid})
    ensures Finished(out[..], first, Pow2(m), p, c, w, todo - {cid})
  {
    ghost var data0, out0 := data[..], out[..];
    assert PartKept(data[..], first, Pow2(m), p, cid);
    SizesFit(m, c, 2 * ntwi1, ntwi2);
    OutputShape(SizesOf(m, c, 2 * ntwi1, ntwi2), cid);
    FftP2(spare, data, twiddle, 2 * ntwi1, out, offset, storeIdx, cid * p, p, Pow2(m), m - c, 4 * Pow2(c), c, ntwi2,
          Part(data[..], Pow2(m), cid * p, p), w);
    assert CoreDelivered(out[..], Pow2(m), first, w, p, c, cid);
    CoreHasRun(data0, data[..], out0, out[..], first, Pow2(m), p, Pow2(m - c - 1), c, w, todo, cid);
  }

  /** Each core's own stages, the cores' calls in any order. */
  method CallsInAnyOrder(data: array<real>, spare: array<real>, out: array<real>, twiddle: array<real>,
                         storeIdx: array<nat>, coffset: array<nat>, ntwi1: nat, ntwi2: nat, m: nat, c: nat, p: nat,
                         ghost w: Complex)
    requires 0 < c < m && p == Pow2(m - c) && data != spare && data != twiddle && spare != twiddle
    requires out != data && out != spare && out != twiddle
    requires data.Length == spare.Length == out.Length == 2 * Pow2(m) && Pow(w, Pow2(m - c - 1)) == MINUS_ONE
    requires coffset.Length == Pow2(c) && forall cid :: 0 <= cid < Pow2(c) ==> coffset[cid] == Rev(c, cid)
    requires AllTables(twiddle[..], ntwi2, 2 * ntwi1, storeIdx[..], w, m - c)
    modifies data, spare, out
    ensures forall cid :: 0 <= cid < Pow2(c) ==> CoreDelivered(out[..], Pow2(m), old(data[..]), w, p, c, cid)
  {
    var todo := Cores(Pow2(c));
    SizesFit(m, c, 2 * ntwi1, ntwi2);
    PendingAtFirst(data[..], Pow2(m), p, c, todo);
    while todo != {}
      invariant todo <= Cores(Pow2(c))
      invariant Pending(data[..], old(data[..]), Pow2(m), p, todo)
      invariant Finished(out[..], old(data[..]), Pow2(m), p, c, w, todo)
      decreases |todo|
    {
      var cid :| cid in todo;
      CoreTurn(data, spare, out, twiddle, storeIdx, coffset[cid], ntwi1, ntwi2, m, c, p, cid, old(data[..]), w, todo);
      todo := todo - {cid};
    }
  }

  /**
    Each core's own stages, the cores one after the other or with their strips interleaved: their parts of the
    buffers and their places in the output are disjoint.
    */
  method SecondPhase(data: array<real>, spare: array<real>, out: array<real>, twiddle: array<real>,
                     storeIdx: array<nat>, coffset: array<nat>, ntwi1: nat, ntwi2: nat, m: nat, c: nat, ghost size: nat,
                     ghost w: Complex)
    requires 0 < c < m && size == Pow2(m - c) && data != spare && data != twiddle && spare != twiddle
    requires out != data && out != spare && out != twiddle
    requires data.Length == spare.Length == out.Length == 2 * Pow2(m) && Pow(w, Pow2(m - c - 1)) == MINUS_ONE
    requires coffset.Length == Pow2(c) && forall cid :: 0 <= cid < Pow2(c) ==> coffset[cid] == Rev(c, cid)
    requires AllTables(twiddle[..], ntwi2, 2 * ntwi1, storeIdx[..], w, m - c)
    modifies data, spare, out
    ensures forall cid :: 0 <= cid < Pow2(c) ==> CoreDelivered(out[..], Pow2(m), old(data[..]), w, size, c, cid)
  {
    if * {
      var p := Shr(Pow2(m), c);
      ShiftPow2(m, c);
      CallsInAnyOrder(data, spare, out, twiddle, storeIdx, coffset, ntwi1, ntwi2, m, c, p, w);
    } else {
      SizesFit(m, c, 2 * ntwi1, ntwi2);
      InterleavedCores(data, spare, out, twiddle, storeIdx, coffset, SizesOf(m, c, 2 * ntwi1, ntwi2), w);
    }
  }

  // ----- Both phases -----

  /** The result at `k` belongs to the core whose number has the reversed low bits of `k`. */
  lemma ResultOfCore(k: nat, m: nat, c: nat) returns (cid: nat, f: nat)
    requires c < m && k < Pow2(m)
    ensures cid < Pow2(c) && f < Pow2(m - c)
    ensures Strided(Rev(c, cid), Pow2(c), f) == k == Frequency(c, cid, f)
  {
    DivBounds(k, Pow2(c));
    QuotientNat(k, Pow2(c));
    cid, f := Rev(c, k % Pow2(c)), k / Pow2(c);
    RevBound(c, k % Pow2(c));
    RevInvolution(c, k % Pow2(c));
    Pow2Add(m - c, c);
    ScaleOrder(Pow2(m - c), f, Pow2(c));
    FrequencyIsReversed(c, cid, f);
    ProductCommutes(f, Pow2(c));
  }

  lemma ProductCommutes(a: nat, b: nat)
    ensures a * b == b * a
  {}

  /** A core's result is the transform of the whole input at the place where it is stored. */
  lemma CoreResult(out: seq<real>, n: nat, data: seq<real>, x: seq<Complex>, w: Complex, p: nat, c: nat, cid: nat,
                   f: nat)
    requires |data| == 2 * n && |out| == 2 * n && cid < Pow2(c) && f < p
    requires Interleaved(SpectraOf(w), x, Elems(data, n), c, p)
    requires CoreDelivered(out, n, data, Pow(w, Pow2(c)), p, c, cid)
    ensures Strided(Rev(c, cid), Pow2(c), f) < n
    ensures Elem(out, n, Strided(Rev(c, cid), Pow2(c), f)) == Transform(x, w, Frequency(c, cid, f))
  {
    assert BlockHolds(SpectraOf(w), x, Elems(data, n), c, p, cid, f);
    assert Elems(data, n)[cid * p..cid * p + p] == Part(data, n, cid * p, p);
    assert ResultAt(out, n, Part(data, n, cid * p, p), Pow(w, Pow2(c)), Rev(c, cid), Pow2(c), f);
    PowOne(w);
  }

  /** When every core has delivered, the whole transform of the input is in place. */
  lemma AllResults(out: seq<real>, data: seq<real>, x: seq<Complex>, w: Complex, m: nat, c: nat, size: nat)
    requires c < m && |data| == |out| == 2 * Pow2(m) && size == Pow2(m - c)
    requires Interleaved(SpectraOf(w), x, Elems(data, Pow2(m)), c, size)
    requires forall cid :: 0 <= cid < Pow2(c) ==> CoreDelivered(out, Pow2(m), data, Pow(w, Pow2(c)), size, c, cid)
    ensures forall k :: 0 <= k < Pow2(m) ==> Elem(out, Pow2(m), k) == Transform(x, w, k)
  {
    forall k | 0 <= k < Pow2(m)
      ensures Elem(out, Pow2(m), k) == Transform(x, w, k)
    {
      var cid, f := ResultOfCore(k, m, c);
      assert CoreDelivered(out, Pow2(m), data, Pow(w, Pow2(c)), size, c, cid);
      CoreResult(out, Pow2(m), data, x, w, size, c, cid, f);
    }
  }

  /** The tables that the program is compiled with. */
  ghost predicate Tables(twiddle: seq<real>, storeIdx: seq<nat>, coffset: seq<nat>, ntwi1: nat, ntwi2: nat, m: nat,
                         c: nat, w: Complex)
    requires c < m
  {
    && FirstTables(twiddle, ntwi1, m, c, w)
    && AllTables(twiddle, ntwi2, 2 * ntwi1, storeIdx, Pow(w, Pow2(c)), m - c)
    && |coffset| == Pow2(c) && forall cid :: 0 <= cid < Pow2(c) ==> coffset[cid] == Rev(c, cid)
  }

  /** The second phase, on the buffer that the first phase's last swap has left the data in. */
  method SwitchedPhase(samples: array<real>, buffer: array<real>, out: array<real>, twiddle: array<real>,
                       storeIdx: array<nat>, coffset: array<nat>, p2Switch: nat, ntwi1: nat, ntwi2: nat, m: nat, c: nat,
                       ghost size: nat, ghost w: Complex, ghost data: seq<real>)
    requires 0 < c < m && size == Pow2(m - c) && samples.Length == buffer.Length == out.Length == 2 * Pow2(m)
    requires samples != buffer && samples != out && buffer != out && twiddle != samples && twiddle != buffer
    requires twiddle != out && data == (if p2Switch == 1 then samples[..] else buffer[..])
    requires Pow(w, Pow2(m - c - 1)) == MINUS_ONE && AllTables(twiddle[..], ntwi2, 2 * ntwi1, storeIdx[..], w, m - c)
    requires coffset.Length == Pow2(c) && forall cid :: 0 <= cid < Pow2(c) ==> coffset[cid] == Rev(c, cid)
    modifies samples, buffer, out
    ensures forall cid :: 0 <= cid < Pow2(c) ==> CoreDelivered(out[..], Pow2(m), data, w, size, c, cid)
  {
    if p2Switch == 1 {
      SecondPhase(samples, buffer, out, twiddle, storeIdx, coffset, ntwi1, ntwi2, m, c, size, w);
    } else {
      SecondPhase(buffer, samples, out, twiddle, storeIdx, coffset, ntwi1, ntwi2, m, c, size, w);
    }
  }

  /**
    The measured part of the program on N = 2^m points and 2^c cores: for any input, any order of the cores, any
    any grant of vector lengths, out[k] and out[k + N] are the real and imaginary parts of the discrete Fourier
    transform of the input at k.  `w` is the root of unity of the tables, of which only w^(N/2) == -1 is used.
    */
  method Fft(samples: array<real>, buffer: array<real>, out: array<real>, twiddle: array<real>, storeIdx: array<nat>,
             coffset: array<nat>, ntwi1: nat, ntwi2: nat, m: nat, c: nat, ghost w: Complex)
    requires 0 < c < m && samples.Length == buffer.Length == out.Length == 2 * Pow2(m)
    requires samples != buffer && samples != out && buffer != out && twiddle != samples && twiddle != buffer
    requires twiddle != out
    requires Pow(w, Pow2(m - 1)) == MINUS_ONE && Tables(twiddle[..], storeIdx[..], coffset[..], ntwi1, ntwi2, m, c, w)
    modifies samples, buffer, out
    ensures forall k ::
        0 <= k < Pow2(m) ==> Elem(out[..], Pow2(m), k) == Transform(Elems(old(samples[..]), Pow2(m)), w, k)
  {
    ghost var x := Elems(samples[..], Pow2(m));
    SpectraDecimateAll(w, m);
    InterleavedInitially(SpectraOf(w), x);
    var p2Switch := FirstPhase(samples, buffer, twiddle, ntwi1, m, c, SpectraOf(w), x, w);
    ghost var data := if p2Switch == 1 then samples[..] else buffer[..];
    StageHalfTurn(w, m, c);
    SwitchedPhase(samples, buffer, out, twiddle, storeIdx, coffset, p2Switch, ntwi1, ntwi2, m, c, Pow2(m - c),
                  Pow(w, Pow2(c)), data);
    AllResults(out[..], data, x, w, m, c, Pow2(m - c));
  }
}
