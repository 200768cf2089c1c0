/** All stages of `fft_p2` together: a core leaves the transform of its part of the data, strided, in the output. */
module PhaseTwoCore {
  import opened Arithmetic
  import opened ComplexNumbers
  import opened Dft
  import opened Powers
  import opened PhaseTwo
  import opened VectorUnit
  import opened PhaseOneKernel
  import opened PhaseTwoKernel

  /** The part of a buffer that a core works on. */
  function Part(a: seq<real>, n: nat, off: nat, size: nat): (s: seq<Complex>)
    requires |a| == 2 * n && off + size <= n
    ensures |s| == size && forall k :: 0 <= k < size ==> s[k] == Elem(a, n, off + k)
  {
    seq(size, k requires 0 <= k < size => Elem(a, n, off + k))
  }

  /** The places of a stage's upper results. */
  function Places(pairs: nat, stride: nat): (s: seq<nat>)
    requires stride > 0 && pairs * (2 * stride) >= 0
    ensures |s| == pairs * (2 * stride)
    ensures forall j :: 0 <= j < |s| ==> s[j] == Destination(j, stride, pairs * (2 * stride))
  {
    var half := pairs * (2 * stride);
    seq(half, j requires 0 <= j < half => DestinationNat(j, pairs, stride))
  }

  function DestinationNat(j: nat, pairs: nat, stride: nat): nat
    requires stride > 0 && j < pairs * (2 * stride)
  {
    OriginOfDestination(j, pairs, stride);
    Destination(j, stride, pairs * (2 * stride))
  }

  /** The shuffle's places are distinct, and so are those of the two wings. */
  lemma PlacesAreDistinct(pairs: nat, stride: nat)
    requires stride > 0 && pairs > 0
    ensures pairs * (2 * stride) >= 0 && pairs * stride >= 0 && Placement(Places(pairs, stride), pairs * stride)
  {
    HalfIsTwoQuarters(pairs, stride);
    var half, quarter := pairs * (2 * stride), pairs * stride;
    var places := Places(pairs, stride);
    forall j | 0 <= j < half
      ensures places[j] + quarter < 2 * half
      ensures WingAt(places[j], half, quarter) == 0 && WingAt(places[j] + quarter, half, quarter) == 1
      ensures ButterflyOf(places[j], stride, half, quarter) == j
    {
      OriginOfDestination(j, pairs, stride);
      SlotsAreDistinct(pairs, stride, j, 0);
      SlotsAreDistinct(pairs, stride, j, 1);
    }
    forall j, k | 0 <= j < k < half
      ensures places[j] != places[k]
    {
      assert ButterflyOf(places[j], stride, half, quarter) == j;
      assert ButterflyOf(places[k], stride, half, quarter) == k;
    }
    forall j, k | 0 <= j < half && 0 <= k < half
      ensures places[j] != places[k] + quarter
    {
      assert WingAt(places[j], half, quarter) == 0;
      assert WingAt(places[k] + quarter, half, quarter) == 1;
    }
  }

  /** Entry `j` of a stage's twiddle factors. */
  predicate TwiddleIs(twi: seq<real>, ntwi: nat, at: nat, w: Complex, pairs: nat, half: nat, j: nat)
    requires half > 0 && ntwi + at + j < |twi|
  {
    RemainderNat(pairs * j, half);
    Entry(twi, ntwi, at + j) == Pow(w, (pairs * j) % half)
  }

  ghost predicate Twiddles(twi: seq<real>, ntwi: nat, at: nat, w: Complex, pairs: nat, half: nat) {
    at + ntwi + half <= |twi| && forall j :: 0 <= j < half ==> TwiddleIs(twi, ntwi, at, w, pairs, half, j)
  }

  lemma PlacedIsShuffled(src: seq<real>, out: seq<real>, twi: seq<real>, n: nat, off: nat, pairs: nat, stride: nat,
                         places: seq<nat>, half: nat, quarter: nat, at: nat, ntwi: nat, w: Complex, j: nat)
    requires StageShape(pairs, stride, half, quarter) && |src| == |out| == 2 * n && off + 2 * half <= n
    requires places == Places(pairs, stride) && j < half
    requires ntwi + at + j < |twi| && TwiddleIs(twi, ntwi, at, w, pairs, half, j)
    requires Placed(src, out, twi, n, off, places, quarter, at, ntwi, j)
    ensures ShuffledAt(Part(src, n, off, 2 * half), Part(out, n, off, 2 * half), w, pairs, stride, j)
  {
    assert places[j] == Destination(j, stride, half);
  }

  predicate StageShape(pairs: nat, stride: nat, half: nat, quarter: nat) {
    pairs > 0 && stride > 0 && half == pairs * (2 * stride) && quarter == pairs * stride && half == 2 * quarter
  }

  lemma PlacedMakesStage(src: seq<real>, out: seq<real>, twi: seq<real>, n: nat, off: nat, pairs: nat, stride: nat,
                         places: seq<nat>, half: nat, quarter: nat, at: nat, ntwi: nat, w: Complex)
    requires StageShape(pairs, stride, half, quarter) && |src| == |out| == 2 * n && off + 2 * half <= n
    requires places == Places(pairs, stride) && Twiddles(twi, ntwi, at, w, pairs, half)
    requires forall j :: 0 <= j < half ==> Placed(src, out, twi, n, off, places, quarter, at, ntwi, j)
    ensures ShuffledStage(Part(src, n, off, 2 * half), Part(out, n, off, 2 * half), w, pairs, stride)
  {
    forall j | 0 <= j < half
      ensures ShuffledAt(Part(src, n, off, 2 * half), Part(out, n, off, 2 * half), w, pairs, stride, j)
    {
      assert TwiddleIs(twi, ntwi, at, w, pairs, half, j);
      assert Placed(src, out, twi, n, off, places, quarter, at, ntwi, j);
      PlacedIsShuffled(src, out, twi, n, off, pairs, stride, places, half, quarter, at, ntwi, w, j);
    }
  }

  /** Outside the core's part nothing has changed. */
  ghost predicate OnlyPart(before: seq<real>, after: seq<real>, n: nat, off: nat, size: nat) {
    && |before| == |after| == 2 * n
    && forall k :: 0 <= k < n && !(off <= k < off + size) ==> Elem(after, n, k) == Elem(before, n, k)
  }

  lemma PlacesInPart(before: seq<real>, after: seq<real>, n: nat, off: nat, places: seq<nat>, quarter: nat)
    requires Placement(places, quarter) && OnlyPlaces(before, after, n, off, places, quarter, 0, |places|)
    ensures OnlyPart(before, after, n, off, 2 * |places|)
  {}

  lemma StageRoot(w: Complex, pairs: nat, stride: nat, half: nat)
    requires half == pairs * (2 * stride) && Pow(w, half) == MINUS_ONE
    ensures Pow(Pow(w, pairs), 2 * stride) == MINUS_ONE
  {
    PowMul(w, pairs, 2 * stride);
  }

  /** A stage other than the last. */
  method ShuffleStep(src: array<real>, buf: array<real>, twi: array<real>, seqIdx: array<nat>, n: nat, ntwi: nat,
                     off: nat, half: nat, quarter: nat, at: nat, idxAt: nat, ghost pairs: nat, ghost stride: nat,
                     ghost x: seq<Complex>, ghost w: Complex)
    requires src != buf && twi != buf && src.Length == buf.Length == 2 * n && off + 2 * half <= n
    requires StageShape(pairs, stride, half, quarter) && Pow(w, half) == MINUS_ONE
    requires Twiddles(twi[..], ntwi, at, w, pairs, half) && Indices(seqIdx[..], idxAt, Places(pairs, stride))
    requires Woven(SpectraOf(w), x, Part(src[..], n, off, 2 * half), half, pairs, 2 * stride)
    modifies buf
    ensures Woven(SpectraOf(w), x, Part(buf[..], n, off, 2 * half), half, 2 * pairs, stride)
    ensures OnlyPart(old(buf[..]), buf[..], n, off, 2 * half)
  {
    ghost var places := Places(pairs, stride);
    PlacesAreDistinct(pairs, stride);
    ShuffledButterflies(src, buf, twi, seqIdx, n, ntwi, off, half, quarter, at, idxAt, places);
    PlacesInPart(old(buf[..]), buf[..], n, off, places, quarter);
    PlacedMakesStage(src[..], buf[..], twi[..], n, off, pairs, stride, places, half, quarter, at, ntwi, w);
    StageRoot(w, pairs, stride, half);
    SpectraDecimate(w, pairs, 2 * stride);
    ShuffledStageKeepsTransform(SpectraOf(w), x, Part(src[..], n, off, 2 * half), Part(buf[..], n, off, 2 * half), w,
                                half, pairs, stride);
  }

  /** Result `f` of the core is in the output. */
  predicate ResultAt(out: seq<real>, n: nat, x: seq<Complex>, w: Complex, start: nat, step: nat, f: nat)
    requires |out| == 2 * n
  {
    Strided(start, step, f) < n && Elem(out, n, Strided(start, step, f)) == Transform(x, w, f)
  }

  lemma DeliveredResults(src: seq<real>, out: seq<real>, n: nat, off: nat, half: nat, start: nat, step: nat,
                         x: seq<Complex>, w: Complex, j: nat)
    requires |src| == |out| == 2 * n && off + 2 * half <= n && j < half && Pow(w, half) == MINUS_ONE
    requires Woven(SpectraOf(w), x, Part(src, n, off, 2 * half), half, half, 1)
    requires Delivered(src, out, n, off, half, start, step, j)
    ensures ResultAt(out, n, x, w, start, step, j) && ResultAt(out, n, x, w, start, step, half + j)
  {
    LastButterfly(x, Part(src, n, off, 2 * half), w, half, j);
  }

  /** The last stage. */
  method LastStep(src: array<real>, out: array<real>, n: nat, off: nat, half: nat, outAt: nat, stride: nat,
                  strideE: nat, ghost x: seq<Complex>, ghost w: Complex)
    requires src != out && src.Length == out.Length == 2 * n && off + 2 * half <= n && Pow(w, half) == MINUS_ONE
    requires StrideShape(n, half, outAt, Pow2(strideE)) && stride == 4 * Pow2(strideE)
    requires Woven(SpectraOf(w), x, Part(src[..], n, off, 2 * half), half, half, 1)
    modifies out
    ensures forall f :: 0 <= f < 2 * half ==> ResultAt(out[..], n, x, w, outAt, Pow2(strideE), f)
    ensures OnlyStrided(old(out[..]), out[..], n, half, outAt, Pow2(strideE), 0, half)
  {
    LastButterflies(src, out, n, off, half, outAt, stride, strideE);
    forall f | 0 <= f < 2 * half
      ensures ResultAt(out[..], n, x, w, outAt, Pow2(strideE), f)
    {
      var j := if f < half then f else f - half;
      assert Delivered(src[..], out[..], n, off, half, outAt, Pow2(strideE), j);
      DeliveredResults(src[..], out[..], n, off, half, outAt, Pow2(strideE), x, w, j);
    }
  }

  // ----- The whole second phase -----

  /** The tables of stage `s` of a transform of 2^(log2) points. */
  ghost predicate StageTables(twi: seq<real>, ntwi: nat, at: nat, seqIdx: seq<nat>, w: Complex, log2: nat, s: nat)
    requires s + 2 <= log2
  {
    var half := Pow2(log2 - 1);
    && Twiddles(twi, ntwi, at + s * half, w, Pow2(s), half)
    && s * half >= 0 && Pow2(s) * (2 * Pow2(log2 - 2 - s)) >= 0
    && Indices(seqIdx, s * half, Places(Pow2(s), Pow2(log2 - 2 - s)))
  }

  ghost predicate AllTables(twi: seq<real>, ntwi: nat, at: nat, seqIdx: seq<nat>, w: Complex, log2: nat) {
    forall s :: 0 <= s && s + 2 <= log2 ==> StageTables(twi, ntwi, at, seqIdx, w, log2, s)
  }

  lemma StageHasShape(log2: nat, s: nat)
    requires s + 2 <= log2
    ensures StageShape(Pow2(s), Pow2(log2 - 2 - s), Pow2(log2 - 1), Pow2(log2 - 2))
    ensures Shr(Pow2(log2), 1) == Pow2(log2 - 1) && Shr(Pow2(log2), 2) == Pow2(log2 - 2)
    ensures 2 * Pow2(log2 - 2 - s) == Pow2(log2 - 1 - s)
  {
    Pow2Add(s, log2 - 2 - s);
    Pow2Add(s, log2 - 1 - s);
    ShiftPow2(log2, 1);
    ShiftPow2(log2, 2);
    assert log2 - 1 - s == (log2 - 2 - s) + 1;
  }

  lemma OnlyPartTwice(first: seq<real>, second: seq<real>, third: seq<real>, n: nat, off: nat, size: nat)
    requires OnlyPart(first, second, n, off, size) && OnlyPart(second, third, n, off, size)
    ensures OnlyPart(first, third, n, off, size)
  {}

  /** How far the transform of `x` has come before stage `bf`: `data` is the buffer that the stage reads. */
  ghost predicate Progress(data: seq<real>, out: seq<real>, first: seq<real>, n: nat, off: nat, half: nat, outAt: nat,
                           step: nat, x: seq<Complex>, w: Complex, log2: nat, bf: nat)
    requires |data| == 2 * n && |out| == 2 * n && off + 2 * half <= n && bf <= log2
  {
    if bf < log2 then
      Woven(SpectraOf(w), x, Part(data, n, off, 2 * half), half, Pow2(bf), Pow2(log2 - 1 - bf)) && out == first
    else
      && (forall f :: 0 <= f < 2 * half ==> ResultAt(out, n, x, w, outAt, step, f))
      && OnlyStrided(first, out, n, half, outAt, step, 0, half)
  }

  /** One pass of the loop over the stages. */
  method RunStage(iBuf: array<real>, oBuf: array<real>, twi: array<real>, out: array<real>, seqIdx: array<nat>, n: nat,
                  ntwi: nat, off: nat, half: nat, quarter: nat, reTwi: nat, idxAt: nat, outAt: nat, stride: nat,
                  strideE: nat, log2Nfft: nat, bf: nat, ghost at: nat, ghost first: seq<real>, ghost x: seq<Complex>,
                  ghost w: Complex)
    requires iBuf != oBuf && twi != oBuf && out != iBuf && out != oBuf && out != twi
    requires iBuf.Length == oBuf.Length == out.Length == 2 * n && off + 2 * half <= n && Pow(w, half) == MINUS_ONE
    requires bf < log2Nfft && half == Pow2(log2Nfft - 1) && quarter == Shr(Pow2(log2Nfft), 2)
    requires stride == 4 * Pow2(strideE) && StrideShape(n, half, outAt, Pow2(strideE))
    requires AllTables(twi[..], ntwi, at, seqIdx[..], w, log2Nfft) && reTwi == at + bf * half && idxAt == bf * half
    requires Progress(iBuf[..], out[..], first, n, off, half, outAt, Pow2(strideE), x, w, log2Nfft, bf)
    modifies oBuf, out
    ensures Progress(oBuf[..], out[..], first, n, off, half, outAt, Pow2(strideE), x, w, log2Nfft, bf + 1)
    ensures OnlyPart(old(oBuf[..]), oBuf[..], n, off, 2 * half)
  {
    if bf == log2Nfft - 1 {
      LastStep(iBuf, out, n, off, half, outAt, stride, strideE, x, w);
    } else {
      StageHasShape(log2Nfft, bf);
      assert StageTables(twi[..], ntwi, at, seqIdx[..], w, log2Nfft, bf);
      ShuffleStep(iBuf, oBuf, twi, seqIdx, n, ntwi, off, half, quarter, reTwi, idxAt, Pow2(bf),
                  Pow2(log2Nfft - 2 - bf), x, w);
    }
  }

  /** The same, with all changes of the destination since `oBuf0` confined to the core's part. */
  method RunStageFrom(iBuf: array<real>, oBuf: array<real>, twi: array<real>, out: array<real>, seqIdx: array<nat>,
                      n: nat, ntwi: nat, off: nat, half: nat, quarter: nat, reTwi: nat, idxAt: nat, outAt: nat,
                      stride: nat, strideE: nat, log2Nfft: nat, bf: nat, ghost at: nat, ghost first: seq<real>,
                      ghost oBuf0: seq<real>, ghost x: seq<Complex>, ghost w: Complex)
    requires iBuf != oBuf && twi != oBuf && out != iBuf && out != oBuf && out != twi
    requires iBuf.Length == oBuf.Length == out.Length == 2 * n && off + 2 * half <= n && Pow(w, half) == MINUS_ONE
    requires bf < log2Nfft && half == Pow2(log2Nfft - 1) && quarter == Shr(Pow2(log2Nfft), 2)
    requires stride == 4 * Pow2(strideE) && StrideShape(n, half, outAt, Pow2(strideE))
    requires AllTables(twi[..], ntwi, at, seqIdx[..], w, log2Nfft) && reTwi == at + bf * half && idxAt == bf * half
    requires Progress(iBuf[..], out[..], first, n, off, half, outAt, Pow2(strideE), x, w, log2Nfft, bf)
    requires OnlyPart(oBuf0, oBuf[..], n, off, 2 * half)
    modifies oBuf, out
    ensures Progress(oBuf[..], out[..], first, n, off, half, outAt, Pow2(strideE), x, w, log2Nfft, bf + 1)
    ensures OnlyPart(oBuf0, oBuf[..], n, off, 2 * half)
  {
    ghost var before := oBuf[..];
    RunStage(iBuf, oBuf, twi, out, seqIdx, n, ntwi, off, half, quarter, reTwi, idxAt, outAt, stride, strideE, log2Nfft,
             bf, at, first, x, w);
    OnlyPartTwice(oBuf0, before, oBuf[..], n, off, 2 * half);
  }

  /** The buffers are source and destination in turn. */
  ghost predicate Passed(s: seq<real>, buf: seq<real>, out: seq<real>, first: seq<real>, n: nat, off: nat, half: nat,
                         outAt: nat, step: nat, x: seq<Complex>, w: Complex, log2: nat, bf: nat)
    requires |s| == |buf| == |out| == 2 * n && off + 2 * half <= n && bf <= log2
  {
    Progress(if bf % 2 == 0 then buf else s, out, first, n, off, half, outAt, step, x, w, log2, bf)
  }

  /** After a pass, what it has written is the source of the next one. */
  lemma PassedOn(s: seq<real>, buf: seq<real>, out: seq<real>, first: seq<real>, n: nat, off: nat, half: nat,
                 outAt: nat, step: nat, x: seq<Complex>, w: Complex, log2: nat, bf: nat)
    requires |s| == |buf| == |out| == 2 * n && off + 2 * half <= n && bf < log2
    requires Progress(if bf % 2 == 0 then s else buf, out, first, n, off, half, outAt, step, x, w, log2, bf + 1)
    ensures Passed(s, buf, out, first, n, off, half, outAt, step, x, w, log2, bf + 1)
  {
    assert (bf + 1) % 2 == 1 - bf % 2;
  }

  /** One pass of the loop over the stages, with the buffers in turn as source and destination. */
  method RunPass(s: array<real>, buf: array<real>, twi: array<real>, out: array<real>, seqIdx: array<nat>, n: nat,
                 ntwi: nat, off: nat, half: nat, quarter: nat, reTwi: nat, idxAt: nat, outAt: nat, stride: nat,
                 strideE: nat, log2Nfft: nat, bf: nat, ghost at: nat, ghost first: seq<real>, ghost s0: seq<real>,
                 ghost buf0: seq<real>, ghost x: seq<Complex>, ghost w: Complex)
    requires s != buf && s != twi && buf != twi && out != s && out != buf && out != twi
    requires s.Length == buf.Length == out.Length == 2 * n && off + 2 * half <= n && Pow(w, half) == MINUS_ONE
    requires bf < log2Nfft && half == Pow2(log2Nfft - 1) && quarter == Shr(Pow2(log2Nfft), 2)
    requires stride == 4 * Pow2(strideE) && StrideShape(n, half, outAt, Pow2(strideE))
    requires AllTables(twi[..], ntwi, at, seqIdx[..], w, log2Nfft) && reTwi == at + bf * half && idxAt == bf * half
    requires Passed(s[..], buf[..], out[..], first, n, off, half, outAt, Pow2(strideE), x, w, log2Nfft, bf)
    requires OnlyPart(s0, s[..], n, off, 2 * half) && OnlyPart(buf0, buf[..], n, off, 2 * half)
    modifies s, buf, out
    ensures Passed(s[..], buf[..], out[..], first, n, off, half, outAt, Pow2(strideE), x, w, log2Nfft, bf + 1)
    ensures OnlyPart(s0, s[..], n, off, 2 * half) && OnlyPart(buf0, buf[..], n, off, 2 * half)
  {
    if bf % 2 == 0 {
      RunStageFrom(buf, s, twi, out, seqIdx, n, ntwi, off, half, quarter, reTwi, idxAt, outAt, stride, strideE,
                   log2Nfft, bf, at, first, s0, x, w);
    } else {
      RunStageFrom(s, buf, twi, out, seqIdx, n, ntwi, off, half, quarter, reTwi, idxAt, outAt, stride, strideE,
                   log2Nfft, bf, at, first, buf0, x, w);
    }
    PassedOn(s[..], buf[..], out[..], first, n, off, half, outAt, Pow2(strideE), x, w, log2Nfft, bf);
  }

  /** The loop over the stages. */
  method RunStages(s: array<real>, buf: array<real>, twi: array<real>, out: array<real>, seqIdx: array<nat>, n: nat,
                   ntwi: nat, off: nat, half: nat, quarter: nat, at: nat, outAt: nat, stride: nat, strideE: nat,
                   log2Nfft: nat, ghost x: seq<Complex>, ghost w: Complex)
    requires s != buf && s != twi && buf != twi && out != s && out != buf && out != twi
    requires s.Length == buf.Length == out.Length == 2 * n && off + 2 * half <= n && Pow(w, half) == MINUS_ONE
    requires log2Nfft > 0 && half == Pow2(log2Nfft - 1) && quarter == Shr(Pow2(log2Nfft), 2)
    requires stride == 4 * Pow2(strideE) && StrideShape(n, half, outAt, Pow2(strideE))
    requires AllTables(twi[..], ntwi, at, seqIdx[..], w, log2Nfft)
    requires Passed(s[..], buf[..], out[..], out[..], n, off, half, outAt, Pow2(strideE), x, w, log2Nfft, 0)
    modifies s, buf, out
    ensures Passed(s[..], buf[..], out[..], old(out[..]), n, off, half, outAt, Pow2(strideE), x, w, log2Nfft, log2Nfft)
    ensures OnlyPart(old(s[..]), s[..], n, off, 2 * half) && OnlyPart(old(buf[..]), buf[..], n, off, 2 * half)
  {
    var reTwi: nat, idxAt: nat := at, 0;
    var bf := 0;
    while bf < log2Nfft
      invariant 0 <= bf <= log2Nfft && reTwi == at + bf * half && idxAt == bf * half
      invariant Passed(s[..], buf[..], out[..], old(out[..]), n, off, half, outAt, Pow2(strideE), x, w, log2Nfft, bf)
      invariant OnlyPart(old(s[..]), s[..], n, off, 2 * half) && OnlyPart(old(buf[..]), buf[..], n, off, 2 * half)
    {
      RunPass(s, buf, twi, out, seqIdx, n, ntwi, off, half, quarter, reTwi, idxAt, outAt, stride, strideE,
              log2Nfft, bf, at, old(out[..]), old(s[..]), old(buf[..]), x, w);
      Distribute(bf, 1, half);
      reTwi, idxAt, bf := reTwi + half, idxAt + half, bf + 1;
    }
  }

  /** `fft_p2`; `x` is the core's part of the data, which is in `buf`, and `w` the root of its transform. */
  method FftP2(s: array<real>, buf: array<real>, twi: array<real>, at: nat, out: array<real>, outAt: nat,
               seqIdx: array<nat>, off: nat, nfft: nat, nfftOri: nat, log2Nfft: nat, stride: nat, strideE: nat,
               ntwi: nat, ghost x: seq<Complex>, ghost w: Complex)
    requires s != buf && s != twi && buf != twi && out != s && out != buf && out != twi
    requires s.Length == buf.Length == out.Length == 2 * nfftOri && off + nfft <= nfftOri
    requires log2Nfft > 0 && nfft == Pow2(log2Nfft) && Pow(w, Pow2(log2Nfft - 1)) == MINUS_ONE
    requires stride == 4 * Pow2(strideE) && StrideShape(nfftOri, Pow2(log2Nfft - 1), outAt, Pow2(strideE))
    requires AllTables(twi[..], ntwi, at, seqIdx[..], w, log2Nfft)
    requires x == Part(buf[..], nfftOri, off, nfft)
    modifies s, buf, out
    ensures forall f :: 0 <= f < nfft ==> ResultAt(out[..], nfftOri, x, w, outAt, Pow2(strideE), f)
    ensures OnlyStrided(old(out[..]), out[..], nfftOri, Pow2(log2Nfft - 1), outAt, Pow2(strideE), 0, Pow2(log2Nfft - 1))
    ensures OnlyPart(old(s[..]), s[..], nfftOri, off, nfft) && OnlyPart(old(buf[..]), buf[..], nfftOri, off, nfft)
  {
    var half, quarter := Shr(nfft, 1), Shr(nfft, 2);
    ShiftPow2(log2Nfft, 1);
    WovenInitially(SpectraOf(w), x, half);
    RunStages(s, buf, twi, out, seqIdx, nfftOri, ntwi, off, half, quarter, at, outAt, stride, strideE, log2Nfft, x, w);
  }
}
