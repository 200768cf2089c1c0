/**
  The second phase of software/tests/fft-32b/main.c, strip by strip: the cores run `fft_p2` side by side, without a
  barrier between their stages, each on its own part of the two buffers and on its own strided places of the output.
  */
module PhaseTwoStrips {
  import opened Arithmetic
  import opened ComplexNumbers
  import opened Dft
  import opened Powers
  import opened PhaseTwo
  import opened VectorUnit
  import opened PhaseOneKernel
  import opened PhaseTwoKernel
  import opened PhaseTwoCore

  /** How far a core has come: the stage, and how many of its butterflies are computed. */
  datatype Position = Position(bf: nat, done: nat)

  /** The sizes that the cores share; `at` and `ntwi` locate the twiddle factors. */
  datatype Sizes = Sizes(n: nat, half: nat, quarter: nat, log2: nat, c: nat, at: nat, ntwi: nat)

  predicate Fit(z: Sizes) {
    && z.log2 > 0 && z.half == Pow2(z.log2 - 1) && z.quarter == Shr(Pow2(z.log2), 2)
    && z.n == Pow2(z.c) * (2 * z.half)
  }

  /** Where the part of a core begins. */
  function Offset(z: Sizes, cid: nat): nat {
    ProductNat(cid, 2 * z.half);
    cid * (2 * z.half)
  }

  lemma OffsetFits(z: Sizes, cid: nat)
    requires Fit(z) && cid < Pow2(z.c)
    ensures Offset(z, cid) + 2 * z.half <= z.n
  {
    SliceFits(cid, Pow2(z.c), 2 * z.half);
  }

  lemma OffsetsApart(z: Sizes, cid: nat, other: nat)
    requires cid != other
    ensures Offset(z, cid) + 2 * z.half <= Offset(z, other) || Offset(z, other) + 2 * z.half <= Offset(z, cid)
  {
    SlicesDisjoint(cid, other, 2 * z.half);
  }

  /** The output's strided shape. */
  lemma OutputShape(z: Sizes, cid: nat)
    requires Fit(z) && cid < Pow2(z.c)
    ensures StrideShape(z.n, z.half, Rev(z.c, cid), Pow2(z.c))
  {
    RevBound(z.c, cid);
    assert Pow2(z.c) * (2 * z.half) == 2 * (z.half * Pow2(z.c));
  }

  // ----- A core's progress -----

  /** The buffer that stage `bf` reads. */
  function Source(data: seq<real>, spare: seq<real>, bf: nat): seq<real> {
    if bf % 2 == 0 then data else spare
  }

  lemma SourceOf(data: seq<real>, spare: seq<real>, bf: nat)
    ensures bf % 2 == 0 ==> Source(data, spare, bf) == data && Source(data, spare, bf + 1) == spare
    ensures bf % 2 == 1 ==> Source(data, spare, bf) == spare && Source(data, spare, bf + 1) == data
  {}

  /** Where the twiddle factors of a stage begin. */
  function Entries(z: Sizes, bf: nat): nat {
    ProductNat(bf, z.half);
    z.at + bf * z.half
  }

  /** The first `done` butterflies of a stage other than the last are computed and in place. */
  ghost predicate StagePlaced(z: Sizes, src: seq<real>, dst: seq<real>, twi: seq<real>, off: nat, bf: nat, done: nat)
    requires bf + 2 <= z.log2 && |src| == |dst| == 2 * z.n && off + 2 * z.half <= z.n
  {
    && Pow2(bf) * (2 * Pow2(z.log2 - 2 - bf)) == z.half
    && Entries(z, bf) + z.ntwi + z.half <= |twi| && done <= z.half
    && forall j :: 0 <= j < done ==> PlacedAt(z, src, dst, twi, off, bf, j)
  }

  predicate PlacedAt(z: Sizes, src: seq<real>, dst: seq<real>, twi: seq<real>, off: nat, bf: nat, j: nat)
    requires bf + 2 <= z.log2 && |src| == |dst| == 2 * z.n && off + 2 * z.half <= z.n && j < z.half
    requires Pow2(bf) * (2 * Pow2(z.log2 - 2 - bf)) == z.half && Entries(z, bf) + z.ntwi + z.half <= |twi|
  {
    Placed(src, dst, twi, z.n, off, Places(Pow2(bf), Pow2(z.log2 - 2 - bf)), z.quarter, Entries(z, bf), z.ntwi, j)
  }

  /** The transform of the core's input `x` in a stage other than the last. */
  ghost predicate InStage(z: Sizes, src: seq<real>, dst: seq<real>, twi: seq<real>, x: seq<Complex>, w: Complex,
                          off: nat, bf: nat, done: nat)
    requires |src| == |dst| == 2 * z.n && off + 2 * z.half <= z.n && bf + 2 <= z.log2
  {
    && Woven(SpectraOf(w), x, Part(src, z.n, off, 2 * z.half), z.half, Pow2(bf), Pow2(z.log2 - 1 - bf))
    && StagePlaced(z, src, dst, twi, off, bf, done)
  }

  /** The transform of the core's input `x`, as far as it has come. */
  ghost predicate CoreAt(z: Sizes, data: seq<real>, spare: seq<real>, out: seq<real>, twi: seq<real>, x: seq<Complex>,
                         w: Complex, off: nat, start: nat, pos: Position)
    requires |data| == |spare| == |out| == 2 * z.n && off + 2 * z.half <= z.n && z.log2 > 0
  {
    var src, dst := Source(data, spare, pos.bf), Source(data, spare, pos.bf + 1);
    if pos.bf + 1 < z.log2 then
      pos.done < z.half && InStage(z, src, dst, twi, x, w, off, pos.bf, pos.done)
    else if pos.bf < z.log2 then
      && pos.done < z.half
      && Woven(SpectraOf(w), x, Part(src, z.n, off, 2 * z.half), z.half, Pow2(pos.bf), 1)
      && forall j :: 0 <= j < pos.done ==> Delivered(src, out, z.n, off, z.half, start, Pow2(z.c), j)
    else
      && pos == Position(z.log2, 0)
      && forall f :: 0 <= f < 2 * z.half ==> ResultAt(out, z.n, x, w, start, Pow2(z.c), f)
  }

  // ----- Other cores -----

  /** What a step of core `cid` may change. */
  ghost predicate OnlyCore(z: Sizes, data0: seq<real>, spare0: seq<real>, out0: seq<real>, data1: seq<real>,
                           spare1: seq<real>, out1: seq<real>, cid: nat)
  {
    && OnlyPart(data0, data1, z.n, Offset(z, cid), 2 * z.half)
    && OnlyPart(spare0, spare1, z.n, Offset(z, cid), 2 * z.half)
    && OnlyStrided(out0, out1, z.n, z.half, Rev(z.c, cid), Pow2(z.c), 0, z.half)
  }

  /** Another core's part is not changed. */
  lemma OtherPart(z: Sizes, before: seq<real>, after: seq<real>, cid: nat, other: nat)
    requires Fit(z) && cid != other && other < Pow2(z.c) && Offset(z, other) + 2 * z.half <= z.n
    requires OnlyPart(before, after, z.n, Offset(z, cid), 2 * z.half)
    ensures forall k ::
        Offset(z, other) <= k < Offset(z, other) + 2 * z.half ==> Elem(after, z.n, k) == Elem(before, z.n, k)
    ensures Part(after, z.n, Offset(z, other), 2 * z.half) == Part(before, z.n, Offset(z, other), 2 * z.half)
  {
    OffsetsApart(z, cid, other);
  }

  /** The strided places of cores with different numbers are different. */
  lemma OffsetsDistinct(c: nat, cid: nat, other: nat, f: nat, g: nat)
    requires cid < Pow2(c) && other < Pow2(c) && Strided(Rev(c, cid), Pow2(c), f) == Strided(Rev(c, other), Pow2(c), g)
    ensures cid == other
  {
    RevBound(c, cid);
    RevBound(c, other);
    DivUnique(Strided(Rev(c, cid), Pow2(c), f), Pow2(c), f);
    DivUnique(Strided(Rev(c, other), Pow2(c), g), Pow2(c), g);
    Distribute(f, 1, Pow2(c));
    Distribute(g, 1, Pow2(c));
    assert f == g;
    RevInvolution(c, cid);
    RevInvolution(c, other);
  }

  lemma NotTouched(c: nat, cid: nat, other: nat, lo: nat, hi: nat, f: nat)
    requires cid != other && cid < Pow2(c) && other < Pow2(c)
    ensures !AtStride(Strided(Rev(c, other), Pow2(c), f), Rev(c, cid), Pow2(c), lo, hi)
  {
    if g :| lo <= g < hi && Strided(Rev(c, other), Pow2(c), f) == Strided(Rev(c, cid), Pow2(c), g) {
      OffsetsDistinct(c, cid, other, g, f);
      assert false;
    }
  }

  /** Another core's places in the output are not changed. */
  lemma OtherPlace(z: Sizes, before: seq<real>, after: seq<real>, cid: nat, other: nat, f: nat)
    requires cid != other && cid < Pow2(z.c) && other < Pow2(z.c)
    requires OnlyStrided(before, after, z.n, z.half, Rev(z.c, cid), Pow2(z.c), 0, z.half)
    requires Strided(Rev(z.c, other), Pow2(z.c), f) < z.n
    ensures Elem(after, z.n, Strided(Rev(z.c, other), Pow2(z.c), f))
         == Elem(before, z.n, Strided(Rev(z.c, other), Pow2(z.c), f))
  {
    NotTouched(z.c, cid, other, 0, z.half, f);
    NotTouched(z.c, cid, other, z.half, z.half + z.half, f);
  }

  lemma OtherInStage(z: Sizes, src0: seq<real>, dst0: seq<real>, src1: seq<real>, dst1: seq<real>, twi: seq<real>,
                     x: seq<Complex>, w: Complex, cid: nat, other: nat, bf: nat, done: nat)
    requires Fit(z) && cid != other && other < Pow2(z.c) && bf + 2 <= z.log2
    requires Offset(z, other) + 2 * z.half <= z.n
    requires OnlyPart(src0, src1, z.n, Offset(z, cid), 2 * z.half)
    requires OnlyPart(dst0, dst1, z.n, Offset(z, cid), 2 * z.half)
    requires InStage(z, src0, dst0, twi, x, w, Offset(z, other), bf, done)
    ensures InStage(z, src1, dst1, twi, x, w, Offset(z, other), bf, done)
  {
    OtherPart(z, src0, src1, cid, other);
    OtherPart(z, dst0, dst1, cid, other);
    forall j | 0 <= j < done
      ensures PlacedAt(z, src1, dst1, twi, Offset(z, other), bf, j)
    {
      assert PlacedAt(z, src0, dst0, twi, Offset(z, other), bf, j);
    }
  }

  lemma OtherDelivered(z: Sizes, src0: seq<real>, src1: seq<real>, out0: seq<real>, out1: seq<real>, cid: nat,
                       other: nat, j: nat)
    requires Fit(z) && cid != other && cid < Pow2(z.c) && other < Pow2(z.c) && j < z.half
    requires Offset(z, other) + 2 * z.half <= z.n
    requires OnlyPart(src0, src1, z.n, Offset(z, cid), 2 * z.half)
    requires OnlyStrided(out0, out1, z.n, z.half, Rev(z.c, cid), Pow2(z.c), 0, z.half)
    requires Delivered(src0, out0, z.n, Offset(z, other), z.half, Rev(z.c, other), Pow2(z.c), j)
    ensures Delivered(src1, out1, z.n, Offset(z, other), z.half, Rev(z.c, other), Pow2(z.c), j)
  {
    OtherPart(z, src0, src1, cid, other);
    OtherPlace(z, out0, out1, cid, other, j);
    OtherPlace(z, out0, out1, cid, other, z.half + j);
  }

  /** A step of one core leaves the progress of another alone. */
  lemma OtherCoreKept(z: Sizes, data0: seq<real>, spare0: seq<real>, out0: seq<real>, data1: seq<real>,
                      spare1: seq<real>, out1: seq<real>, twi: seq<real>, x: seq<Complex>, w: Complex, cid: nat,
                      other: nat, pos: Position)
    requires Fit(z) && cid != other && cid < Pow2(z.c) && other < Pow2(z.c) && Offset(z, other) + 2 * z.half <= z.n
    requires OnlyCore(z, data0, spare0, out0, data1, spare1, out1, cid)
    requires CoreAt(z, data0, spare0, out0, twi, x, w, Offset(z, other), Rev(z.c, other), pos)
    ensures CoreAt(z, data1, spare1, out1, twi, x, w, Offset(z, other), Rev(z.c, other), pos)
  {
    var src0, src1 := Source(data0, spare0, pos.bf), Source(data1, spare1, pos.bf);
    if pos.bf + 1 < z.log2 {
      OtherInStage(z, src0, Source(data0, spare0, pos.bf + 1), src1, Source(data1, spare1, pos.bf + 1), twi, x, w, cid,
                   other, pos.bf, pos.done);
    } else if pos.bf < z.log2 {
      OtherPart(z, src0, src1, cid, other);
      forall j | 0 <= j < pos.done
        ensures Delivered(src1, out1, z.n, Offset(z, other), z.half, Rev(z.c, other), Pow2(z.c), j)
      {
        OtherDelivered(z, src0, src1, out0, out1, cid, other, j);
      }
    } else {
      forall f | 0 <= f < 2 * z.half
        ensures ResultAt(out1, z.n, x, w, Rev(z.c, other), Pow2(z.c), f)
      {
        assert ResultAt(out0, z.n, x, w, Rev(z.c, other), Pow2(z.c), f);
        OtherPlace(z, out0, out1, cid, other, f);
      }
    }
  }

  // ----- One strip -----

  /** What a strip of a stage other than the last needs. */
  lemma StageIsReady(z: Sizes, src: seq<real>, dst: seq<real>, twi: seq<real>, index: seq<nat>, w: Complex, off: nat,
                     bf: nat, done: nat, places: seq<nat>)
    requires Fit(z) && bf + 2 <= z.log2 && off + 2 * z.half <= z.n && |src| == |dst| == 2 * z.n
    requires AllTables(twi, z.ntwi, z.at, index, w, z.log2) && StagePlaced(z, src, dst, twi, off, bf, done)
    requires places == Places(Pow2(bf), Pow2(z.log2 - 2 - bf))
    ensures bf * z.half >= 0 && |places| == z.half && Placement(places, z.quarter)
    ensures Indices(index, bf * z.half, places)
    ensures forall j :: 0 <= j < done ==>
              Placed(src, dst, twi, z.n, off, places, z.quarter, Entries(z, bf), z.ntwi, j)
  {
    StageHasShape(z.log2, bf);
    PlacesAreDistinct(Pow2(bf), Pow2(z.log2 - 2 - bf));
    assert StageTables(twi, z.ntwi, z.at, index, w, z.log2, bf);
    PlacedAtPlaces(z, src, dst, twi, off, bf, done, places);
  }

  lemma PlacedAtPlaces(z: Sizes, src: seq<real>, dst: seq<real>, twi: seq<real>, off: nat, bf: nat, done: nat,
                       places: seq<nat>)
    requires bf + 2 <= z.log2 && off + 2 * z.half <= z.n && |src| == |dst| == 2 * z.n
    requires StagePlaced(z, src, dst, twi, off, bf, done) && places == Places(Pow2(bf), Pow2(z.log2 - 2 - bf))
    ensures forall j :: 0 <= j < done ==>
              Placed(src, dst, twi, z.n, off, places, z.quarter, Entries(z, bf), z.ntwi, j)
  {
    forall j | 0 <= j < done
      ensures Placed(src, dst, twi, z.n, off, places, z.quarter, Entries(z, bf), z.ntwi, j)
    {
      assert PlacedAt(z, src, dst, twi, off, bf, j);
    }
  }

  /** The end of a stage other than the last. */
  lemma StageEnds(z: Sizes, src: seq<real>, dst: seq<real>, twi: seq<real>, index: seq<nat>, x: seq<Complex>,
                  w: Complex, off: nat, bf: nat)
    requires Fit(z) && bf + 2 <= z.log2 && off + 2 * z.half <= z.n && |src| == |dst| == 2 * z.n
    requires Pow(w, z.half) == MINUS_ONE && AllTables(twi, z.ntwi, z.at, index, w, z.log2)
    requires Woven(SpectraOf(w), x, Part(src, z.n, off, 2 * z.half), z.half, Pow2(bf), Pow2(z.log2 - 1 - bf))
    requires StagePlaced(z, src, dst, twi, off, bf, z.half)
    ensures Woven(SpectraOf(w), x, Part(dst, z.n, off, 2 * z.half), z.half, Pow2(bf + 1), Pow2(z.log2 - 2 - bf))
  {
    var pairs, stride, at := Pow2(bf), Pow2(z.log2 - 2 - bf), Entries(z, bf);
    StageHasShape(z.log2, bf);
    var places := Places(pairs, stride);
    StageIsReady(z, src, dst, twi, index, w, off, bf, z.half, places);
    assert StageTables(twi, z.ntwi, z.at, index, w, z.log2, bf);
    PlacedMakesStage(src, dst, twi, z.n, off, pairs, stride, places, z.half, z.quarter, at, z.ntwi, w);
    StageRoot(w, pairs, stride, z.half);
    SpectraDecimate(w, pairs, 2 * stride);
    ShuffledStageKeepsTransform(SpectraOf(w), x, Part(src, z.n, off, 2 * z.half), Part(dst, z.n, off, 2 * z.half), w,
                                z.half, pairs, stride);
  }

  /** Before its first butterfly a stage other than the last asks for nothing but its tables. */
  lemma StageBegins(z: Sizes, src: seq<real>, dst: seq<real>, twi: seq<real>, index: seq<nat>, w: Complex, off: nat,
                    bf: nat)
    requires Fit(z) && bf + 2 <= z.log2 && off + 2 * z.half <= z.n && |src| == |dst| == 2 * z.n
    requires AllTables(twi, z.ntwi, z.at, index, w, z.log2)
    ensures StagePlaced(z, src, dst, twi, off, bf, 0)
  {
    StageHasShape(z.log2, bf);
    assert StageTables(twi, z.ntwi, z.at, index, w, z.log2, bf);
  }

  /** One strip of a stage other than the last. */
  method CoreShuffle(iBuf: array<real>, oBuf: array<real>, twi: array<real>, seqIdx: array<nat>, z: Sizes, off: nat,
                     bf: nat, done: nat, ghost x: seq<Complex>, ghost w: Complex)
    returns (vl: nat)
    requires Fit(z) && bf + 2 <= z.log2 && done < z.half && off + 2 * z.half <= z.n
    requires iBuf != oBuf && twi != oBuf && iBuf.Length == oBuf.Length == 2 * z.n
    requires AllTables(twi[..], z.ntwi, z.at, seqIdx[..], w, z.log2)
    requires InStage(z, iBuf[..], oBuf[..], twi[..], x, w, off, bf, done)
    modifies oBuf
    ensures 1 <= vl <= z.half - done
    ensures InStage(z, iBuf[..], oBuf[..], twi[..], x, w, off, bf, done + vl)
    ensures OnlyPart(old(oBuf[..]), oBuf[..], z.n, off, 2 * z.half)
  {
    StageHasShape(z.log2, bf);
    ghost var places := Places(Pow2(bf), Pow2(z.log2 - 2 - bf));
    StageIsReady(z, iBuf[..], oBuf[..], twi[..], seqIdx[..], w, off, bf, done, places);
    ProductNat(bf, z.half);
    vl := ShuffledStrip(iBuf, oBuf, twi, seqIdx, z.n, z.ntwi, off, z.half, z.quarter, off + done,
                        Entries(z, bf) + done, bf * z.half + done, z.half - done, Entries(z, bf), bf * z.half, places,
                        done);
    StripInPart(old(oBuf[..]), oBuf[..], z.n, off, places, z.quarter, done, done + vl);
  }

  lemma StripInPart(before: seq<real>, after: seq<real>, n: nat, off: nat, places: seq<nat>, quarter: nat, lo: nat,
                    hi: nat)
    requires Placement(places, quarter) && lo <= hi <= |places|
    requires OnlyPlaces(before, after, n, off, places, quarter, lo, hi)
    ensures OnlyPart(before, after, n, off, 2 * |places|)
  {}

  /** One strip of the last stage. */
  method CoreLast(iBuf: array<real>, out: array<real>, z: Sizes, off: nat, start: nat, done: nat)
    returns (vl: nat)
    requires Fit(z) && done < z.half && off + 2 * z.half <= z.n
    requires iBuf != out && iBuf.Length == out.Length == 2 * z.n && StrideShape(z.n, z.half, start, Pow2(z.c))
    requires forall j :: 0 <= j < done ==> Delivered(iBuf[..], out[..], z.n, off, z.half, start, Pow2(z.c), j)
    modifies out
    ensures 1 <= vl <= z.half - done
    ensures forall j :: 0 <= j < done + vl ==> Delivered(iBuf[..], out[..], z.n, off, z.half, start, Pow2(z.c), j)
    ensures OnlyStrided(old(out[..]), out[..], z.n, z.half, start, Pow2(z.c), 0, z.half)
  {
    var step := Pow2(z.c);
    StrideAdvances(start, step, z.half, 0, done);
    StrideAdvances(start, step, z.half, done, 0);
    var upper, lower := start + done * step, start + z.n / 2 + done * step;
    vl := LastStrip(iBuf, out, z.n, off, z.half, off + done, upper, lower, z.half - done, 4 * step, start, step, done);
    StridedWithin(old(out[..]), out[..], z.n, z.half, start, step, done, done + vl);
  }

  lemma StridedWithin(before: seq<real>, after: seq<real>, n: nat, half: nat, start: nat, step: nat, lo: nat, hi: nat)
    requires lo <= hi <= half && OnlyStrided(before, after, n, half, start, step, lo, hi)
    ensures OnlyStrided(before, after, n, half, start, step, 0, half)
  {
    forall k: nat | k < n
      ensures Elem(after, n, k) == Elem(before, n, k) ||
              AtStride(k, start, step, 0, half) || AtStride(k, start, step, half, half + half)
    {
      StrideWidens(k, start, step, lo, hi, 0, half);
      StrideWidens(k, start, step, half + lo, half + hi, half, half + half);
    }
  }

  /** The end of the last stage. */
  lemma LastEnds(z: Sizes, src: seq<real>, out: seq<real>, x: seq<Complex>, w: Complex, off: nat, start: nat)
    requires Fit(z) && off + 2 * z.half <= z.n && |src| == |out| == 2 * z.n && Pow(w, z.half) == MINUS_ONE
    requires Woven(SpectraOf(w), x, Part(src, z.n, off, 2 * z.half), z.half, z.half, 1)
    requires forall j :: 0 <= j < z.half ==> Delivered(src, out, z.n, off, z.half, start, Pow2(z.c), j)
    ensures forall f :: 0 <= f < 2 * z.half ==> ResultAt(out, z.n, x, w, start, Pow2(z.c), f)
  {
    forall f | 0 <= f < 2 * z.half
      ensures ResultAt(out, z.n, x, w, start, Pow2(z.c), f)
    {
      var j := if f < z.half then f else f - z.half;
      assert Delivered(src, out, z.n, off, z.half, start, Pow2(z.c), j);
      DeliveredResults(src, out, z.n, off, z.half, start, Pow2(z.c), x, w, j);
    }
  }

  // ----- The cores side by side -----

  /** How far core `cid` has come with its part of the data, which was `first`. */
  ghost predicate CoreIs(z: Sizes, data: seq<real>, spare: seq<real>, out: seq<real>, twi: seq<real>, first: seq<real>,
                         w: Complex, cid: nat, pos: Position)
    requires |data| == |spare| == |out| == |first| == 2 * z.n && z.log2 > 0
  {
    && Offset(z, cid) + 2 * z.half <= z.n
    && CoreAt(z, data, spare, out, twi, Part(first, z.n, Offset(z, cid), 2 * z.half), w, Offset(z, cid), Rev(z.c, cid),
              pos)
  }

  ghost predicate CoresAre(z: Sizes, data: seq<real>, spare: seq<real>, out: seq<real>, twi: seq<real>,
                           first: seq<real>, w: Complex, at: seq<Position>)
    requires |data| == |spare| == |out| == |first| == 2 * z.n && z.log2 > 0
  {
    |at| == Pow2(z.c) && forall cid :: 0 <= cid < |at| ==> CoreIs(z, data, spare, out, twi, first, w, cid, at[cid])
  }

  /** At first every core's part holds its input. */
  lemma CoreBegins(z: Sizes, data: seq<real>, spare: seq<real>, out: seq<real>, twi: seq<real>, index: seq<nat>,
                   w: Complex, cid: nat)
    requires Fit(z) && |data| == |spare| == |out| == 2 * z.n && cid < Pow2(z.c)
    requires AllTables(twi, z.ntwi, z.at, index, w, z.log2)
    ensures CoreIs(z, data, spare, out, twi, data, w, cid, Position(0, 0))
  {
    OffsetFits(z, cid);
    WovenInitially(SpectraOf(w), Part(data, z.n, Offset(z, cid), 2 * z.half), z.half);
    if z.log2 > 1 {
      StageBegins(z, data, spare, twi, index, w, Offset(z, cid), 0);
    }
  }

  lemma CoresBegin(z: Sizes, data: seq<real>, spare: seq<real>, out: seq<real>, twi: seq<real>, index: seq<nat>,
                   w: Complex, at: seq<Position>)
    requires Fit(z) && |data| == |spare| == |out| == 2 * z.n && AllTables(twi, z.ntwi, z.at, index, w, z.log2)
    requires |at| == Pow2(z.c) && forall cid :: 0 <= cid < |at| ==> at[cid] == Position(0, 0)
    ensures CoresAre(z, data, spare, out, twi, data, w, at)
  {
    forall cid | 0 <= cid < |at|
      ensures CoreIs(z, data, spare, out, twi, data, w, cid, at[cid])
    {
      CoreBegins(z, data, spare, out, twi, index, w, cid);
    }
  }

  /** The position after the next `vl` butterflies. */
  function Moved(z: Sizes, pos: Position, vl: nat): Position {
    if pos.done + vl < z.half then Position(pos.bf, pos.done + vl) else Position(pos.bf + 1, 0)
  }

  /** After a strip of a stage other than the last; at the end of the stage the core is before the next one. */
  lemma CoreMoves(z: Sizes, data: seq<real>, spare: seq<real>, out: seq<real>, twi: seq<real>, index: seq<nat>,
                  x: seq<Complex>, w: Complex, off: nat, start: nat, pos: Position, vl: nat)
    requires Fit(z) && pos.bf + 2 <= z.log2 && pos.done + vl <= z.half && off + 2 * z.half <= z.n
    requires |data| == |spare| == |out| == 2 * z.n && Pow(w, z.half) == MINUS_ONE
    requires AllTables(twi, z.ntwi, z.at, index, w, z.log2)
    requires InStage(z, Source(data, spare, pos.bf), Source(data, spare, pos.bf + 1), twi, x, w, off, pos.bf,
                     pos.done + vl)
    ensures CoreAt(z, data, spare, out, twi, x, w, off, start, Moved(z, pos, vl))
  {
    var src, dst := Source(data, spare, pos.bf), Source(data, spare, pos.bf + 1);
    if pos.done + vl == z.half {
      StageEnds(z, src, dst, twi, index, x, w, off, pos.bf);
      if pos.bf + 2 < z.log2 {
        StageBegins(z, dst, src, twi, index, w, off, pos.bf + 1);
      }
    }
  }

  lemma CoreInStage(z: Sizes, data: seq<real>, spare: seq<real>, out: seq<real>, twi: seq<real>, first: seq<real>,
                    w: Complex, cid: nat, pos: Position)
    requires |data| == |spare| == |out| == |first| == 2 * z.n && pos.bf + 2 <= z.log2
    requires CoreIs(z, data, spare, out, twi, first, w, cid, pos)
    ensures Offset(z, cid) + 2 * z.half <= z.n && pos.done < z.half
    ensures InStage(z, Source(data, spare, pos.bf), Source(data, spare, pos.bf + 1), twi,
                    Part(first, z.n, Offset(z, cid), 2 * z.half), w, Offset(z, cid), pos.bf, pos.done)
  {}

  lemma CoreHasMoved(z: Sizes, data: seq<real>, spare: seq<real>, out: seq<real>, twi: seq<real>, index: seq<nat>,
                     first: seq<real>, w: Complex, cid: nat, pos: Position, vl: nat)
    requires Fit(z) && pos.bf + 2 <= z.log2 && pos.done + vl <= z.half && Offset(z, cid) + 2 * z.half <= z.n
    requires |data| == |spare| == |out| == |first| == 2 * z.n && Pow(w, z.half) == MINUS_ONE
    requires AllTables(twi, z.ntwi, z.at, index, w, z.log2)
    requires InStage(z, Source(data, spare, pos.bf), Source(data, spare, pos.bf + 1), twi,
                     Part(first, z.n, Offset(z, cid), 2 * z.half), w, Offset(z, cid), pos.bf, pos.done + vl)
    ensures CoreIs(z, data, spare, out, twi, first, w, cid, Moved(z, pos, vl))
  {
    CoreMoves(z, data, spare, out, twi, index, Part(first, z.n, Offset(z, cid), 2 * z.half), w, Offset(z, cid),
              Rev(z.c, cid), pos, vl);
  }

  /** The same, with the buffers in turn as source and destination. */
  method ShuffleTurn(data: array<real>, spare: array<real>, twi: array<real>, seqIdx: array<nat>, z: Sizes, off: nat,
                     bf: nat, done: nat, ghost x: seq<Complex>, ghost w: Complex)
    returns (vl: nat)
    requires Fit(z) && bf + 2 <= z.log2 && done < z.half && off + 2 * z.half <= z.n
    requires data != spare && twi != data && twi != spare && data.Length == spare.Length == 2 * z.n
    requires AllTables(twi[..], z.ntwi, z.at, seqIdx[..], w, z.log2)
    requires InStage(z, Source(data[..], spare[..], bf), Source(data[..], spare[..], bf + 1), twi[..], x, w, off, bf,
                     done)
    modifies data, spare
    ensures 1 <= vl <= z.half - done
    ensures InStage(z, Source(data[..], spare[..], bf), Source(data[..], spare[..], bf + 1), twi[..], x, w, off, bf,
                    done + vl)
    ensures OnlyPart(old(data[..]), data[..], z.n, off, 2 * z.half)
    ensures OnlyPart(old(spare[..]), spare[..], z.n, off, 2 * z.half)
  {
    if bf % 2 == 0 {
      SourceOf(data[..], spare[..], bf);
      vl := CoreShuffle(data, spare, twi, seqIdx, z, off, bf, done, x, w);
      SourceOf(data[..], spare[..], bf);
    } else {
      SourceOf(data[..], spare[..], bf);
      vl := CoreShuffle(spare, data, twi, seqIdx, z, off, bf, done, x, w);
      SourceOf(data[..], spare[..], bf);
    }
  }

  /** One strip of core `cid` in a stage other than the last. */
  method ShuffleOfCore(data: array<real>, spare: array<real>, ghost out: seq<real>, twi: array<real>,
                       seqIdx: array<nat>, z: Sizes, cid: nat, pos: Position, ghost first: seq<real>, ghost w: Complex)
    returns (vl: nat)
    requires Fit(z) && data != spare && twi != data && twi != spare
    requires data.Length == spare.Length == |out| == |first| == 2 * z.n && Pow(w, z.half) == MINUS_ONE
    requires AllTables(twi[..], z.ntwi, z.at, seqIdx[..], w, z.log2) && cid < Pow2(z.c) && pos.bf + 2 <= z.log2
    requires CoreIs(z, data[..], spare[..], out, twi[..], first, w, cid, pos)
    modifies data, spare
    ensures CoreIs(z, data[..], spare[..], out, twi[..], first, w, cid, Moved(z, pos, vl))
    ensures OnlyPart(old(data[..]), data[..], z.n, Offset(z, cid), 2 * z.half)
    ensures OnlyPart(old(spare[..]), spare[..], z.n, Offset(z, cid), 2 * z.half)
    ensures 1 <= vl <= z.half - pos.done
  {
    CoreInStage(z, data[..], spare[..], out, twi[..], first, w, cid, pos);
    vl := ShuffleTurn(data, spare, twi, seqIdx, z, Offset(z, cid), pos.bf, pos.done,
                      Part(first, z.n, Offset(z, cid), 2 * z.half), w);
    CoreHasMoved(z, data[..], spare[..], out, twi[..], seqIdx[..], first, w, cid, pos, vl);
  }

  /** One strip of core `cid` in the last stage. */
  method LastOfCore(data: array<real>, spare: array<real>, out: array<real>, ghost twi: seq<real>, z: Sizes, cid: nat,
                    start: nat, pos: Position, ghost first: seq<real>, ghost w: Complex)
    returns (vl: nat)
    requires Fit(z) && out != data && out != spare && pos.bf + 1 == z.log2
    requires data.Length == spare.Length == out.Length == |first| == 2 * z.n && Pow(w, z.half) == MINUS_ONE
    requires cid < Pow2(z.c) && start == Rev(z.c, cid)
    requires CoreIs(z, data[..], spare[..], out[..], twi, first, w, cid, pos)
    modifies out
    ensures CoreIs(z, data[..], spare[..], out[..], twi, first, w, cid, Moved(z, pos, vl))
    ensures OnlyStrided(old(out[..]), out[..], z.n, z.half, Rev(z.c, cid), Pow2(z.c), 0, z.half)
    ensures 1 <= vl <= z.half - pos.done
  {
    var off := Offset(z, cid);
    var iBuf := if pos.bf % 2 == 0 then data else spare;
    OutputShape(z, cid);
    vl := CoreLast(iBuf, out, z, off, start, pos.done);
    if pos.done + vl == z.half {
      LastEnds(z, iBuf[..], out[..], Part(first, z.n, off, 2 * z.half), w, off, start);
    }
  }

  /** One strip of core `cid`, whatever stage it is in. */
  method StripOfCore(data: array<real>, spare: array<real>, out: array<real>, twi: array<real>, seqIdx: array<nat>,
                     z: Sizes, cid: nat, start: nat, pos: Position, ghost first: seq<real>, ghost w: Complex)
    returns (vl: nat)
    requires Fit(z) && data != spare && twi != data && twi != spare && out != data && out != spare && out != twi
    requires data.Length == spare.Length == out.Length == |first| == 2 * z.n && Pow(w, z.half) == MINUS_ONE
    requires AllTables(twi[..], z.ntwi, z.at, seqIdx[..], w, z.log2) && pos.bf < z.log2
    requires cid < Pow2(z.c) && start == Rev(z.c, cid)
    requires CoreIs(z, data[..], spare[..], out[..], twi[..], first, w, cid, pos)
    modifies data, spare, out
    ensures CoreIs(z, data[..], spare[..], out[..], twi[..], first, w, cid, Moved(z, pos, vl))
    ensures OnlyCore(z, old(data[..]), old(spare[..]), old(out[..]), data[..], spare[..], out[..], cid)
    ensures 1 <= vl <= z.half - pos.done
  {
    if pos.bf == z.log2 - 1 {
      vl := LastOfCore(data, spare, out, twi[..], z, cid, start, pos, first, w);
    } else {
      vl := ShuffleOfCore(data, spare, out[..], twi, seqIdx, z, cid, pos, first, w);
    }
  }

  /** A strip of one core keeps the progress of all the others. */
  lemma StripKeepsAll(z: Sizes, data0: seq<real>, spare0: seq<real>, out0: seq<real>, data1: seq<real>,
                      spare1: seq<real>, out1: seq<real>, twi: seq<real>, first: seq<real>, w: Complex,
                      at: seq<Position>, cid: nat, next: Position)
    requires Fit(z) && |data0| == |spare0| == |out0| == |first| == 2 * z.n && cid < Pow2(z.c)
    requires OnlyCore(z, data0, spare0, out0, data1, spare1, out1, cid)
    requires CoresAre(z, data0, spare0, out0, twi, first, w, at)
    requires CoreIs(z, data1, spare1, out1, twi, first, w, cid, next)
    ensures CoresAre(z, data1, spare1, out1, twi, first, w, at[cid := next])
  {
    var now := at[cid := next];
    forall other | 0 <= other < |now|
      ensures CoreIs(z, data1, spare1, out1, twi, first, w, other, now[other])
    {
      assert CoreIs(z, data0, spare0, out0, twi, first, w, other, at[other]);
      if other != cid {
        OtherCoreKept(z, data0, spare0, out0, data1, spare1, out1, twi,
                      Part(first, z.n, Offset(z, other), 2 * z.half), w, cid, other, at[other]);
      }
    }
  }

  /** The number of butterflies that a core has computed. */
  function Computations(z: Sizes, pos: Position): nat {
    ProductNat(pos.bf, z.half);
    pos.bf * z.half + pos.done
  }

  lemma ComputationsRise(z: Sizes, pos: Position, vl: nat)
    requires pos.bf < z.log2 && 1 <= vl <= z.half - pos.done
    ensures Computations(z, pos) < Computations(z, Moved(z, pos, vl)) <= Computations(z, Position(z.log2, 0))
  {
    Distribute(pos.bf, 1, z.half);
    Distribute(pos.bf + 1, z.log2 - pos.bf - 1, z.half);
    ProductNat(z.log2 - pos.bf - 1, z.half);
  }

  ghost predicate Counted(z: Sizes, at: seq<Position>, counts: seq<nat>) {
    |counts| == |at| && forall cid :: 0 <= cid < |at| ==> counts[cid] == Computations(z, at[cid])
  }

  lemma StripCounts(z: Sizes, at: seq<Position>, counts: seq<nat>, cid: nat, vl: nat)
    requires Counted(z, at, counts) && cid < |at| && at[cid].bf < z.log2 && 1 <= vl <= z.half - at[cid].done
    ensures var next := Moved(z, at[cid], vl); Counted(z, at[cid := next], counts[cid := Computations(z, next)])
    ensures Remaining(counts[cid := Computations(z, Moved(z, at[cid], vl))], Computations(z, Position(z.log2, 0)))
          < Remaining(counts, Computations(z, Position(z.log2, 0)))
  {
    ComputationsRise(z, at[cid], vl);
    RemainingDrops(counts, Computations(z, Position(z.log2, 0)), cid, Computations(z, Moved(z, at[cid], vl)));
  }

  /** What the second phase leaves in the output for one core. */
  ghost predicate CoreDelivered(out: seq<real>, n: nat, data: seq<real>, w: Complex, p: nat, c: nat, cid: nat) {
    && |out| == |data| == 2 * n && 0 <= cid * p && cid * p + p <= n
    && forall f :: 0 <= f < p ==> ResultAt(out, n, Part(data, n, cid * p, p), w, Rev(c, cid), Pow2(c), f)
  }

  lemma CoresEnd(z: Sizes, data: seq<real>, spare: seq<real>, out: seq<real>, twi: seq<real>, first: seq<real>,
                 w: Complex, at: seq<Position>)
    requires Fit(z) && |data| == |spare| == |out| == |first| == 2 * z.n
    requires CoresAre(z, data, spare, out, twi, first, w, at) && forall cid :: 0 <= cid < |at| ==> at[cid].bf >= z.log2
    ensures forall cid :: 0 <= cid < Pow2(z.c) ==> CoreDelivered(out, z.n, first, w, 2 * z.half, z.c, cid)
  {
    forall cid | 0 <= cid < Pow2(z.c)
      ensures CoreDelivered(out, z.n, first, w, 2 * z.half, z.c, cid)
    {
      assert CoreIs(z, data, spare, out, twi, first, w, cid, at[cid]);
    }
  }

  /** All cores' own stages, their strips interleaved in any way. */
  method InterleavedCores(data: array<real>, spare: array<real>, out: array<real>, twi: array<real>,
                          seqIdx: array<nat>, coffset: array<nat>, z: Sizes, ghost w: Complex)
    requires Fit(z) && data != spare && twi != data && twi != spare && out != data && out != spare && out != twi
    requires data.Length == spare.Length == out.Length == 2 * z.n && Pow(w, z.half) == MINUS_ONE
    requires AllTables(twi[..], z.ntwi, z.at, seqIdx[..], w, z.log2)
    requires coffset.Length == Pow2(z.c) && forall cid :: 0 <= cid < Pow2(z.c) ==> coffset[cid] == Rev(z.c, cid)
    modifies data, spare, out
    ensures forall cid ::
        0 <= cid < Pow2(z.c) ==> CoreDelivered(out[..], z.n, old(data[..]), w, 2 * z.half, z.c, cid)
  {
    var at := seq(Pow2(z.c), _ => Position(0, 0));
    ghost var counts: seq<nat> := seq(Pow2(z.c), _ => 0);
    CoresBegin(z, data[..], spare[..], out[..], twi[..], seqIdx[..], w, at);
    while exists cid :: 0 <= cid < |at| && at[cid].bf < z.log2
      invariant Counted(z, at, counts)
      invariant CoresAre(z, data[..], spare[..], out[..], twi[..], old(data[..]), w, at)
      decreases Remaining(counts, Computations(z, Position(z.log2, 0)))
    {
      var cid :| 0 <= cid < |at| && at[cid].bf < z.log2;
      assert CoreIs(z, data[..], spare[..], out[..], twi[..], old(data[..]), w, cid, at[cid]);
      ghost var data0, spare0, out0 := data[..], spare[..], out[..];
      var vl := StripOfCore(data, spare, out, twi, seqIdx, z, cid, coffset[cid], at[cid], old(data[..]), w);
      var next := Moved(z, at[cid], vl);
      StripKeepsAll(z, data0, spare0, out0, data[..], spare[..], out[..], twi[..], old(data[..]), w, at, cid, next);
      StripCounts(z, at, counts, cid, vl);
      counts := counts[cid := Computations(z, next)];
      at := at[cid := next];
    }
    CoresEnd(z, data[..], spare[..], out[..], twi[..], old(data[..]), w, at);
  }
}
