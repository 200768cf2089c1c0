/**
  What the first phase of the FFT computes: stages of butterflies on blocks that halve from stage to stage
  (software/tests/fft-32b/kernel/fft.c and main.c), on sequences of complex numbers.
  */
module PhaseOne {
  import opened Arithmetic
  import opened ComplexNumbers
  import opened Dft
  import opened Powers

  /** In the block of `z` that starts at `base`, the butterflies of the same block of `y` are at position `r`. */
  predicate ButterflyAt(y: seq<Complex>, z: seq<Complex>, base: nat, h: nat, v: Complex, r: nat)
    requires |y| == |z| && r < h && base + 2 * h <= |y|
  {
    && z[base + r] == Add(y[base + r], y[base + h + r])
    && z[base + h + r] == Mul(Sub(y[base + r], y[base + h + r]), Pow(v, r))
  }

  /** Stage `i` leads from `y` to `z`: butterflies with distance `h` in every one of the 2^i blocks of size 2 * h. */
  ghost predicate Stage(y: seq<Complex>, z: seq<Complex>, i: nat, h: nat, v: Complex) {
    && |y| == |z| == Pow2(i) * (2 * h)
    && forall g, r :: 0 <= g < Pow2(i) && 0 <= r < h ==> ButterflyOf(y, z, i, h, v, g, r)
  }

  predicate ButterflyOf(y: seq<Complex>, z: seq<Complex>, i: nat, h: nat, v: Complex, g: nat, r: nat)
    requires |y| == |z| == Pow2(i) * (2 * h) && r < h
  {
    InBlock(g, i, h) && ButterflyAt(y, z, g * (2 * h), h, v, r)
  }

  /** Block `g` lies within the data. */
  predicate InBlock(g: nat, i: nat, h: nat) {
    0 <= g * (2 * h) && g * (2 * h) + 2 * h <= Pow2(i) * (2 * h)
  }

  lemma BlockFits(g: nat, i: nat, h: nat)
    requires g < Pow2(i)
    ensures InBlock(g, i, h)
  {
    SliceFits(g, Pow2(i), 2 * h);
  }

  /** Before stage `i`, the blocks of size `b` hold the transform of `x`, interleaved in bit-reversed order. */
  ghost predicate Interleaved(t: Spectra, x: seq<Complex>, y: seq<Complex>, i: nat, b: nat) {
    && |y| == Pow2(i) * b
    && forall g, f :: 0 <= g < Pow2(i) && 0 <= f ==> BlockHolds(t, x, y, i, b, g, f)
  }

  predicate BlockHolds(t: Spectra, x: seq<Complex>, y: seq<Complex>, i: nat, b: nat, g: nat, f: nat) {
    && 0 <= g * b <= g * b + b <= |y|
    && t(y[g * b..g * b + b], Pow2(i), f) == t(x, 1, Frequency(i, g, f))
  }

  /**
    The frequency that block `g` before stage `i` holds at its own frequency `f`: its parent holds it at 2 * f or 2 *
    f + 1.
    */
  function Frequency(i: nat, g: nat, f: nat): nat {
    if i == 0 then f else Frequency(i - 1, g / 2, 2 * f + g % 2)
  }

  /** Block `g` holds every 2^i-th frequency, from the reversed bits of `g` on. */
  lemma {:induction false} FrequencyIsReversed(i: nat, g: nat, f: nat)
    ensures Frequency(i, g, f) == Pow2(i) * f + Rev(i, g)
  {
    if i > 0 {
      FrequencyIsReversed(i - 1, g / 2, 2 * f + g % 2);
      Doubled(Pow2(i - 1), f);
      assert g % 2 == 0 || g % 2 == 1;
    }
  }

  lemma Doubled(p: nat, f: nat)
    ensures p * (2 * f) == (2 * p) * f && p * (2 * f + 1) == (2 * p) * f + p
  {}

  lemma InterleavedInitially(t: Spectra, x: seq<Complex>)
    ensures Interleaved(t, x, x, 0, |x|)
  {
    forall g, f | 0 <= g < Pow2(0) && 0 <= f
      ensures BlockHolds(t, x, x, 0, |x|, g, f)
    {
      assert x[..|x|] == x;
    }
  }

  /** A block is decimated into two blocks of half its size. */
  lemma BlockIsHalved(y: seq<Complex>, z: seq<Complex>, base: nat, h: nat, v: Complex)
    requires |y| == |z| && base + 2 * h <= |y|
    requires forall r :: 0 <= r < h ==> ButterflyAt(y, z, base, h, v, r)
    ensures Halved(y[base..base + 2 * h], z[base..base + h], z[base + h..base + 2 * h], v, h)
  {
    var a, b := y[base..base + h], y[base + h..base + 2 * h];
    assert y[base..base + 2 * h] == a + b;
    forall r | 0 <= r < h
      ensures z[base..base + h][r] == Sums(a, b)[r]
      ensures z[base + h..base + 2 * h][r] == Twiddled(Differences(a, b), v)[r]
    {
      assert ButterflyAt(y, z, base, h, v, r);
    }
    assert z[base..base + h] == Sums(a, b);
    assert z[base + h..base + 2 * h] == Twiddled(Differences(a, b), v);
  }

  lemma HalvesInterleave(i: nat, g: nat, f: nat)
    ensures Frequency(i + 1, 2 * g, f) == Frequency(i, g, 2 * f)
    ensures Frequency(i + 1, 2 * g + 1, f) == Frequency(i, g, 2 * f + 1)
  {
    assert (2 * g) / 2 == g && (2 * g + 1) / 2 == g;
  }

  lemma HalfPositions(g: nat, h: nat)
    ensures (2 * g) * h == g * (2 * h) && (2 * g + 1) * h == g * (2 * h) + h
  {}

  lemma StageButterflies(y: seq<Complex>, z: seq<Complex>, i: nat, h: nat, v: Complex, g: nat, base: nat)
    requires Stage(y, z, i, h, v) && g < Pow2(i) && base == g * (2 * h)
    ensures base + 2 * h <= |y|
    ensures forall r :: 0 <= r < h ==> ButterflyAt(y, z, base, h, v, r)
  {
    BlockFits(g, i, h);
    forall r | 0 <= r < h
      ensures ButterflyAt(y, z, base, h, v, r)
    {
      assert ButterflyOf(y, z, i, h, v, g, r);
    }
  }

  lemma BlockHalves(y: seq<Complex>, z: seq<Complex>, i: nat, h: nat, v: Complex, g: nat, base: nat)
    requires Stage(y, z, i, h, v) && g < Pow2(i) && base == g * (2 * h) && base + 2 * h <= |y|
    ensures Halved(y[base..base + 2 * h], z[base..base + h], z[base + h..base + 2 * h], v, h)
  {
    StageButterflies(y, z, i, h, v, g, base);
    BlockIsHalved(y, z, base, h, v);
  }

  lemma BlockSplits(t: Spectra, y: seq<Complex>, z: seq<Complex>, i: nat, h: nat, v: Complex, g: nat, base: nat, f: nat)
    requires Decimates(t, Pow2(i), v, h)
    requires Stage(y, z, i, h, v) && g < Pow2(i) && base == g * (2 * h) && base + 2 * h <= |y|
    ensures Splits(t, Pow2(i), y[base..base + 2 * h], z[base..base + h], z[base + h..base + 2 * h], f)
  {
    BlockHalves(y, z, i, h, v, g, base);
  }

  lemma BlockKept(t: Spectra, x: seq<Complex>, y: seq<Complex>, z: seq<Complex>, i: nat, h: nat, g: nat, base: nat,
                  f: nat)
    requires |y| == |z| && base == g * (2 * h) && base + 2 * h <= |y|
    requires Splits(t, Pow2(i), y[base..base + 2 * h], z[base..base + h], z[base + h..base + 2 * h], f)
    requires BlockHolds(t, x, y, i, 2 * h, g, 2 * f) && BlockHolds(t, x, y, i, 2 * h, g, 2 * f + 1)
    ensures BlockHolds(t, x, z, i + 1, h, 2 * g, f) && BlockHolds(t, x, z, i + 1, h, 2 * g + 1, f)
  {
    HalfPositions(g, h);
    HalvesInterleave(i, g, f);
  }

  lemma HalvesKept(t: Spectra, x: seq<Complex>, y: seq<Complex>, z: seq<Complex>, i: nat, h: nat, v: Complex, g: nat,
                   f: nat)
    requires Decimates(t, Pow2(i), v, h)
    requires Stage(y, z, i, h, v) && g < Pow2(i)
    requires BlockHolds(t, x, y, i, 2 * h, g, 2 * f) && BlockHolds(t, x, y, i, 2 * h, g, 2 * f + 1)
    ensures BlockHolds(t, x, z, i + 1, h, 2 * g, f) && BlockHolds(t, x, z, i + 1, h, 2 * g + 1, f)
  {
    BlockFits(g, i, h);
    var base := g * (2 * h);
    assert 0 <= base && base + 2 * h <= |y|;
    BlockSplits(t, y, z, i, h, v, g, base, f);
    BlockKept(t, x, y, z, i, h, g, base, f);
  }

  lemma SizeKept(i: nat, h: nat)
    ensures Pow2(i + 1) * h == Pow2(i) * (2 * h)
  {}

  lemma BlockOfStage(t: Spectra, x: seq<Complex>, y: seq<Complex>, z: seq<Complex>, i: nat, h: nat, v: Complex, k: nat,
                     g: nat, f: nat)
    requires Decimates(t, Pow2(i), v, h)
    requires Stage(y, z, i, h, v) && k < Pow2(i) && (g == 2 * k || g == 2 * k + 1)
    requires BlockHolds(t, x, y, i, 2 * h, k, 2 * f) && BlockHolds(t, x, y, i, 2 * h, k, 2 * f + 1)
    ensures BlockHolds(t, x, z, i + 1, h, g, f)
  {
    HalvesKept(t, x, y, z, i, h, v, k, f);
  }

  /** A stage keeps the transform interleaved over the blocks, which it halves. */
  lemma StageKeepsTransform(t: Spectra, x: seq<Complex>, y: seq<Complex>, z: seq<Complex>, i: nat, h: nat, v: Complex)
    requires Decimates(t, Pow2(i), v, h)
    requires Stage(y, z, i, h, v) && Interleaved(t, x, y, i, 2 * h)
    ensures Interleaved(t, x, z, i + 1, h)
  {
    SizeKept(i, h);
    var n := i + 1;
    forall g, f | 0 <= g < Pow2(n) && 0 <= f
      ensures BlockHolds(t, x, z, n, h, g, f)
    {
      BlockOfStage(t, x, y, z, i, h, v, g / 2, g, f);
    }
  }

  // ----- How a stage is divided among the cores -----

  /** The first position that a core works on: `perGroup` cores share a block, each has `len` butterflies of it. */
  function CoreBase(cid: nat, perGroup: nat, len: nat): int
    requires perGroup > 0
  {
    (cid / perGroup) * (2 * (perGroup * len)) + (cid % perGroup) * len
  }

  /** Position `k` is written by the core whose ranges start at `base`. */
  predicate InRanges(k: int, base: int, h: int, len: int) {
    base <= k < base + len || base + h <= k < base + h + len
  }

  /** The core that position `k` belongs to. */
  function Owner(k: int, perGroup: nat, len: nat): int
    requires perGroup * len > 0 && len > 0
  {
    var h := perGroup * len;
    (k / (2 * h)) * perGroup + (k % h) / len
  }

  /** Position `j` of a wing of a core belongs to that core. */
  lemma OwnerOfWing(g: nat, idx: nat, wing: nat, j: nat, perGroup: nat, len: nat)
    requires perGroup > 0 && len > 0 && idx < perGroup && wing < 2 && j < len
    ensures perGroup * len > 0
    ensures Owner(g * (2 * (perGroup * len)) + wing * (perGroup * len) + idx * len + j, perGroup, len) ==
            g * perGroup + idx
  {
    var h := perGroup * len;
    ScaleOrder(idx + 1, perGroup, len);
    Distribute(idx, 1, len);
    ScaleOrder(0, idx, len);
    WingPosition(g, wing, idx * len + j, h);
    DivUnique(idx * len + j, len, idx);
  }

  lemma WingPosition(g: nat, wing: nat, r: nat, h: nat)
    requires wing < 2 && r < h
    ensures var k := g * (2 * h) + wing * h + r; k / (2 * h) == g && k % h == r
  {
    var k := g * (2 * h) + wing * h + r;
    Distribute(g, 1, 2 * h);
    DivUnique(k, 2 * h, g);
    assert k == (2 * g + wing) * h + r;
    Distribute(2 * g + wing, 1, h);
    DivUnique(k, h, 2 * g + wing);
    DivBounds(k, h);
  }

  /** A position is in the ranges of its owner. */
  lemma OwnerHasPosition(k: nat, perGroup: nat, len: nat)
    requires perGroup > 0 && len > 0
    ensures perGroup * len > 0 && Owner(k, perGroup, len) >= 0
    ensures InRanges(k, CoreBase(Owner(k, perGroup, len), perGroup, len), perGroup * len, len)
  {
    var h := perGroup * len;
    var g, r := k / (2 * h), k % h;
    DivBounds(k, 2 * h);
    DivBounds(k, h);
    DivBounds(r, len);
    QuotientNat(k, 2 * h);
    QuotientNat(r, len);
    ScaleOrder(r / len + 1, perGroup + 1, len);
    var wing := k / h - 2 * g;
    WingOf(k, h);
    Distribute(perGroup, 1, len);
    GroupOf(g, r / len, perGroup);
  }

  lemma GroupOf(g: nat, idx: nat, perGroup: nat)
    requires idx < perGroup
    ensures g * perGroup + idx >= 0 && (g * perGroup + idx) / perGroup == g && (g * perGroup + idx) % perGroup == idx
  {
    Distribute(g, 1, perGroup);
    DivUnique(g * perGroup + idx, perGroup, g);
    DivBounds(g * perGroup + idx, perGroup);
  }

  lemma WingOf(k: nat, h: nat)
    requires h > 0
    ensures k == (k / (2 * h)) * (2 * h) + k % h || k == (k / (2 * h)) * (2 * h) + h + k % h
  {
    var g := k / (2 * h);
    DivBounds(k, 2 * h);
    DivBounds(k, h);
    var r := k - g * (2 * h);
    assert g * (2 * h) == (2 * g) * h;
    Distribute(2 * g, 1, h);
    if r < h {
      DivUnique(k, h, 2 * g);
    } else {
      DivUnique(k, h, 2 * g + 1);
      Distribute(2 * g + 1, 1, h);
    }
  }

  /**
    The partition: the ranges of the cores are pairwise disjoint and cover all positions, since a position is
    in the ranges of a core exactly if the core is its owner.
    */
  lemma StagePartition(k: nat, cid: nat, perGroup: nat, len: nat)
    requires perGroup > 0 && len > 0
    ensures perGroup * len > 0
    ensures InRanges(k, CoreBase(cid, perGroup, len), perGroup * len, len) <==> Owner(k, perGroup, len) == cid
  {
    var h, base := perGroup * len, CoreBase(cid, perGroup, len);
    var g, idx := cid / perGroup, cid % perGroup;
    DivBounds(cid, perGroup);
    QuotientNat(cid, perGroup);
    OwnerHasPosition(k, perGroup, len);
    if base <= k < base + len {
      OwnerOfWing(g, idx, 0, k - base, perGroup, len);
    } else if base + h <= k < base + h + len {
      OwnerOfWing(g, idx, 1, k - base - h, perGroup, len);
    }
  }

  /** All positions of the data belong to active cores, and an active core's ranges lie within the data. */
  lemma OwnersAreActive(k: nat, cid: nat, groups: nat, perGroup: nat, len: nat)
    requires perGroup > 0 && len > 0
    ensures perGroup * len > 0
    ensures k < groups * (2 * (perGroup * len)) ==> Owner(k, perGroup, len) < groups * perGroup
    ensures cid < groups * perGroup ==>
              && 0 <= CoreBase(cid, perGroup, len)
              && CoreBase(cid, perGroup, len) + perGroup * len + len <= groups * (2 * (perGroup * len))
  {
    var h := perGroup * len;
    OwnerActive(k, groups, perGroup, len);
    if cid < groups * perGroup {
      RangeFits(cid, groups, perGroup, len);
    }
  }

  lemma OwnerActive(k: nat, groups: nat, perGroup: nat, len: nat)
    requires perGroup > 0 && len > 0
    ensures perGroup * len > 0
    ensures k < groups * (2 * (perGroup * len)) ==> Owner(k, perGroup, len) < groups * perGroup
  {
    var h := perGroup * len;
    var g := k / (2 * h);
    DivBounds(k, 2 * h);
    DivBounds(k, h);
    DivBounds(k % h, len);
    ScaleOrder(perGroup, (k % h) / len, len);
    if k < groups * (2 * h) {
      ScaleOrder(groups, g, 2 * h);
      ScaleOrder(g + 1, groups, perGroup);
      Distribute(g, 1, perGroup);
    }
  }

  lemma RangeFits(cid: nat, groups: nat, perGroup: nat, len: nat)
    requires perGroup > 0 && len > 0 && cid < groups * perGroup
    ensures 0 <= CoreBase(cid, perGroup, len)
    ensures CoreBase(cid, perGroup, len) + perGroup * len + len <= groups * (2 * (perGroup * len))
  {
    var h := perGroup * len;
    var g, idx := cid / perGroup, cid % perGroup;
    DivBounds(cid, perGroup);
    QuotientNat(cid, perGroup);
    ScaleOrder(groups, g, perGroup);
    ScaleOrder(g + 1, groups, 2 * h);
    Distribute(g, 1, 2 * h);
    ScaleOrder(idx + 1, perGroup, len);
    Distribute(idx, 1, len);
    ScaleOrder(0, idx, len);
    ScaleOrder(0, g, 2 * h);
  }
}
