/**
  What the second phase of the FFT computes: each core's stages, whose results an indexed store shuffles so that
  the last stage delivers them in natural order (software/tests/fft-32b/kernel/fft.c and script/gen_data.py).
  A stage works on `n` pairs of runs of length `h`: run k of the upper half, and run k of the lower half.
  */
module PhaseTwo {
  import opened Arithmetic
  import opened ComplexNumbers
  import opened Dft
  import opened Powers

  // ----- The shuffle -----

  /** Where the shuffle sends position `j` of the upper half: odd runs go to the lower half of the buffer. */
  function Destination(j: nat, stride: nat, half: nat): int
    requires stride > 0
  {
    (if (j / stride) % 2 == 1 then half else 0) + (j / stride / 2) * stride + j % stride
  }

  /** The position that the shuffle sends to `q`. */
  function Origin(q: nat, stride: nat, half: nat): int
    requires stride > 0 && half > 0
  {
    ((q % half) / stride) * (2 * stride) + (if q / half == 1 then stride else 0) + (q % half) % stride
  }

  lemma DestinationOf(i: nat, odd: bool, r: nat, stride: nat, half: nat)
    requires r < stride
    ensures var j := i * (2 * stride) + (if odd then stride else 0) + r;
            j >= 0 && Destination(j, stride, half) == (if odd then half else 0) + i * stride + r
  {
    var b := if odd then 1 else 0;
    var j := i * (2 * stride) + b * stride + r;
    assert i * (2 * stride) == (2 * i) * stride;
    assert j == (2 * i + b) * stride + r;
    Distribute(2 * i + b, 1, stride);
    ScaleOrder(0, 2 * i + b, stride);
    DivUnique(j, stride, 2 * i + b);
    DivBounds(j, stride);
  }

  lemma RunIndex(i: nat, r: nat, n: nat, stride: nat)
    requires r < stride && i < n
    ensures 0 <= i * stride + r < n * stride && (i * stride + r) / stride == i && (i * stride + r) % stride == r
  {
    ScaleOrder(i + 1, n, stride);
    Distribute(i, 1, stride);
    ScaleOrder(0, i, stride);
    DivUnique(i * stride + r, stride, i);
    DivBounds(i * stride + r, stride);
  }

  lemma HalfIsTwoQuarters(n: nat, stride: nat)
    ensures n * (2 * stride) == 2 * (n * stride) && n * stride >= 0
    ensures n > 0 && stride > 0 ==> n * stride > 0
  {}

  lemma OriginOf(i: nat, odd: bool, r: nat, n: nat, stride: nat, half: nat)
    requires r < stride && i < n && half == n * (2 * stride)
    ensures var q := (if odd then half else 0) + i * stride + r;
            && half > 0 && q >= 0 && q % half == i * stride + r && i * stride + r < n * stride
            && Origin(q, stride, half) == i * (2 * stride) + (if odd then stride else 0) + r
  {
    HalfIsTwoQuarters(n, stride);
    RunIndex(i, r, n, stride);
    RemainderAbove(odd, i * stride + r, half);
  }

  lemma RemainderAbove(above: bool, t: nat, half: nat)
    requires t < half
    ensures var q := (if above then half else 0) + t; q % half == t && q / half == if above then 1 else 0
  {
    var q := (if above then half else 0) + t;
    DivUnique(q, half, if above then 1 else 0);
    DivBounds(q, half);
  }

  /** A position of the upper half, as a pair of runs, the odd or the even one, and a place in it. */
  lemma SplitPosition(j: nat, n: nat, stride: nat) returns (i: nat, odd: bool, r: nat)
    requires stride > 0 && j < n * (2 * stride)
    ensures i < n && r < stride && j == i * (2 * stride) + (if odd then stride else 0) + r
  {
    DivBounds(j, 2 * stride);
    QuotientNat(j, 2 * stride);
    i := j / (2 * stride);
    ScaleOrder(n, i, 2 * stride);
    odd := j % (2 * stride) >= stride;
    r := if odd then j % (2 * stride) - stride else j % (2 * stride);
  }

  /** The shuffle loses nothing: what is sent to a position can be found again from the position. */
  lemma OriginOfDestination(j: nat, n: nat, stride: nat)
    requires stride > 0 && j < n * (2 * stride)
    ensures var half := n * (2 * stride); var d := Destination(j, stride, half);
            && 0 <= d && half > 0 && d % half < n * stride && d + n * stride < 2 * half && Origin(d, stride, half) == j
  {
    var i, odd, r := SplitPosition(j, n, stride);
    DestinationFits(i, odd, r, n, stride, n * (2 * stride));
  }

  lemma DestinationFits(i: nat, odd: bool, r: nat, n: nat, stride: nat, half: nat)
    requires r < stride && i < n && half == n * (2 * stride)
    ensures var j := i * (2 * stride) + (if odd then stride else 0) + r;
            && j >= 0
            && var d := Destination(j, stride, half);
               0 <= d && half > 0 && d % half < n * stride && d + n * stride < 2 * half && Origin(d, stride, half) == j
  {
    DestinationOf(i, odd, r, stride, half);
    OriginOf(i, odd, r, n, stride, half);
    HalfIsTwoQuarters(n, stride);
  }

  /** The shuffle of the upper wing reaches the first quarter of each half of the buffer. */
  lemma DestinationOfOrigin(q: nat, n: nat, stride: nat)
    requires stride > 0 && n > 0
    requires var half := n * (2 * stride); half > 0 && q < 2 * half && q % half < n * stride
    ensures var half := n * (2 * stride); var j := Origin(q, stride, half);
            0 <= j < half && Destination(j, stride, half) == q
  {
    var half := n * (2 * stride);
    var t := q % half;
    DivBounds(q, half);
    DivBounds(t, stride);
    QuotientNat(t, stride);
    var i, odd, r := t / stride, q >= half, t % stride;
    ScaleOrder(n, i, stride);
    DivUnique(q, half, if odd then 1 else 0);
    DestinationOf(i, odd, r, stride, half);
    ScaleOrder(i + 1, n, 2 * stride);
    Distribute(i, 1, 2 * stride);
    ScaleOrder(0, i, 2 * stride);
  }

  /** Where the shuffled result of a wing of butterfly `j` is stored. */
  function Slot(j: nat, wing: nat, stride: nat, half: nat, quarter: nat): int
    requires stride > 0
  {
    Destination(j, stride, half) + (if wing == 1 then quarter else 0)
  }

  /** The wing whose result belongs at `q`, and the butterfly. */
  function WingAt(q: nat, half: nat, quarter: nat): nat
    requires half > 0
  {
    if q % half < quarter then 0 else 1
  }

  function ButterflyOf(q: nat, stride: nat, half: nat, quarter: nat): int
    requires stride > 0 && half > 0
  {
    var below := if WingAt(q, half, quarter) == 1 then q - quarter else q;
    if below >= 0 then Origin(below, stride, half) else -1
  }

  /** Every slot of the output buffer gets the result of some wing of some butterfly, ... */
  lemma SlotsAreFilled(n: nat, stride: nat, q: nat)
    requires stride > 0 && n > 0 && q < 2 * (n * (2 * stride))
    ensures var half, quarter := n * (2 * stride), n * stride;
            && half > 0
            && 0 <= ButterflyOf(q, stride, half, quarter) < half
            && Slot(ButterflyOf(q, stride, half, quarter), WingAt(q, half, quarter), stride, half, quarter) == q
  {
    var half, quarter := n * (2 * stride), n * stride;
    HalfIsTwoQuarters(n, stride);
    QuarterBelow(q, half, quarter, WingAt(q, half, quarter));
    DestinationOfOrigin(if WingAt(q, half, quarter) == 1 then q - quarter else q, n, stride);
  }

  /** ... and of no other: the wing and the butterfly can be found from the slot. */
  lemma SlotsAreDistinct(n: nat, stride: nat, j: nat, wing: nat)
    requires stride > 0 && j < n * (2 * stride) && wing < 2
    ensures var half, quarter := n * (2 * stride), n * stride;
            var q := Slot(j, wing, stride, half, quarter);
            && half > 0 && 0 <= q < 2 * half
            && WingAt(q, half, quarter) == wing && ButterflyOf(q, stride, half, quarter) == j
  {
    var half, quarter := n * (2 * stride), n * stride;
    HalfIsTwoQuarters(n, stride);
    OriginOfDestination(j, n, stride);
    QuarterAbove(Destination(j, stride, half), half, quarter, wing);
  }

  lemma QuarterBelow(q: nat, half: nat, quarter: nat, wing: nat)
    requires half == 2 * quarter > 0 && q < 2 * half && wing == WingAt(q, half, quarter)
    ensures var below := if wing == 1 then q - quarter else q; 0 <= below && below % half < quarter
  {
    QuotientBelowTwo(q, half);
    RemainderAbove(q >= half, if wing == 1 then q % half - quarter else q % half, half);
  }

  lemma QuarterAbove(d: nat, half: nat, quarter: nat, wing: nat)
    requires half == 2 * quarter > 0 && d < 2 * half && d % half < quarter && wing < 2
    ensures (d + (if wing == 1 then quarter else 0)) % half < quarter <==> wing == 0
  {
    QuotientBelowTwo(d, half);
    RemainderAbove(d >= half, d % half + (if wing == 1 then quarter else 0), half);
  }

  lemma QuotientBelowTwo(q: nat, half: nat)
    requires half > 0 && q < 2 * half
    ensures q == (if q >= half then half else 0) + q % half && 0 <= q % half < half
  {
    DivUnique(q, half, if q >= half then 1 else 0);
    DivBounds(q, half);
  }

  // ----- A shuffled stage -----

  /**
    The butterfly at position `j` of the upper half and its shuffled results; `w` is the root of the core's
    transform.
    */
  predicate ShuffledAt(y: seq<Complex>, z: seq<Complex>, w: Complex, n: nat, stride: nat, j: nat)
    requires stride > 0 && j < n * (2 * stride) && |y| == |z| == 2 * (n * (2 * stride))
  {
    var half, quarter := n * (2 * stride), n * stride;
    OriginOfDestination(j, n, stride);
    var d := Destination(j, stride, half);
    RemainderNat(n * j, half);
    && z[d] == Add(y[j], y[j + half])
    && z[d + quarter] == Mul(Sub(y[j], y[j + half]), Pow(w, (n * j) % half))
  }

  ghost predicate ShuffledStage(y: seq<Complex>, z: seq<Complex>, w: Complex, n: nat, stride: nat) {
    && stride > 0 && |y| == |z| == 2 * (n * (2 * stride))
    && forall j :: 0 <= j < n * (2 * stride) ==> ShuffledAt(y, z, w, n, stride, j)
  }

  /** Run k of the upper half followed by run k of the lower half. */
  function Runs(y: seq<Complex>, half: nat, h: nat, k: nat): seq<Complex>
    requires 0 <= k * h && k * h + h <= half && |y| == 2 * half
  {
    y[k * h..k * h + h] + y[half + k * h..half + k * h + h]
  }

  predicate RunsHold(t: Spectra, x: seq<Complex>, y: seq<Complex>, half: nat, n: nat, h: nat, k: nat, f: nat) {
    && |y| == 2 * half && 0 <= k * h && k * h + h <= half
    && t(Runs(y, half, h, k), n, f) == t(x, 1, RunFrequency(n, k, f))
  }

  /** The frequency that pair k of runs holds at its own frequency `f`. */
  function RunFrequency(n: nat, k: nat, f: nat): nat {
    ProductNat(n, f);
    n * f + k
  }

  /** Before a stage the n pairs of runs hold the transform of `x`, interleaved in natural order. */
  ghost predicate Woven(t: Spectra, x: seq<Complex>, y: seq<Complex>, half: nat, n: nat, h: nat) {
    && |y| == 2 * half && n * h == half
    && forall k, f :: 0 <= k < n && 0 <= f ==> RunsHold(t, x, y, half, n, h, k, f)
  }

  lemma WovenInitially(t: Spectra, x: seq<Complex>, half: nat)
    requires |x| == 2 * half
    ensures Woven(t, x, x, half, 1, half)
  {
    forall k, f | 0 <= k < 1 && 0 <= f
      ensures RunsHold(t, x, x, half, 1, half, k, f)
    {
      assert x[0..half] + x[half..half + half] == x;
    }
  }

  /** The twiddle factor of position k * h + r: the powers repeat from run to run. */
  lemma TwiddleOfRun(w: Complex, n: nat, h: nat, k: nat, r: nat)
    requires n > 0 && r < h
    ensures n * h > 0 && 0 <= (n * (k * h + r)) % (n * h)
    ensures Pow(w, (n * (k * h + r)) % (n * h)) == Pow(Pow(w, n), r)
  {
    RunExponent(n, h, k, r);
    PowMul(w, n, r);
  }

  lemma RunExponent(n: nat, h: nat, k: nat, r: nat)
    requires n > 0 && r < h
    ensures n * h > 0 && 0 <= n * r && (n * (k * h + r)) % (n * h) == n * r
  {
    var half, a := n * h, n * (k * h + r);
    assert a == k * half + n * r;
    ScaleOrder(r + 1, h, n);
    assert n * r < half && 0 <= n * r;
    Distribute(k, 1, half);
    DivUnique(a, half, k);
    DivBounds(a, half);
  }

  /** Where the results of position r of run k lie: in the runs k and n + k of the next stage. */
  lemma RunResult(y: seq<Complex>, z: seq<Complex>, w: Complex, n: nat, stride: nat, k: nat, odd: bool, r: nat)
    requires ShuffledStage(y, z, w, n, stride) && k < n && r < stride
    ensures var half, quarter := n * (2 * stride), n * stride;
            var p := (if odd then stride else 0) + r;
            var j, d := k * (2 * stride) + p, (if odd then half else 0) + k * stride + r;
            && 0 <= j < half && 0 <= d && d + quarter < 2 * half
            && z[d] == Add(y[j], y[j + half])
            && z[d + quarter] == Mul(Sub(y[j], y[j + half]), Pow(Pow(w, n), p))
  {
    var p := (if odd then stride else 0) + r;
    var j := k * (2 * stride) + p;
    SliceFits(k, n, 2 * stride);
    DestinationOf(k, odd, r, stride, n * (2 * stride));
    OriginOfDestination(j, n, stride);
    TwiddleOfRun(w, n, 2 * stride, k, p);
    assert ShuffledAt(y, z, w, n, stride, j);
  }

  lemma RunsFit(k: nat, n: nat, stride: nat)
    requires k < n
    ensures 0 <= k * (2 * stride) && k * (2 * stride) + 2 * stride <= n * (2 * stride)
    ensures 0 <= k * stride && k * stride + stride <= n * (2 * stride)
    ensures 0 <= (n + k) * stride && (n + k) * stride + stride <= n * (2 * stride)
    ensures (n + k) * stride == n * stride + k * stride
  {
    SliceFits(k, n, stride);
    SliceFits(k, n, 2 * stride);
    HalfIsTwoQuarters(n, stride);
    Distribute(n, k, stride);
  }

  lemma RunsElement(y: seq<Complex>, half: nat, h: nat, k: nat, p: nat)
    requires 0 <= k * h && k * h + h <= half && |y| == 2 * half && p < 2 * h
    ensures Runs(y, half, h, k)[p] == if p < h then y[k * h + p] else y[half + k * h + (p - h)]
  {}

  function UpperRun(y: seq<Complex>, half: nat, h: nat, k: nat): seq<Complex>
    requires 0 <= k * h && k * h + h <= half && |y| == 2 * half
  {
    y[k * h..k * h + h]
  }

  function LowerRun(y: seq<Complex>, half: nat, h: nat, k: nat): seq<Complex>
    requires 0 <= k * h && k * h + h <= half && |y| == 2 * half
  {
    y[half + k * h..half + k * h + h]
  }

  predicate RunsInside(n: nat, stride: nat, k: nat, half: nat) {
    && half == n * (2 * stride)
    && 0 <= k * (2 * stride) && k * (2 * stride) + 2 * stride <= half
    && 0 <= k * stride && k * stride + stride <= half
    && 0 <= (n + k) * stride && (n + k) * stride + stride <= half
  }

  lemma RunElements(y: seq<Complex>, half: nat, h: nat, k: nat, p: nat)
    requires 0 <= k * h && k * h + h <= half && |y| == 2 * half && p < h
    ensures UpperRun(y, half, h, k)[p] == y[k * h + p] && LowerRun(y, half, h, k)[p] == y[half + k * h + p]
  {}

  /** The runs k and n + k of the output, position by position. */
  lemma RunsResult(y: seq<Complex>, z: seq<Complex>, w: Complex, n: nat, stride: nat, k: nat, half: nat, p: nat)
    requires ShuffledStage(y, z, w, n, stride) && k < n && p < 2 * stride && RunsInside(n, stride, k, half)
    ensures var a, b := UpperRun(y, half, 2 * stride, k)[p], LowerRun(y, half, 2 * stride, k)[p];
            && Runs(z, half, stride, k)[p] == Add(a, b)
            && Runs(z, half, stride, n + k)[p] == Mul(Sub(a, b), Pow(Pow(w, n), p))
  {
    RunElements(y, half, 2 * stride, k, p);
    RunSum(y, z, w, n, stride, k, half, p);
    RunDifference(y, z, w, n, stride, k, half, p);
  }

  lemma RunSum(y: seq<Complex>, z: seq<Complex>, w: Complex, n: nat, stride: nat, k: nat, half: nat, p: nat)
    requires ShuffledStage(y, z, w, n, stride) && k < n && p < 2 * stride && RunsInside(n, stride, k, half)
    ensures Runs(z, half, stride, k)[p] == Add(y[k * (2 * stride) + p], y[half + k * (2 * stride) + p])
  {
    var odd := p >= stride;
    RunResult(y, z, w, n, stride, k, odd, if odd then p - stride else p);
    RunsElement(z, half, stride, k, p);
  }

  lemma RunDifference(y: seq<Complex>, z: seq<Complex>, w: Complex, n: nat, stride: nat, k: nat, half: nat, p: nat)
    requires ShuffledStage(y, z, w, n, stride) && k < n && p < 2 * stride && RunsInside(n, stride, k, half)
    ensures Runs(z, half, stride, n + k)[p]
         == Mul(Sub(y[k * (2 * stride) + p], y[half + k * (2 * stride) + p]), Pow(Pow(w, n), p))
  {
    var odd := p >= stride;
    RunsFit(k, n, stride);
    RunResult(y, z, w, n, stride, k, odd, if odd then p - stride else p);
    RunsElement(z, half, stride, n + k, p);
  }

  lemma EvenRun(y: seq<Complex>, z: seq<Complex>, w: Complex, n: nat, stride: nat, k: nat, half: nat)
    requires ShuffledStage(y, z, w, n, stride) && k < n && RunsInside(n, stride, k, half)
    ensures Runs(z, half, stride, k) == Sums(UpperRun(y, half, 2 * stride, k), LowerRun(y, half, 2 * stride, k))
  {
    var a, b := UpperRun(y, half, 2 * stride, k), LowerRun(y, half, 2 * stride, k);
    forall p | 0 <= p < 2 * stride
      ensures Runs(z, half, stride, k)[p] == Sums(a, b)[p]
    {
      RunsResult(y, z, w, n, stride, k, half, p);
    }
  }

  lemma OddRun(y: seq<Complex>, z: seq<Complex>, w: Complex, n: nat, stride: nat, k: nat, half: nat)
    requires ShuffledStage(y, z, w, n, stride) && k < n && RunsInside(n, stride, k, half)
    ensures Runs(z, half, stride, n + k)
         == Twiddled(Differences(UpperRun(y, half, 2 * stride, k), LowerRun(y, half, 2 * stride, k)), Pow(w, n))
  {
    var a, b := UpperRun(y, half, 2 * stride, k), LowerRun(y, half, 2 * stride, k);
    forall p | 0 <= p < 2 * stride
      ensures Runs(z, half, stride, n + k)[p] == Twiddled(Differences(a, b), Pow(w, n))[p]
    {
      RunsResult(y, z, w, n, stride, k, half, p);
    }
  }

  lemma RunsAreHalves(y: seq<Complex>, z: seq<Complex>, w: Complex, n: nat, stride: nat, k: nat, half: nat)
    requires ShuffledStage(y, z, w, n, stride) && k < n && RunsInside(n, stride, k, half)
    ensures Halved(Runs(y, half, 2 * stride, k), Runs(z, half, stride, k), Runs(z, half, stride, n + k),
                   Pow(w, n), 2 * stride)
  {
    var a, b := UpperRun(y, half, 2 * stride, k), LowerRun(y, half, 2 * stride, k);
    EvenRun(y, z, w, n, stride, k, half);
    OddRun(y, z, w, n, stride, k, half);
    assert Runs(y, half, 2 * stride, k) == a + b;
  }

  lemma RunFrequencies(n: nat, k: nat, f: nat)
    ensures RunFrequency(2 * n, k, f) == RunFrequency(n, k, 2 * f)
    ensures RunFrequency(2 * n, n + k, f) == RunFrequency(n, k, 2 * f + 1)
  {}

  lemma RunsSplit(t: Spectra, y: seq<Complex>, z: seq<Complex>, w: Complex, n: nat, stride: nat, k: nat, half: nat,
                  f: nat)
    requires Decimates(t, n, Pow(w, n), 2 * stride)
    requires ShuffledStage(y, z, w, n, stride) && k < n && RunsInside(n, stride, k, half)
    ensures Splits(t, n, Runs(y, half, 2 * stride, k), Runs(z, half, stride, k), Runs(z, half, stride, n + k), f)
  {
    RunsAreHalves(y, z, w, n, stride, k, half);
  }

  /** A pair of runs is decimated into the two pairs that its results make up. */
  lemma RunsKept(t: Spectra, x: seq<Complex>, y: seq<Complex>, z: seq<Complex>, n: nat, stride: nat, k: nat, half: nat,
                 f: nat)
    requires |z| == 2 * half && RunsInside(n, stride, k, half)
    requires RunsHold(t, x, y, half, n, 2 * stride, k, 2 * f) && RunsHold(t, x, y, half, n, 2 * stride, k, 2 * f + 1)
    requires Splits(t, n, Runs(y, half, 2 * stride, k), Runs(z, half, stride, k), Runs(z, half, stride, n + k), f)
    ensures RunsHold(t, x, z, half, 2 * n, stride, k, f)
    ensures RunsHold(t, x, z, half, 2 * n, stride, n + k, f)
  {
    RunFrequencies(n, k, f);
  }

  lemma RunsKeptAt(t: Spectra, x: seq<Complex>, y: seq<Complex>, z: seq<Complex>, w: Complex, n: nat, stride: nat,
                   k: nat, half: nat, f: nat)
    requires Decimates(t, n, Pow(w, n), 2 * stride) && half == n * (2 * stride)
    requires ShuffledStage(y, z, w, n, stride) && k < n
    requires RunsHold(t, x, y, half, n, 2 * stride, k, 2 * f) && RunsHold(t, x, y, half, n, 2 * stride, k, 2 * f + 1)
    ensures RunsHold(t, x, z, half, 2 * n, stride, k, f)
    ensures RunsHold(t, x, z, half, 2 * n, stride, n + k, f)
  {
    RunsFit(k, n, stride);
    RunsSplit(t, y, z, w, n, stride, k, half, f);
    RunsKept(t, x, y, z, n, stride, k, half, f);
  }

  lemma PairsDouble(n: nat, stride: nat)
    ensures (2 * n) * stride == n * (2 * stride)
  {}

  /** A shuffled stage keeps the transform interleaved over twice as many pairs of runs of half the length. */
  lemma ShuffledStageKeepsTransform(t: Spectra, x: seq<Complex>, y: seq<Complex>, z: seq<Complex>, w: Complex,
                                    half: nat, n: nat, stride: nat)
    requires half == n * (2 * stride)
    requires Decimates(t, n, Pow(w, n), 2 * stride)
    requires ShuffledStage(y, z, w, n, stride) && Woven(t, x, y, half, n, 2 * stride)
    ensures Woven(t, x, z, half, 2 * n, stride)
  {
    var m := 2 * n;
    PairsDouble(n, stride);
    forall k, f | 0 <= k < m && 0 <= f
      ensures RunsHold(t, x, z, half, m, stride, k, f)
    {
      var low := if k < n then k else k - n;
      assert RunsHold(t, x, y, half, n, 2 * stride, low, 2 * f);
      assert RunsHold(t, x, y, half, n, 2 * stride, low, 2 * f + 1);
      RunsKeptAt(t, x, y, z, w, n, stride, low, half, f);
    }
  }

  // ----- The last stage -----

  lemma TransformSingle(u: Complex, w: Complex)
    ensures Transform([u], w, 0) == u
  {
    assert [u][..0] == [];
    MulUnits(u);
  }

  /** A butterfly of two points is their transform. */
  lemma TwoPoints(u: Complex, l: Complex, v: Complex)
    requires v == MINUS_ONE
    ensures Transform([u] + [l], v, 0) == Add(u, l)
    ensures Transform([u] + [l], v, 1) == Sub(u, l)
  {
    PowOne(v);
    Decimation([u], [l], v, 0);
    assert Sums([u], [l]) == [Add(u, l)];
    MulUnits(Sub(u, l));
    assert Twiddled(Differences([u], [l]), v) == [Sub(u, l)];
    TransformSingle(Add(u, l), Mul(v, v));
    TransformSingle(Sub(u, l), Mul(v, v));
  }

  /** With runs of length one, a last butterfly leaves the transform in natural order. */
  lemma LastButterfly(x: seq<Complex>, y: seq<Complex>, w: Complex, half: nat, k: nat)
    requires Woven(SpectraOf(w), x, y, half, half, 1) && k < half && Pow(w, half) == MINUS_ONE
    ensures Add(y[k], y[half + k]) == Transform(x, w, k)
    ensures Sub(y[k], y[half + k]) == Transform(x, w, half + k)
  {
    var t := SpectraOf(w);
    assert RunsHold(t, x, y, half, half, 1, k, 0) && RunsHold(t, x, y, half, half, 1, k, 1);
    assert Runs(y, half, 1, k) == [y[k]] + [y[half + k]];
    PowOne(w);
    TwoPoints(y[k], y[half + k], Pow(w, half));
  }

}
