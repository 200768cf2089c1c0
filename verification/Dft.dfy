/** The discrete Fourier transform, and the decimation in frequency that halves it. */
module Dft {
  import opened ComplexNumbers

  /** The transform of `x` at frequency `f`, with `w` as the root of unity: the sum of x[j] * w^(j * f). */
  function Transform(x: seq<Complex>, w: Complex, f: nat): Complex {
    if x == [] then ZERO
    else
      var j := |x| - 1;
      Add(Transform(x[..j], w, f), Mul(x[j], Pow(w, j * f)))
  }

  function Sums(a: seq<Complex>, b: seq<Complex>): (s: seq<Complex>)
    requires |a| == |b|
    ensures |s| == |a| && forall j :: 0 <= j < |a| ==> s[j] == Add(a[j], b[j])
  {
    seq(|a|, j requires 0 <= j < |a| => Add(a[j], b[j]))
  }

  function Differences(a: seq<Complex>, b: seq<Complex>): (s: seq<Complex>)
    requires |a| == |b|
    ensures |s| == |a| && forall j :: 0 <= j < |a| ==> s[j] == Sub(a[j], b[j])
  {
    seq(|a|, j requires 0 <= j < |a| => Sub(a[j], b[j]))
  }

  /** Every element times the power of `w` that its position names. */
  function Twiddled(a: seq<Complex>, w: Complex): (s: seq<Complex>)
    ensures |s| == |a| && forall j :: 0 <= j < |a| ==> s[j] == Mul(a[j], Pow(w, j))
  {
    seq(|a|, j requires 0 <= j < |a| => Mul(a[j], Pow(w, j)))
  }

  lemma AddRegroups(a: Complex, b: Complex, c: Complex, d: Complex)
    ensures Add(Add(a, b), Add(c, d)) == Add(Add(a, c), Add(b, d))
    ensures Sub(Add(a, b), Add(c, d)) == Add(Sub(a, c), Sub(b, d))
    ensures Add(Add(a, b), c) == Add(a, Add(b, c))
  {}

  lemma {:induction false} TransformSums(a: seq<Complex>, b: seq<Complex>, w: Complex, f: nat)
    requires |a| == |b|
    ensures Transform(Sums(a, b), w, f) == Add(Transform(a, w, f), Transform(b, w, f))
    ensures Transform(Differences(a, b), w, f) == Sub(Transform(a, w, f), Transform(b, w, f))
  {
    if a != [] {
      var j := |a| - 1;
      TransformSums(a[..j], b[..j], w, f);
      assert Sums(a, b)[..j] == Sums(a[..j], b[..j]) && Differences(a, b)[..j] == Differences(a[..j], b[..j]);
      var p := Pow(w, j * f);
      MulDistributes(a[j], b[j], p);
      AddRegroups(Transform(a[..j], w, f), Mul(a[j], p), Transform(b[..j], w, f), Mul(b[j], p));
    }
  }

  /** The transform of a concatenation: the second part is shifted by the length of the first. */
  lemma {:induction false} TransformConcat(a: seq<Complex>, b: seq<Complex>, w: Complex, f: nat)
    ensures Transform(a + b, w, f) == Add(Transform(a, w, f), Mul(Pow(w, |a| * f), Transform(b, w, f)))
  {
    var shift := Pow(w, |a| * f);
    if b == [] {
      assert a + b == a;
    } else {
      var j := |b| - 1;
      var p := Pow(w, j * f);
      TransformConcat(a, b[..j], w, f);
      assert (a + b)[..|a| + j] == a + b[..j];
      LastTerm(b[j], w, |a|, j, f);
      MulCommutes(shift, Transform(b, w, f));
      MulCommutes(shift, Transform(b[..j], w, f));
      MulCommutes(shift, Mul(b[j], p));
      MulDistributes(Transform(b[..j], w, f), Mul(b[j], p), shift);
      AddRegroups(Transform(a, w, f), Mul(shift, Transform(b[..j], w, f)), Mul(shift, Mul(b[j], p)), ZERO);
    }
  }

  lemma LastTerm(x: Complex, w: Complex, n: nat, j: nat, f: nat)
    ensures Mul(x, Pow(w, (n + j) * f)) == Mul(Pow(w, n * f), Mul(x, Pow(w, j * f)))
  {
    var p, q := Pow(w, n * f), Pow(w, j * f);
    assert (n + j) * f == n * f + j * f;
    PowAdd(w, n * f, j * f);
    MulAssociates(x, p, q);
    MulCommutes(x, p);
    MulAssociates(p, x, q);
  }

  /** Two roots with the same powers at the positions of `x` give the same transform. */
  lemma {:induction false} SamePowers(x: seq<Complex>, w: Complex, f: nat, v: Complex, g: nat)
    requires forall j :: 0 <= j < |x| ==> Pow(w, j * f) == Pow(v, j * g)
    ensures Transform(x, w, f) == Transform(x, v, g)
  {
    if x != [] {
      var j := |x| - 1;
      SamePowers(x[..j], w, f, v, g);
      assert Pow(w, j * f) == Pow(v, j * g);
    }
  }

  /** Even frequencies of a transform are frequencies of the transform with the squared root. */
  lemma TransformEven(x: seq<Complex>, w: Complex, f: nat)
    ensures Transform(x, w, 2 * f) == Transform(x, Mul(w, w), f)
  {
    var v := Mul(w, w);
    forall j | 0 <= j < |x|
      ensures Pow(w, j * (2 * f)) == Pow(v, j * f)
    {
      EvenPower(w, j, f);
    }
    SamePowers(x, w, 2 * f, v, f);
  }

  lemma EvenPower(w: Complex, j: nat, f: nat)
    ensures Pow(w, j * (2 * f)) == Pow(Mul(w, w), j * f)
  {
    SquaredPower(w, j * f);
    assert j * (2 * f) == 2 * (j * f);
  }

  lemma SquaredPower(w: Complex, n: nat)
    ensures Pow(Mul(w, w), n) == Pow(w, 2 * n)
  {
    PowMul(w, 2, n);
    MulUnits(w);
    assert Pow(w, 1) == Mul(Pow(w, 0), w);
    assert Pow(w, 2) == Mul(Pow(w, 1), w);
  }

  /** Odd frequencies are frequencies of the transform of the twiddled input. */
  lemma {:induction false} TransformOdd(x: seq<Complex>, w: Complex, f: nat)
    ensures Transform(x, w, 2 * f + 1) == Transform(Twiddled(x, w), Mul(w, w), f)
  {
    if x != [] {
      var j := |x| - 1;
      TransformOdd(x[..j], w, f);
      assert Twiddled(x, w)[..j] == Twiddled(x[..j], w);
      OddTerm(x[j], w, j, f);
    }
  }

  lemma OddTerm(x: Complex, w: Complex, j: nat, f: nat)
    ensures Mul(x, Pow(w, j * (2 * f + 1))) == Mul(Mul(x, Pow(w, j)), Pow(Mul(w, w), j * f))
  {
    SquaredPower(w, j * f);
    assert j * (2 * f + 1) == j + 2 * (j * f);
    PowAdd(w, j, 2 * (j * f));
    MulAssociates(x, Pow(w, j), Pow(w, 2 * (j * f)));
  }

  /**
    With a half turn between them, two halves have the sum of their transforms at even, the difference at odd
    frequencies.
    */
  lemma HalvesAt(a: seq<Complex>, b: seq<Complex>, w: Complex, f: nat)
    requires |a| == |b|
    ensures Pow(w, |a| * f) == ONE ==> Transform(a + b, w, f) == Transform(Sums(a, b), w, f)
    ensures Pow(w, |a| * f) == MINUS_ONE ==> Transform(a + b, w, f) == Transform(Differences(a, b), w, f)
  {
    TransformConcat(a, b, w, f);
    TransformSums(a, b, w, f);
    AddMinus(Transform(a, w, f), Transform(b, w, f));
  }

  lemma HalfTurn(w: Complex, h: nat, f: nat)
    requires Pow(w, h) == MINUS_ONE
    ensures Pow(w, h * f) == if f % 2 == 0 then ONE else MINUS_ONE
  {
    PowMul(w, h, f);
    PowMinusOne(Pow(w, h), f);
  }

  lemma EvenSum(a: seq<Complex>, b: seq<Complex>, w: Complex, f: nat)
    requires |a| == |b| && Pow(w, |a|) == MINUS_ONE && f % 2 == 0
    ensures Transform(a + b, w, f) == Transform(Sums(a, b), w, f)
  {
    HalfTurn(w, |a|, f);
    HalvesAt(a, b, w, f);
  }

  lemma EvenHalf(a: seq<Complex>, b: seq<Complex>, w: Complex, f: nat)
    requires |a| == |b| && Pow(w, |a|) == MINUS_ONE
    ensures Transform(Sums(a, b), Mul(w, w), f) == Transform(a + b, w, 2 * f)
  {
    EvenSum(a, b, w, 2 * f);
    TransformEven(Sums(a, b), w, f);
  }

  lemma OddDifference(a: seq<Complex>, b: seq<Complex>, w: Complex, f: nat)
    requires |a| == |b| && Pow(w, |a|) == MINUS_ONE && f % 2 == 1
    ensures Transform(a + b, w, f) == Transform(Differences(a, b), w, f)
  {
    HalfTurn(w, |a|, f);
    HalvesAt(a, b, w, f);
  }

  lemma OddHalf(a: seq<Complex>, b: seq<Complex>, w: Complex, f: nat)
    requires |a| == |b| && Pow(w, |a|) == MINUS_ONE
    ensures Transform(Twiddled(Differences(a, b), w), Mul(w, w), f) == Transform(a + b, w, 2 * f + 1)
  {
    OddDifference(a, b, w, 2 * f + 1);
    TransformOdd(Differences(a, b), w, f);
  }

  /**
    Decimation in frequency.  The two halves of an input, added, have the even frequencies of its transform;
    subtracted and twiddled, they have the odd ones.
    */
  lemma Decimation(a: seq<Complex>, b: seq<Complex>, w: Complex, f: nat)
    requires |a| == |b| && Pow(w, |a|) == MINUS_ONE
    ensures Transform(Sums(a, b), Mul(w, w), f) == Transform(a + b, w, 2 * f)
    ensures Transform(Twiddled(Differences(a, b), w), Mul(w, w), f) == Transform(a + b, w, 2 * f + 1)
  {
    EvenHalf(a, b, w, f);
    OddHalf(a, b, w, f);
  }

  /** `even` and `odd` are the butterflies of the two halves of `y`. */
  ghost predicate Halved(y: seq<Complex>, even: seq<Complex>, odd: seq<Complex>, v: Complex, h: nat) {
    exists a, b :: |a| == |b| == h && y == a + b && even == Sums(a, b) && odd == Twiddled(Differences(a, b), v)
  }

  /** The transform of a block at a frequency, with the n-th power of some root. */
  type Spectra = (seq<Complex>, nat, nat) -> Complex

  function SpectraOf(w: Complex): Spectra {
    (x: seq<Complex>, n: nat, f: nat) => Transform(x, Pow(w, n), f)
  }

  predicate Splits(t: Spectra, n: nat, y: seq<Complex>, even: seq<Complex>, odd: seq<Complex>, f: nat) {
    t(even, 2 * n, f) == t(y, n, 2 * f) && t(odd, 2 * n, f) == t(y, n, 2 * f + 1)
  }

  /** Butterflies with the powers of `v` on blocks of size 2 * h split the transform of a block. */
  ghost predicate Decimates(t: Spectra, n: nat, v: Complex, h: nat) {
    forall y, even, odd, f | Halved(y, even, odd, v, h) :: Splits(t, n, y, even, odd, f)
  }

  lemma SpectraDecimate(w: Complex, n: nat, h: nat)
    requires Pow(Pow(w, n), h) == MINUS_ONE
    ensures Decimates(SpectraOf(w), n, Pow(w, n), h)
  {
    forall y, even, odd, f: nat | Halved(y, even, odd, Pow(w, n), h)
      ensures Splits(SpectraOf(w), n, y, even, odd, f)
    {
      HalvedTransforms(y, even, odd, w, n, h, f);
    }
  }

  /** Butterflies whose twiddle factors are the powers of w^n lead to transforms with the root w^(2n). */
  lemma HalvedTransforms(y: seq<Complex>, even: seq<Complex>, odd: seq<Complex>, w: Complex, n: nat, h: nat, f: nat)
    requires Halved(y, even, odd, Pow(w, n), h) && Pow(Pow(w, n), h) == MINUS_ONE
    ensures Transform(even, Pow(w, 2 * n), f) == Transform(y, Pow(w, n), 2 * f)
    ensures Transform(odd, Pow(w, 2 * n), f) == Transform(y, Pow(w, n), 2 * f + 1)
  {
    var a, b :| |a| == |b| == h && y == a + b && even == Sums(a, b) && odd == Twiddled(Differences(a, b), Pow(w, n));
    DoubledRoot(w, n);
    Decimation(a, b, Pow(w, n), f);
  }

  lemma DoubledRoot(w: Complex, n: nat)
    ensures Mul(Pow(w, n), Pow(w, n)) == Pow(w, 2 * n)
  {
    PowAdd(w, n, n);
  }

  // ----- The transform in real and imaginary parts -----

  /** The real part of the sum: the powers of `w` have cosines as real parts and sines as imaginary ones. */
  function RealSum(x: seq<Complex>, w: Complex, f: nat): real {
    if x == [] then 0.0
    else
      var j := |x| - 1;
      var p := Pow(w, j * f);
      RealSum(x[..j], w, f) + (x[j].re * p.re - x[j].im * p.im)
  }

  function ImagSum(x: seq<Complex>, w: Complex, f: nat): real {
    if x == [] then 0.0
    else
      var j := |x| - 1;
      var p := Pow(w, j * f);
      ImagSum(x[..j], w, f) + (x[j].re * p.im + x[j].im * p.re)
  }

  lemma {:induction false} TransformParts(x: seq<Complex>, w: Complex, f: nat)
    ensures Transform(x, w, f) == Complex(RealSum(x, w, f), ImagSum(x, w, f))
  {
    if x != [] {
      TransformParts(x[..|x| - 1], w, f);
    }
  }

  lemma FourTerms(x: seq<Complex>, w: Complex, f: nat)
    requires |x| == 4
    ensures Transform(x, w, f) == Add(Add(Add(Mul(x[0], Pow(w, 0)), Mul(x[1], Pow(w, f))), Mul(x[2], Pow(w, 2 * f))),
                                      Mul(x[3], Pow(w, 3 * f)))
  {
    assert x[..3][..2] == x[..2] && x[..2][..1] == x[..1] && x[..1][..0] == [];
    TransformStep(x[..1], w, f);
    TransformStep(x[..2], w, f);
    TransformStep(x[..3], w, f);
    TransformStep(x, w, f);
  }

  lemma TransformStep(x: seq<Complex>, w: Complex, f: nat)
    requires x != []
    ensures var j := |x| - 1; Transform(x, w, f) == Add(Transform(x[..j], w, f), Mul(x[j], Pow(w, j * f)))
  {}

  /** The sum of an element and three products. */
  function FourSum(x: seq<Complex>, p: Complex, q: Complex, r: Complex): Complex
    requires |x| == 4
  {
    Add(Add(Add(x[0], Mul(x[1], p)), Mul(x[2], q)), Mul(x[3], r))
  }

  /** A quarter turn clockwise, `n` times. */
  function Quarter(n: nat): Complex {
    if n == 0 then ONE
    else
      var q := Quarter(n - 1);
      Complex(q.im, -q.re)
  }

  /** The powers of the root of four points. */
  lemma {:induction false} QuarterTurns(w: Complex, n: nat)
    requires w == Complex(0.0, -1.0)
    ensures Pow(w, n) == Quarter(n)
  {
    if n > 0 {
      QuarterTurns(w, n - 1);
    }
  }

  lemma FourFrequency(x: seq<Complex>, w: Complex, f: nat)
    requires |x| == 4 && w == Complex(0.0, -1.0)
    ensures Transform(x, w, f) == FourSum(x, Quarter(f), Quarter(2 * f), Quarter(3 * f))
  {
    FourTerms(x, w, f);
    QuarterTurns(w, f);
    QuarterTurns(w, 2 * f);
    QuarterTurns(w, 3 * f);
    PowZero(w);
    MulUnits(x[0]);
  }

  lemma PowZero(w: Complex)
    ensures Pow(w, 0) == ONE
  {}

  /** The transform of four points at frequency `f`, in real and imaginary parts. */
  function FourPoint(x: seq<Complex>, f: nat): Complex
    requires |x| == 4
  {
    var a, b, c, d := x[0], x[1], x[2], x[3];
    if f == 0 then Complex(a.re + b.re + c.re + d.re, a.im + b.im + c.im + d.im)
    else if f == 1 then Complex(a.re + b.im - c.re - d.im, a.im - b.re - c.im + d.re)
    else if f == 2 then Complex(a.re - b.re + c.re - d.re, a.im - b.im + c.im - d.im)
    else Complex(a.re - b.im - c.re + d.im, a.im + b.re - c.im - d.re)
  }

  lemma Quarters(f: nat)
    requires f < 4
    ensures f == 0 ==> Quarter(f) == ONE && Quarter(2 * f) == ONE && Quarter(3 * f) == ONE
    ensures f == 1 ==> Quarter(f) == Complex(0.0, -1.0) && Quarter(2 * f) == MINUS_ONE && Quarter(3 * f) == I
    ensures f == 2 ==> Quarter(f) == MINUS_ONE && Quarter(2 * f) == ONE && Quarter(3 * f) == MINUS_ONE
    ensures f == 3 ==> Quarter(f) == I && Quarter(2 * f) == MINUS_ONE && Quarter(3 * f) == Complex(0.0, -1.0)
  {
    assert Quarter(4) == ONE;
    assert Quarter(6) == MINUS_ONE;
    assert Quarter(9) == Complex(0.0, -1.0);
  }

  /** Products with quarter turns. */
  lemma Turned(a: Complex, w: Complex)
    requires w == Complex(0.0, -1.0)
    ensures Mul(a, w) == Complex(a.im, -a.re) && Mul(a, MINUS_ONE) == Complex(-a.re, -a.im)
    ensures Mul(a, I) == Complex(-a.im, a.re) && Mul(a, ONE) == a
  {}

  lemma FourSumIsPoint(x: seq<Complex>, w: Complex, f: nat, p: Complex, q: Complex, r: Complex)
    requires |x| == 4 && w == Complex(0.0, -1.0) && f < 4
    requires p == Quarter(f) && q == Quarter(2 * f) && r == Quarter(3 * f)
    ensures FourSum(x, p, q, r) == FourPoint(x, f)
  {
    Quarters(f);
    Turned(x[1], w);
    Turned(x[2], w);
    Turned(x[3], w);
  }

  lemma FourPoints(x: seq<Complex>, w: Complex, f: nat)
    requires |x| == 4 && w == Complex(0.0, -1.0) && f < 4
    ensures Transform(x, w, f) == FourPoint(x, f)
  {
    FourFrequency(x, w, f);
    FourSumIsPoint(x, w, f, Quarter(f), Quarter(2 * f), Quarter(3 * f));
  }
}
