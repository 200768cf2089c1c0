/** Complex numbers over the reals, and their powers. */
module ComplexNumbers {

  datatype Complex = Complex(re: real, im: real)

  const ZERO: Complex := Complex(0.0, 0.0)
  const ONE: Complex := Complex(1.0, 0.0)
  const MINUS_ONE: Complex := Complex(-1.0, 0.0)

  function Add(a: Complex, b: Complex): Complex {
    Complex(a.re + b.re, a.im + b.im)
  }

  function Sub(a: Complex, b: Complex): Complex {
    Complex(a.re - b.re, a.im - b.im)
  }

  function Mul(a: Complex, b: Complex): Complex {
    Complex(a.re * b.re - a.im * b.im, a.re * b.im + a.im * b.re)
  }

  function Pow(w: Complex, n: nat): Complex {
    if n == 0 then ONE else Mul(Pow(w, n - 1), w)
  }

  lemma MulCommutes(a: Complex, b: Complex)
    ensures Mul(a, b) == Mul(b, a)
  {}

  lemma MulAssociates(a: Complex, b: Complex, c: Complex)
    ensures Mul(Mul(a, b), c) == Mul(a, Mul(b, c))
  {
    assert (a.re * b.re - a.im * b.im) * c.re - (a.re * b.im + a.im * b.re) * c.im
        == a.re * (b.re * c.re - b.im * c.im) - a.im * (b.re * c.im + b.im * c.re);
    assert (a.re * b.re - a.im * b.im) * c.im + (a.re * b.im + a.im * b.re) * c.re
        == a.re * (b.re * c.im + b.im * c.re) + a.im * (b.re * c.re - b.im * c.im);
  }

  lemma MulDistributes(a: Complex, b: Complex, c: Complex)
    ensures Mul(Add(a, b), c) == Add(Mul(a, c), Mul(b, c))
    ensures Mul(Sub(a, b), c) == Sub(Mul(a, c), Mul(b, c))
  {
    RealsDistribute(a.re, b.re, c.re);
    RealsDistribute(a.re, b.re, c.im);
    RealsDistribute(a.im, b.im, c.re);
    RealsDistribute(a.im, b.im, c.im);
  }

  lemma RealsDistribute(a: real, b: real, c: real)
    ensures (a + b) * c == a * c + b * c && (a - b) * c == a * c - b * c
  {}

  lemma MulUnits(a: Complex)
    ensures Mul(a, ONE) == a && Mul(ONE, a) == a
    ensures Mul(MINUS_ONE, a) == Sub(ZERO, a)
    ensures Mul(ZERO, a) == ZERO
  {}

  lemma {:induction false} PowAdd(w: Complex, a: nat, b: nat)
    ensures Pow(w, a + b) == Mul(Pow(w, a), Pow(w, b))
  {
    if b == 0 {
      MulUnits(Pow(w, a));
    } else {
      PowAdd(w, a, b - 1);
      MulAssociates(Pow(w, a), Pow(w, b - 1), w);
    }
  }

  lemma {:induction false} PowMul(w: Complex, a: nat, b: nat)
    ensures a * b >= 0 && Pow(Pow(w, a), b) == Pow(w, a * b)
  {
    if b > 0 {
      PowMul(w, a, b - 1);
      assert a * b == a * (b - 1) + a;
      PowAdd(w, a * (b - 1), a);
    }
  }

  /** The powers of a square root of one alternate. */
  lemma {:induction false} PowAlternates(w: Complex, n: nat)
    requires Mul(w, w) == ONE
    ensures Pow(w, n) == if n % 2 == 0 then ONE else w
  {
    if n > 0 {
      PowAlternates(w, n - 1);
      MulUnits(w);
    }
  }

  lemma PowMinusOne(w: Complex, n: nat)
    requires w == MINUS_ONE
    ensures Pow(w, n) == if n % 2 == 0 then ONE else MINUS_ONE
  {
    PowAlternates(w, n);
  }

  lemma PowStep(w: Complex, n: nat)
    ensures Pow(w, n + 1) == Mul(Pow(w, n), w)
  {}

  lemma AddMinus(a: Complex, b: Complex)
    ensures Add(a, Mul(MINUS_ONE, b)) == Sub(a, b)
    ensures Add(a, Mul(ONE, b)) == Add(a, b)
  {}

  lemma PowOne(w: Complex)
    ensures Pow(w, 1) == w
  {
    PowStep(w, 0);
    MulUnits(w);
  }

  // ----- What tells the product from other bilinear operations -----

  const I: Complex := Complex(0.0, 1.0)

  lemma ISquared()
    ensures Mul(I, I) == MINUS_ONE
  {}

  /** A real factor scales both parts. */
  lemma MulReal(r: real, a: Complex)
    ensures Mul(Complex(r, 0.0), a) == Complex(r * a.re, r * a.im)
  {}

  /** The square of the absolute value. */
  function Norm(a: Complex): real {
    a.re * a.re + a.im * a.im
  }

  function Conjugate(a: Complex): Complex {
    Complex(a.re, -a.im)
  }

  lemma NormByConjugate(a: Complex)
    ensures Mul(a, Conjugate(a)) == Complex(Norm(a), 0.0)
  {}

  lemma ConjugateOfProduct(a: Complex, b: Complex)
    ensures Conjugate(Mul(a, b)) == Mul(Conjugate(a), Conjugate(b))
  {}

  /** The norm of a product is the product of the norms. */
  lemma NormOfProduct(a: Complex, b: Complex)
    ensures Norm(Mul(a, b)) == Norm(a) * Norm(b)
  {
    var c, d := Conjugate(a), Conjugate(b);
    ConjugateOfProduct(a, b);
    MulAssociates(a, b, Mul(c, d));
    MulAssociates(b, c, d);
    MulCommutes(b, c);
    MulAssociates(c, b, d);
    MulAssociates(a, c, Mul(b, d));
    NormByConjugate(a);
    NormByConjugate(b);
    NormByConjugate(Mul(a, b));
    MulReal(Norm(a), Complex(Norm(b), 0.0));
  }

  function RealPow(r: real, n: nat): real {
    if n == 0 then 1.0 else RealPow(r, n - 1) * r
  }

  lemma {:induction false} NormOfPower(w: Complex, n: nat)
    ensures Norm(Pow(w, n)) == RealPow(Norm(w), n)
  {
    if n > 0 {
      NormOfPower(w, n - 1);
      NormOfProduct(Pow(w, n - 1), w);
    }
  }

  lemma {:induction false} RealPowSide(r: real, n: nat)
    requires r >= 0.0 && n > 0
    ensures r < 1.0 ==> RealPow(r, n) < 1.0
    ensures r > 1.0 ==> RealPow(r, n) > 1.0
    ensures RealPow(r, n) >= 0.0
  {
    if n > 1 {
      RealPowSide(r, n - 1);
      assert r < 1.0 ==> RealPow(r, n - 1) * r <= r;
      assert r > 1.0 ==> RealPow(r, n - 1) * r > r;
    }
  }

  // ----- Roots -----

  /** A number with -1 among its powers lies on the unit circle. */
  lemma RootOnCircle(w: Complex, h: nat)
    requires Pow(w, h) == MINUS_ONE
    ensures Norm(w) == 1.0
  {
    NormOfPower(w, h);
    if h > 0 {
      RealPowSide(Norm(w), h);
    }
  }

  /** The root of four points. */
  lemma FourthRoot(w: Complex)
    requires w == Complex(0.0, -1.0)
    ensures Pow(w, 0) == ONE && Pow(w, 1) == w && Pow(w, 2) == MINUS_ONE && Pow(w, 3) == I
  {
    PowOne(w);
    PowStep(w, 1);
    PowStep(w, 2);
  }

  /** A square root of a root is a root of twice as many points. */
  lemma RootOfRoot(w: Complex, v: Complex, h: nat)
    requires Mul(v, v) == w && Pow(w, h) == MINUS_ONE
    ensures Pow(v, 2 * h) == MINUS_ONE
  {
    PowMul(v, 2, h);
    PowStep(v, 1);
    PowOne(v);
  }

  /** The half-angle step: a root of twice as many points, wherever (1 + re) / 2 has a square root. */
  lemma HalfAngle(w: Complex, h: nat, c: real, d: real)
    requires Pow(w, h) == MINUS_ONE && c * c == (1.0 + w.re) / 2.0 && c * d == w.im / 2.0 && c != 0.0
    ensures Pow(Complex(c, d), 2 * h) == MINUS_ONE
  {
    RootOnCircle(w, h);
    HalfAngleSquare(w, c, d);
    RootOfRoot(w, Complex(c, d), h);
  }

  lemma HalfAngleSquare(w: Complex, c: real, d: real)
    requires Norm(w) == 1.0 && c * c == (1.0 + w.re) / 2.0 && c * d == w.im / 2.0 && c != 0.0
    ensures Mul(Complex(c, d), Complex(c, d)) == w
  {
    Regroup(c, d);
    SameSigns(c, c, c * c);
    Solve(c * c, d * d, c * d, w.re, w.im);
  }

  lemma Regroup(c: real, d: real)
    ensures (c * c) * (d * d) == (c * d) * (c * d) && c * d == d * c
  {
    var e := c * d;
    assert c * c * (d * d) == e * e;
  }

  lemma SameSigns(a: real, b: real, p: real)
    requires p == a * b && ((a > 0.0 && b > 0.0) || (a < 0.0 && b < 0.0))
    ensures p > 0.0
  {}

  lemma Solve(p: real, q: real, e: real, a: real, b: real)
    requires p * q == e * e && e == b / 2.0 && p == (1.0 + a) / 2.0 && a * a + b * b == 1.0 && p > 0.0
    ensures q == (1.0 - a) / 2.0
  {
    assert e * e == b * b / 4.0;
    assert p * ((1.0 - a) / 2.0) == b * b / 4.0;
    SecondFactor(p, q, (1.0 - a) / 2.0);
  }

  lemma SecondFactor(p: real, q: real, r: real)
    requires p > 0.0 && p * q == p * r
    ensures q == r
  {
    assert p * (q - r) == 0.0;
  }

  lemma OppositeFactor(c: real, d: real, p: real)
    requires c * c == p && d == -c && p > 0.0
    ensures c * d == -p && c != 0.0
  {}

  /** The root of eight points, `c` being the cosine of an eighth of a turn. */
  lemma EighthRoot(w: Complex, c: real, d: real, h: nat)
    requires c * c == 0.5 && d == -c && w == Complex(0.0, -1.0) && h == 2
    ensures Pow(Complex(c, d), 2 * h) == MINUS_ONE
  {
    FourthRoot(w);
    OppositeFactor(c, d, 0.5);
    HalfAngle(w, h, c, d);
  }
}
