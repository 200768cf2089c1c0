/** Facts about division, remainder and multiplication that the loop schedules rest on. */
module Arithmetic {

  const TWO_32: int := 0x1_0000_0000
  const TWO_64: int := 0x1_0000_0000_0000_0000

  /** Conversion to an unsigned 64-bit integer. */
  function U64(x: int): int {
    x % TWO_64
  }

  /** Conversion to an unsigned 32-bit integer. */
  function U32(x: int): int {
    x % TWO_32
  }

  /** Conversion to a signed 32-bit integer. */
  function I32(x: int): int {
    (x + TWO_32 / 2) % TWO_32 - TWO_32 / 2
  }

  /** Conversion to a signed 64-bit integer. */
  function I64(x: int): int {
    (x + TWO_64 / 2) % TWO_64 - TWO_64 / 2
  }

  lemma Fits64(x: int)
    ensures 0 <= x < TWO_64 ==> U64(x) == x
    ensures -TWO_64 <= x < 0 ==> U64(x) == x + TWO_64
    ensures TWO_64 <= x < 2 * TWO_64 ==> U64(x) == x - TWO_64
  {}

  lemma WrapSum(a: int, b: int)
    ensures U64(U64(a) + b) == U64(a + b)
  {}

  /** The same, for a wrapped sum `x` and the unwrapped sum `y`. */
  lemma WrapsTo(a: int, b: int, x: int, y: int)
    requires x == U64(a) + b && y == a + b
    ensures U64(x) == U64(y)
  {
    WrapSum(a, b);
  }

  lemma ScaleOrder(a: int, b: int, m: int)
    requires m > 0
    ensures a * m <= b * m <==> a <= b
  {}

  /** The quotient is determined by its bounds. */
  lemma DivUnique(a: int, b: int, q: int)
    requires b > 0 && q * b <= a < (q + 1) * b
    ensures a / b == q
  {
    var d := a / b;
    assert d * b <= a < (d + 1) * b;
    assert d < q ==> (d + 1) * b <= q * b;
    assert q < d ==> (q + 1) * b <= d * b;
  }

  lemma DivBounds(a: int, b: int)
    requires b > 0
    ensures (a / b) * b <= a < (a / b + 1) * b
    ensures a == (a / b) * b + a % b
  {}

  lemma MultipleMod(q: int, b: int)
    requires b > 0
    ensures (q * b) % b == 0 && (q * b) / b == q
  {
    DivUnique(q * b, b, q);
    DivBounds(q * b, b);
  }

  /** A common factor cancels in a divisibility test. */
  lemma ScaleDivides(s: int, a: int, b: int)
    requires s > 0 && b > 0
    ensures s * b > 0 && ((s * a) % (s * b) == 0 <==> a % b == 0)
  {
    var q, r := a / b, a % b;
    DivBounds(a, b);
    RemainderNat(a, b);
    ScaleOrder(r + 1, b, s);
    ScaleOrder(0, r, s);
    Distribute(r, 1, s);
    ScaledSum(s, q, b, r);
    DivUnique(s * a, s * b, q);
    DivBounds(s * a, s * b);
  }

  lemma ScaledSum(s: int, q: int, b: int, r: int)
    ensures s * (q * b + r) == q * (s * b) + s * r
    ensures s > 0 ==> (s * r == 0 <==> r == 0)
  {}

  /** Among `n` consecutive numbers exactly one is congruent to `k`. */
  lemma OneResidue(k: int, t: nat, n: nat)
    requires t < n
    ensures (k - t) % n == 0 <==> t == k % n
  {
    DivBounds(k, n);
    if (k - t) % n == 0 {
      DivBounds(k - t, n);
      var q := (k - t) / n;
      assert q * n <= k < (q + 1) * n;
      DivUnique(k, n, q);
    } else if t == k % n {
      MultipleMod(k / n, n);
    }
  }

  lemma Distribute(a: int, b: int, m: int)
    ensures (a + b) * m == a * m + b * m
  {}

  lemma ProductNat(a: nat, b: nat)
    ensures a * b >= 0
  {}

  lemma QuotientNat(a: nat, b: nat)
    requires b > 0
    ensures a / b >= 0
  {}

  lemma RemainderNat(a: int, b: nat)
    requires b > 0
    ensures 0 <= a % b < b
  {}

  /** Slice k of n slices of the same size lies within them. */
  lemma SliceFits(k: nat, n: nat, size: nat)
    requires k < n
    ensures 0 <= k * size && k * size + size <= n * size
  {
    if size > 0 {
      ScaleOrder(k + 1, n, size);
      Distribute(k, 1, size);
      ScaleOrder(0, k, size);
    }
  }

  /** Different slices of the same size do not overlap. */
  lemma SlicesDisjoint(k: nat, l: nat, size: nat)
    requires k != l
    ensures k * size + size <= l * size || l * size + size <= k * size
  {
    if k < l {
      SliceFits(k, l, size);
    } else {
      SliceFits(l, k, size);
    }
  }

  lemma ScaledAtLeast(a: nat, b: int)
    requires b >= 1
    ensures a <= a * b
  {}

  lemma QuotientAtMost(a: nat, b: int)
    requires b > 0
    ensures 0 <= a / b <= a
  {
    DivBounds(a, b);
    QuotientNat(a, b);
    ScaledAtLeast(a / b, b);
  }

  lemma ScaledEquals(left: int, incr: int)
    ensures left == left * incr <==> incr == 1 || left == 0
  {}

  lemma Negated(a: int, b: int)
    ensures a * -b == -(a * b) && -a * b == -(a * b)
  {}

  /** What is left to do when each of several parties has `len` to do and has done `done[k]`. */
  function Remaining(done: seq<nat>, len: nat): nat {
    if done == [] then 0
    else
      var last := done[|done| - 1];
      Remaining(done[..|done| - 1], len) + if last < len then len - last else 0
  }

  lemma {:induction false} RemainingDrops(done: seq<nat>, len: nat, cid: nat, count: nat)
    requires cid < |done| && done[cid] < count <= len
    ensures Remaining(done[cid := count], len) < Remaining(done, len)
  {
    var k := |done| - 1;
    if cid < k {
      assert done[cid := count][..k] == done[..k][cid := count];
      RemainingDrops(done[..k], len, cid, count);
    } else {
      assert done[cid := count][..k] == done[..k];
    }
  }
}
