/** Powers of two, shifts, and the reversal of bits. */
module Powers {
  import opened Arithmetic

  function Pow2(n: nat): (p: nat)
    ensures p > 0
  {
    if n == 0 then 1 else 2 * Pow2(n - 1)
  }

  /** The C operator `>>` on an unsigned number. */
  function Shr(x: nat, n: nat): nat {
    if n == 0 then x else Shr(x / 2, n - 1)
  }

  lemma DoubleProduct(p: nat, q: nat)
    ensures p * (2 * q) == 2 * (p * q)
  {}

  lemma {:induction false} Pow2Add(a: nat, b: nat)
    ensures Pow2(a + b) == Pow2(a) * Pow2(b)
  {
    if b > 0 {
      Pow2Add(a, b - 1);
      DoubleProduct(Pow2(a), Pow2(b - 1));
      assert a + b - 1 == a + (b - 1);
    }
  }

  lemma ShiftStep(x: nat, half: nat, n: nat)
    requires x == 2 * half && n > 0
    ensures Shr(x, n) == Shr(half, n - 1)
  {}

  lemma {:induction false} ShiftPow2(m: nat, n: nat)
    requires n <= m
    ensures Shr(Pow2(m), n) == Pow2(m - n)
  {
    if n > 0 {
      var p := Pow2(m - 1);
      ShiftPow2(m - 1, n - 1);
      ShiftStep(Pow2(m), p, n);
    }
  }

  // ----- Bit reversal -----

  /** The lowest `n` bits of `x`, in reverse. */
  function Rev(n: nat, x: nat): nat {
    if n == 0 then 0 else (if x % 2 == 1 then Pow2(n - 1) else 0) + Rev(n - 1, x / 2)
  }

  lemma {:induction false} RevBound(n: nat, x: nat)
    ensures Rev(n, x) < Pow2(n)
  {
    if n > 0 {
      RevBound(n - 1, x / 2);
    }
  }

  lemma SplitHalves(q: nat, r: nat, p: nat)
    requires r < 2 * p
    ensures var x := q * (2 * p) + r; x >= 0 && x % 2 == r % 2 && x / 2 == q * p + r / 2 && r / 2 < p
  {
    assert q * (2 * p) == 2 * (q * p);
  }

  /** The topmost bit becomes the lowest. */
  lemma {:induction false} RevTop(n: nat, q: nat, r: nat)
    requires r < Pow2(n)
    ensures Rev(n + 1, q * Pow2(n) + r) == 2 * Rev(n, r) + q % 2
  {
    if n > 0 {
      var p := Pow2(n - 1);
      SplitHalves(q, r, p);
      RevTop(n - 1, q, r / 2);
    }
  }

  lemma {:induction false} RevInvolution(n: nat, x: nat)
    requires x < Pow2(n)
    ensures Rev(n, Rev(n, x)) == x
  {
    if n > 0 {
      RevBound(n - 1, x / 2);
      RevInvolution(n - 1, x / 2);
      if x % 2 == 1 {
        RevTop(n - 1, 1, Rev(n - 1, x / 2));
      } else {
        RevTop(n - 1, 0, Rev(n - 1, x / 2));
      }
    }
  }
}
