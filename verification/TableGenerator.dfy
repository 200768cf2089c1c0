/**
  The twiddle tables and core offsets of software/tests/fft-32b/script/gen_data.py, in exact arithmetic: the
  n-th root of unity is a parameter instead of a cosine and a sine.
  */
module TableGenerator {
  import opened Arithmetic
  import opened ComplexNumbers
  import opened Powers
  import opened PhaseTwo
  import opened PhaseOneKernel
  import opened PhaseTwoKernel
  import opened PhaseTwoCore
  import opened StoreIndex
  import opened Dft
  import opened FftMain

  // ----- gen_core_offset -----

  /** Python's `bit_length`. */
  function BitLength(x: nat): nat {
    if x == 0 then 0 else 1 + BitLength(x / 2)
  }

  /** The binary digits of a number, the most significant first. */
  function Binary(x: nat): (s: seq<nat>)
    ensures |s| > 0
  {
    if x < 2 then [x] else Binary(x / 2) + [x % 2]
  }

  /** Python's format with a minimal width, padded with zeros. */
  function Format(x: nat, width: nat): seq<nat> {
    var s := Binary(x);
    if |s| < width then seq(width - |s|, i => 0) + s else s
  }

  function Reversed(s: seq<nat>): (r: seq<nat>)
    ensures |r| == |s|
  {
    if s == [] then [] else [s[|s| - 1]] + Reversed(s[..|s| - 1])
  }

  /** Python's `int` with base 2. */
  function Parse(s: seq<nat>): nat {
    if s == [] then 0 else 2 * Parse(s[..|s| - 1]) + s[|s| - 1]
  }

  function CoreOffset(ncore: nat, cid: nat): nat
    requires ncore > 0
  {
    Parse(Reversed(Format(cid, BitLength(ncore - 1))))
  }

  function GenCoreOffset(ncore: nat): (s: seq<nat>)
    requires ncore > 0
    ensures |s| == ncore && forall cid :: 0 <= cid < ncore ==> s[cid] == CoreOffset(ncore, cid)
  {
    seq(ncore, cid requires 0 <= cid < ncore => CoreOffset(ncore, cid))
  }

  lemma {:induction false} BitLengthOfPower(c: nat)
    ensures BitLength(Pow2(c) - 1) == c
  {
    if c > 0 {
      BitLengthOfPower(c - 1);
      assert (Pow2(c) - 1) / 2 == Pow2(c - 1) - 1;
    }
  }

  lemma {:induction false} BinaryLength(x: nat, n: nat)
    requires x < Pow2(n) && n > 0
    ensures |Binary(x)| <= n
  {
    assert Pow2(1) == 2 * Pow2(0);
    if x >= 2 {
      BinaryLength(x / 2, n - 1);
    }
  }

  /** The last digit of a padded number. */
  lemma FormatStep(x: nat, n: nat)
    requires x < Pow2(n + 1) && n > 0
    ensures |Format(x, n + 1)| == n + 1 && Format(x, n + 1) == Format(x / 2, n) + [x % 2]
  {
    BinaryLength(x, n + 1);
    BinaryLength(x / 2, n);
    if x >= 2 {
      assert Binary(x) == Binary(x / 2) + [x % 2];
    } else {
      assert Binary(x / 2) == [0];
    }
  }

  lemma {:induction false} ParseFirst(d: nat, s: seq<nat>)
    ensures Parse([d] + s) == d * Pow2(|s|) + Parse(s)
  {
    var all := [d] + s;
    if s == [] {
      assert all[..0] == [];
    } else {
      ParseFirst(d, s[..|s| - 1]);
      assert all[..|all| - 1] == [d] + s[..|s| - 1];
      DoubleProduct(d, Pow2(|s| - 1));
    }
  }

  lemma DoubleProduct(d: nat, p: nat)
    ensures 2 * (d * p) == d * (2 * p)
  {}

  /** Formatting, reversing and parsing a number reverses its bits. */
  lemma {:induction false} OffsetIsReversed(n: nat, x: nat)
    requires n > 0 && x < Pow2(n)
    ensures |Format(x, n)| == n && Parse(Reversed(Format(x, n))) == Rev(n, x)
  {
    var s := Format(x, n);
    if n == 1 {
      assert Pow2(1) == 2 * Pow2(0);
      assert s == [x];
      assert Reversed(s) == [x] + Reversed([]);
      ParseFirst(x, []);
    } else {
      FormatStep(x, n - 1);
      OffsetIsReversed(n - 1, x / 2);
      assert s[..|s| - 1] == Format(x / 2, n - 1);
      ParseFirst(x % 2, Reversed(Format(x / 2, n - 1)));
    }
  }

  /** The core offsets are the bit-reversed core numbers. */
  lemma CoreOffsetIsReversed(c: nat, cid: nat)
    requires c > 0 && cid < Pow2(c)
    ensures CoreOffset(Pow2(c), cid) == Rev(c, cid)
  {
    BitLengthOfPower(c);
    OffsetIsReversed(c, cid);
  }

  // ----- setupTwiddlesLUT_dif_vec -----

  /** Entry `t` of stage `s` of a table for 2 * half points. */
  predicate LutAt(vec: seq<Complex>, w: Complex, half: nat, s: nat, t: nat)
    requires half > 0
  {
    RemainderNat(Pow2(s) * t, half);
    0 <= s * half && s * half + t < |vec| && vec[s * half + t] == Pow(w, (Pow2(s) * t) % half)
  }

  ghost predicate Lut(vec: seq<Complex>, w: Complex, log2: nat, half: nat) {
    && half > 0 && |vec| == log2 * half
    && forall s, t :: 0 <= s < log2 && 0 <= t < half ==> LutAt(vec, w, half, s, t)
  }

  method SetupTwiddlesLutDifVec(w: Complex, log2: nat) returns (vec: array<Complex>)
    requires log2 > 0
    ensures fresh(vec) && Lut(vec[..], w, log2, Pow2(log2 - 1))
  {
    var half := Pow2(log2 - 1);
    vec := new Complex[log2 * half](i => ZERO);
    for s := 0 to log2
      invariant forall r, t :: 0 <= r < s && 0 <= t < half ==> LutAt(vec[..], w, half, r, t)
    {
      SliceFits(s, log2, half);
      for t := 0 to half
        invariant forall r, u :: 0 <= r < s && 0 <= u < half ==> LutAt(vec[..], w, half, r, u)
        invariant forall u :: 0 <= u < t ==> LutAt(vec[..], w, half, s, u)
      {
        ghost var before := vec[..];
        RemainderNat(Pow2(s) * t, half);
        vec[s * half + t] := Pow(w, (Pow2(s) * t) % half);
        forall r, u | (0 <= r < s && 0 <= u < half) || (r == s && 0 <= u < t)
          ensures LutAt(vec[..], w, half, r, u)
        {
          assert LutAt(before, w, half, r, u);
          if r < s {
            SliceFits(r, s, half);
          }
        }
      }
    }
  }

  // ----- The tables of both phases in one array -----

  function Reals(v: seq<Complex>): (s: seq<real>)
    ensures |s| == |v| && forall i :: 0 <= i < |v| ==> s[i] == v[i].re
  {
    seq(|v|, i requires 0 <= i < |v| => v[i].re)
  }

  function Imags(v: seq<Complex>): (s: seq<real>)
    ensures |s| == |v| && forall i :: 0 <= i < |v| ==> s[i] == v[i].im
  {
    seq(|v|, i requires 0 <= i < |v| => v[i].im)
  }

  /** The complex numbers with the given parts. */
  function Pairs(re: seq<real>, im: seq<real>): (s: seq<Complex>)
    requires |re| == |im|
    ensures |s| == |re| && Reals(s) == re && Imags(s) == im
  {
    var s := seq(|re|, i requires 0 <= i < |re| => Complex(re[i], im[i]));
    assert Reals(s) == re && Imags(s) == im;
    s
  }

  lemma PairsOfParts(v: seq<Complex>)
    ensures Pairs(Reals(v), Imags(v)) == v
  {}

  lemma PairsAppend(re: seq<real>, im: seq<real>, v: seq<Complex>)
    requires |re| == |im|
    ensures Pairs(re + Reals(v), im + Imags(v)) == Pairs(re, im) + v
  {}

  /** The first phase's factors: stage `i` has the powers of its root, where the previous stages' end. */
  predicate FactorAt(first: seq<Complex>, w: Complex, m: nat, i: nat, r: nat)
    requires i < m
  {
    && 0 <= SegmentStart(m, i) && SegmentStart(m, i) + r < |first|
    && first[SegmentStart(m, i) + r] == Pow(Pow(w, Pow2(i)), r)
  }

  ghost predicate Factors(first: seq<Complex>, w: Complex, m: nat, count: nat)
    requires count <= m
  {
    && |first| == SegmentStart(m, count)
    && forall i :: 0 <= i < count ==> StageFactors(first, w, m, i)
  }

  ghost predicate StageFactors(first: seq<Complex>, w: Complex, m: nat, i: nat)
    requires i < m
  {
    forall r :: 0 <= r < Pow2(m - i - 1) ==> FactorAt(first, w, m, i, r)
  }

  /** The start of a stage's entries in the table for all points holds the powers of the stage's root. */
  lemma StagePower(w: Complex, m: nat, i: nat, r: nat)
    requires i < m && r < Pow2(m - i - 1)
    ensures 0 <= Pow2(i) * r && (Pow2(i) * r) % Pow2(m - 1) == Pow2(i) * r
    ensures Pow(w, Pow2(i) * r) == Pow(Pow(w, Pow2(i)), r)
  {
    StageExponent(m, i, r);
    PowMul(w, Pow2(i), r);
  }

  lemma StageExponent(m: nat, i: nat, r: nat)
    requires i < m && r < Pow2(m - i - 1)
    ensures 0 <= Pow2(i) * r && (Pow2(i) * r) % Pow2(m - 1) == Pow2(i) * r
  {
    Pow2Add(i, m - i - 1);
    assert i + (m - i - 1) == m - 1;
    ProductBelow(Pow2(i), r, Pow2(m - i - 1));
    DivUnique(Pow2(i) * r, Pow2(m - 1), 0);
    DivBounds(Pow2(i) * r, Pow2(m - 1));
  }

  lemma ProductBelow(a: nat, r: nat, b: nat)
    requires r < b && a > 0
    ensures 0 <= a * r < a * b
  {}

  /** A stage's entries for the first phase lie within the table for all points. */
  lemma TableSlice(m: nat, i: nat)
    requires i < m
    ensures 0 <= i * Pow2(m - 1) && i * Pow2(m - 1) + Pow2(m - i - 1) <= m * Pow2(m - 1)
    ensures Pow2(m - i - 1) <= Pow2(m - 1) && Shr(Pow2(m - 1), i) == Pow2(m - i - 1)
  {
    ShiftPow2(m - 1, i);
    SliceFits(i, m, Pow2(m - 1));
    SmallerPower(m - i - 1, m - 1);
  }

  lemma FactorsExtend(first: seq<Complex>, vec: seq<Complex>, segment: seq<Complex>, w: Complex, m: nat, i: nat)
    requires i < m && Factors(first, w, m, i) && Lut(vec, w, m, Pow2(m - 1))
    requires |segment| == Pow2(m - i - 1) && 0 <= i * Pow2(m - 1) && i * Pow2(m - 1) + |segment| <= |vec|
    requires segment == vec[i * Pow2(m - 1)..i * Pow2(m - 1) + |segment|]
    requires |segment| <= Pow2(m - 1)
    ensures Factors(first + segment, w, m, i + 1)
  {
    NextSegment(m, i);
    forall k | 0 <= k < i + 1
      ensures StageFactors(first + segment, w, m, k)
    {
      if k < i {
        assert StageFactors(first, w, m, k);
        forall r | 0 <= r < Pow2(m - k - 1)
          ensures FactorAt(first + segment, w, m, k, r)
        {
          assert FactorAt(first, w, m, k, r);
        }
      } else {
        forall r | 0 <= r < Pow2(m - k - 1)
          ensures FactorAt(first + segment, w, m, k, r)
        {
          assert LutAt(vec, w, Pow2(m - 1), i, r);
          StagePower(w, m, i, r);
        }
      }
    }
  }

  /** The tables of the first phase, taken from the table for all points. */
  method FirstPhaseFactors(w: Complex, m: nat, c: nat) returns (re: seq<real>, im: seq<real>)
    requires 0 < c < m
    ensures |re| == |im| && Factors(Pairs(re, im), w, m, c)
  {
    var vec := SetupTwiddlesLutDifVec(w, m);
    var half := Pow2(m - 1);
    TableSlice(m, 0);
    re, im := AppendSlice([], [], vec, 0, half, w, m, 0);
    for i := 0 to c - 1
      invariant Lut(vec[..], w, m, half) && |re| == |im| && Factors(Pairs(re, im), w, m, i + 1)
    {
      TableSlice(m, i + 1);
      re, im := AppendSlice(re, im, vec, (i + 1) * half, Shr(half, i + 1), w, m, i + 1);
    }
  }

  method AppendSlice(re0: seq<real>, im0: seq<real>, vec: array<Complex>, offset: nat, size: nat, ghost w: Complex,
                     ghost m: nat, ghost i: nat)
    returns (re: seq<real>, im: seq<real>)
    requires i < m && |re0| == |im0| && Factors(Pairs(re0, im0), w, m, i) && Lut(vec[..], w, m, Pow2(m - 1))
    requires offset == i * Pow2(m - 1) && size == Pow2(m - i - 1) <= Pow2(m - 1) && offset + size <= vec.Length
    ensures |re| == |im| && Factors(Pairs(re, im), w, m, i + 1)
  {
    re := re0 + Reals(vec[offset..offset + size]);
    im := im0 + Imags(vec[offset..offset + size]);
    PairsAppend(re0, im0, vec[offset..offset + size]);
    FactorsExtend(Pairs(re0, im0), vec[..], vec[offset..offset + size], w, m, i);
  }

  /** The first `size` real and `size` imaginary parts of an array of factors. */
  function Front(reim: seq<real>, size: nat): seq<Complex>
    requires 2 * size <= |reim|
  {
    Pairs(reim[..size], reim[size..2 * size])
  }

  /** The real and the imaginary parts of a core's own factors, once for each core. */
  method SecondPhaseFactors(w: Complex, log2: nat, c: nat) returns (reim: seq<real>)
    requires log2 > 0
    ensures |reim| == Pow2(c) * (2 * TableSize(log2)) && 2 * TableSize(log2) <= |reim|
    ensures Lut(Front(reim, TableSize(log2)), w, log2, Pow2(log2 - 1))
  {
    var vec := SetupTwiddlesLutDifVec(w, log2);
    ghost var size := TableSize(log2);
    reim := Reals(vec[..]) + Imags(vec[..]);
    PairsOfParts(vec[..]);
    assert reim[..size] == Reals(vec[..]) && reim[size..2 * size] == Imags(vec[..]);
    for i := 0 to c
      invariant |reim| == Pow2(i) * (2 * size) && 2 * size <= |reim| && Lut(Front(reim, size), w, log2, Pow2(log2 - 1))
    {
      assert (reim + reim)[..size] == reim[..size] && (reim + reim)[size..2 * size] == reim[size..2 * size];
      reim := reim + reim;
    }
  }

  lemma FactorsMakeSegments(re: seq<real>, im: seq<real>, rest: seq<real>, w: Complex, m: nat, c: nat)
    requires c < m && |re| == |im| && Factors(Pairs(re, im), w, m, c)
    ensures FirstTables(re + im + rest, |re|, m, c, w)
  {
    var twi, first := re + im + rest, Pairs(re, im);
    forall i | 0 <= i < c
      ensures SegmentOf(twi, |first|, m, w, i)
    {
      NextSegment(m, i);
      SmallerPower(m - c, m - i - 1);
      assert StageFactors(first, w, m, i);
      forall r | 0 <= r < Pow2(m - i - 1)
        ensures SegmentStart(m, i) + |first| + r < |twi|
        ensures EntryIs(twi, |first|, SegmentStart(m, i), r, Pow(w, Pow2(i)))
      {
        assert FactorAt(first, w, m, i, r);
      }
    }
  }

  lemma LutMakesTwiddles(before: seq<real>, reim: seq<real>, size: nat, w: Complex, log2: nat, s: nat, half: nat,
                         at: nat)
    requires s + 2 <= log2 && half == Pow2(log2 - 1) && 2 * size <= |reim| && Lut(Front(reim, size), w, log2, half)
    requires 0 <= s * half && s * half + half <= log2 * half && at == |before| + s * half
    ensures Twiddles(before + reim, size, at, w, Pow2(s), half)
  {
    var twi := before + reim;
    forall j | 0 <= j < half
      ensures TwiddleIs(twi, size, at, w, Pow2(s), half, j)
    {
      assert LutAt(Front(reim, size), w, half, s, j);
      EntryOf(before, reim, size, s * half + j);
    }
  }

  lemma EntryOf(before: seq<real>, reim: seq<real>, size: nat, k: nat)
    requires k < size && 2 * size <= |reim|
    ensures Entry(before + reim, size, |before| + k) == Front(reim, size)[k]
  {
    assert Front(reim, size)[k].re == Reals(Front(reim, size))[k];
    assert Front(reim, size)[k].im == Imags(Front(reim, size))[k];
  }

  // ----- The generated program -----

  lemma TablesAreRight(re: seq<real>, im: seq<real>, reim: seq<real>, size: nat, table: seq<nat>, coffset: seq<nat>,
                       m: nat, c: nat, log2: nat, w: Complex)
    requires 0 < c < m <= c + 14 && log2 == m - c && |re| == |im| && Factors(Pairs(re, im), w, m, c)
    requires 2 * size <= |reim| && Lut(Front(reim, size), Pow(w, Pow2(c)), log2, Pow2(log2 - 1))
    requires |table| == (log2 - 1) * Pow2(log2 - 1)
    requires forall s :: 0 <= s && s + 2 <= log2 ==> TableOfStage(table, log2, s)
    requires coffset == GenCoreOffset(Pow2(c))
    ensures Tables(re + im + reim, table, coffset, |re|, size, m, c, w)
  {
    FactorsMakeSegments(re, im, reim, w, m, c);
    var half, wc := Pow2(log2 - 1), Pow(w, Pow2(c));
    forall s | 0 <= s && s + 2 <= log2
      ensures StageTables(re + im + reim, size, 2 * |re|, table, wc, log2, s)
    {
      StageIsServed(re + im, reim, size, table, wc, log2, half, s, 2 * |re|);
    }
    forall cid | 0 <= cid < Pow2(c)
      ensures coffset[cid] == Rev(c, cid)
    {
      CoreOffsetIsReversed(c, cid);
    }
  }

  lemma HalvesServe(table: seq<nat>, log2: nat, s: nat, half: nat)
    requires s + 2 <= log2 <= 14 && half == Pow2(log2 - 1) && |table| == (log2 - 1) * half
    requires TableOfStage(table, log2, s)
    ensures s * half >= 0 && Pow2(s) * (2 * Pow2(log2 - 2 - s)) >= 0
    ensures Indices(table, s * half, Places(Pow2(s), Pow2(log2 - 2 - s)))
  {
    TableServes(table, log2, s);
  }

  lemma StageIsServed(before: seq<real>, reim: seq<real>, size: nat, table: seq<nat>, w: Complex, log2: nat, half: nat,
                      s: nat, at: nat)
    requires s + 2 <= log2 <= 14 && half == Pow2(log2 - 1) && at == |before|
    requires 2 * size <= |reim| && Lut(Front(reim, size), w, log2, half)
    requires |table| == (log2 - 1) * half && TableOfStage(table, log2, s)
    ensures StageTables(before + reim, size, at, table, w, log2, s)
  {
    SliceFits(s, log2, half);
    LutMakesTwiddles(before, reim, size, w, log2, s, half, at + s * half);
    HalvesServe(table, log2, s, half);
  }

  /**
    The data generator followed by the measured part of the program, on N = 2^m points and 2^c cores with at
    most 2^14 points per core: with the generated tables the output is the discrete Fourier transform of the
    input, for any root `w` with w^(N/2) == -1.
    */
  method GenerateAndRun(samples: array<real>, buffer: array<real>, out: array<real>, m: nat, c: nat, w: Complex)
    requires 0 < c < m <= c + 14 && samples.Length == buffer.Length == out.Length == 2 * Pow2(m)
    requires samples != buffer && samples != out && buffer != out && Pow(w, Pow2(m - 1)) == MINUS_ONE
    modifies samples, buffer, out
    ensures forall k ::
        0 <= k < Pow2(m) ==> Elem(out[..], Pow2(m), k) == Transform(Elems(old(samples[..]), Pow2(m)), w, k)
  {
    var re, im := FirstPhaseFactors(w, m, c);
    var reim := SecondPhaseFactors(Pow(w, Pow2(c)), m - c, c);
    var dbuf := GenStoreIdx(Pow2(m - c), m - c);
    var table := StoreTable(dbuf, m - c);
    var offsets := GenCoreOffset(Pow2(c));
    TablesAreRight(re, im, reim, TableSize(m - c), table, offsets, m, c, m - c, w);
    var factors := re + im + reim;
    var twiddle := new real[|factors|](i requires 0 <= i < |factors| => factors[i]);
    var storeIdx := new nat[|table|](i requires 0 <= i < |table| => table[i]);
    var coffset := new nat[|offsets|](i requires 0 <= i < |offsets| => offsets[i]);
    assert twiddle[..] == factors && storeIdx[..] == table && coffset[..] == offsets;
    Fft(samples, buffer, out, twiddle, storeIdx, coffset, Pow2(m) - Pow2(m - c), TableSize(m - c), m, c, w);
  }

  /** The output holds the transform of `x`. */
  ghost predicate HoldsTransform(out: seq<real>, n: nat, x: seq<Complex>, w: Complex) {
    |out| == 2 * n && forall k :: 0 <= k < n ==> Elem(out, n, k) == Transform(x, w, k)
  }

  /** The output holds the transform of the four points `x`, in real and imaginary parts. */
  ghost predicate HoldsFourPoints(out: seq<real>, x: seq<Complex>) {
    |out| == 8 && |x| == 4 && forall f :: 0 <= f < 4 ==> Elem(out, 4, f) == FourPoint(x, f)
  }

  lemma FourResults(out: seq<real>, x: seq<Complex>, w: Complex)
    requires w == Complex(0.0, -1.0) && HoldsTransform(out, 4, x, w) && |x| == 4
    ensures HoldsFourPoints(out, x)
  {
    forall f | 0 <= f < 4
      ensures Elem(out, 4, f) == FourPoint(x, f)
    {
      FourPoints(x, w, f);
    }
  }

  method RunSmall(samples: array<real>, buffer: array<real>, out: array<real>, m: nat, c: nat, w: Complex, n: nat)
    requires 0 < c < m <= c + 14 && n == Pow2(m) && samples.Length == buffer.Length == out.Length == 2 * n
    requires samples != buffer && samples != out && buffer != out && Pow(w, Pow2(m - 1)) == MINUS_ONE
    modifies samples, buffer, out
    ensures HoldsTransform(out[..], n, Elems(old(samples[..]), n), w)
  {
    GenerateAndRun(samples, buffer, out, m, c, w);
  }

  /**
    The smallest program, four points on two cores with the root (0, -1): the output in real and imaginary parts,
    without any assumption about roots.
    */
  method RunFourPoints(samples: array<real>, buffer: array<real>, out: array<real>)
    requires samples.Length == buffer.Length == out.Length == 8
    requires samples != buffer && samples != out && buffer != out
    modifies samples, buffer, out
    ensures HoldsFourPoints(out[..], Elems(old(samples[..]), 4))
  {
    ghost var x := Elems(samples[..], 4);
    var m, c, n, w := FourPointProgram();
    RunSmall(samples, buffer, out, m, c, w, n);
    FourResults(out[..], x, w);
  }

  method FourPointProgram() returns (m: nat, c: nat, n: nat, w: Complex)
    ensures 0 < c < m <= c + 14 && n == 4 == Pow2(m)
    ensures w == Complex(0.0, -1.0) && Pow(w, Pow2(m - 1)) == MINUS_ONE
  {
    m, c, n, w := 2, 1, 4, Complex(0.0, -1.0);
    FourthRoot(w);
  }

  /** The number of second-phase factors of a core. */
  function TableSize(log2: nat): nat
    requires log2 > 0
  {
    SliceFits(0, log2, Pow2(log2 - 1));
    log2 * Pow2(log2 - 1)
  }
}
