/** `fft_p1` of software/tests/fft-32b/kernel/fft.c: one core's share of one parallel stage. */
module PhaseOneKernel {
  import opened Arithmetic
  import opened ComplexNumbers
  import opened Powers
  import opened PhaseOne
  import opened VectorUnit

  /** Element `k` of a buffer that holds `n` real parts followed by `n` imaginary parts. */
  function Elem(a: seq<real>, n: nat, k: nat): Complex
    requires |a| == 2 * n && k < n
  {
    Complex(a[k], a[n + k])
  }

  /** A buffer as a sequence of complex numbers. */
  function Elems(a: seq<real>, n: nat): (s: seq<Complex>)
    requires |a| == 2 * n
    ensures |s| == n && forall k :: 0 <= k < n ==> s[k] == Elem(a, n, k)
  {
    seq(n, k requires 0 <= k < n => Elem(a, n, k))
  }

  /** Entry `k` of a twiddle table whose imaginary parts are `ntwi` elements behind the real parts. */
  function Entry(twi: seq<real>, ntwi: nat, k: nat): Complex
    requires ntwi + k < |twi|
  {
    Complex(twi[k], twi[ntwi + k])
  }

  /** The core's butterfly `j` has been computed from `src` into `out`. */
  predicate Computed(src: seq<real>, out: seq<real>, twi: seq<real>, n: nat, base: nat, h: nat, at: nat, ntwi: nat,
                     j: nat)
    requires |src| == |out| == 2 * n && base + h + j < n && ntwi + at + j < |twi|
  {
    var u, l := Elem(src, n, base + j), Elem(src, n, base + h + j);
    && Elem(out, n, base + j) == Add(u, l)
    && Elem(out, n, base + h + j) == Mul(Sub(u, l), Entry(twi, ntwi, at + j))
  }

  /** Outside the core's ranges nothing has changed. */
  ghost predicate Untouched(before: seq<real>, after: seq<real>, n: nat, base: int, h: int, len: int) {
    && |before| == |after| == 2 * n
    && forall k :: 0 <= k < n && !InRanges(k, base, h, len) ==> Elem(after, n, k) == Elem(before, n, k)
  }

  /** The results of one strip: lane `i` of the registers is the butterfly of position `p + i`. */
  predicate Lane(src: seq<real>, twi: seq<real>, n: nat, p: nat, h: nat, at: nat, ntwi: nat, re: Register, im: Register,
                 reLow: Register, imLow: Register, i: nat)
    requires |src| == 2 * n && p + h + i < n && ntwi + at + i < |twi| && i < |re| == |im| == |reLow| == |imLow|
  {
    var u, l := Elem(src, n, p + i), Elem(src, n, p + h + i);
    && Complex(re[i], im[i]) == Add(u, l)
    && Complex(reLow[i], imLow[i]) == Mul(Sub(u, l), Entry(twi, ntwi, at + i))
  }

  /** The loads and the arithmetic of one strip. */
  method ComputeStrip(src: array<real>, twi: array<real>, nfft: nat, ntwi: nat, p: nat, h: nat, at: nat, vl: nat)
    returns (v16: Register, v20: Register, v24: Register, v28: Register)
    requires src.Length == 2 * nfft && p + h + vl <= nfft && at + ntwi + vl <= twi.Length
    ensures |v16| == |v20| == |v24| == |v28| == vl
    ensures forall i :: 0 <= i < vl ==> Lane(src[..], twi[..], nfft, p, h, at, ntwi, v16, v20, v24, v28, i)
  {
    var v0 := Vle32(src, p, vl);
    var v4 := Vle32(src, p + h, vl);
    v16 := Vfadd(v0, v4);
    v0 := Vfsub(v0, v4);
    var v8 := Vle32(src, p + nfft, vl);
    var v12 := Vle32(src, p + h + nfft, vl);
    v20 := Vfadd(v8, v12);
    v4 := Vfsub(v8, v12);
    v8 := Vle32(twi, at, vl);
    v12 := Vle32(twi, at + ntwi, vl);
    v24 := Vfmul(v0, v8);
    v24 := Vfnmsac(v24, v4, v12);
    v28 := Vfmul(v0, v12);
    v28 := Vfmacc(v28, v4, v8);
  }

  /** The elements from `p` on have been replaced by the lanes of two registers, and no others. */
  predicate WingStored(before: seq<real>, after: seq<real>, n: nat, p: nat, re: Register, im: Register)
    requires |before| == |after| == 2 * n && |re| == |im|
  {
    forall k :: 0 <= k < n ==>
      Elem(after, n, k) == if p <= k < p + |re| then Complex(re[k - p], im[k - p]) else Elem(before, n, k)
  }

  /** The stores of one wing: its real and its imaginary parts. */
  method StoreWing(buf: array<real>, nfft: nat, p: nat, re: Register, im: Register)
    requires buf.Length == 2 * nfft && |re| == |im| && p + |re| <= nfft
    modifies buf
    ensures WingStored(old(buf[..]), buf[..], nfft, p, re, im)
  {
    Vse32(re, buf, p);
    Vse32(im, buf, p + nfft);
  }

  lemma WingsStored(before: seq<real>, middle: seq<real>, after: seq<real>, n: nat, p: nat, h: nat, re: Register,
                    im: Register, reLow: Register, imLow: Register)
    requires |before| == |middle| == |after| == 2 * n
    requires |re| == |im| == |reLow| == |imLow| <= h && p + h + |re| <= n
    requires WingStored(before, middle, n, p, re, im) && WingStored(middle, after, n, p + h, reLow, imLow)
    ensures forall i :: 0 <= i < |re| ==> Elem(after, n, p + i) == Complex(re[i], im[i])
    ensures forall i :: 0 <= i < |re| ==> Elem(after, n, p + h + i) == Complex(reLow[i], imLow[i])
    ensures Untouched(before, after, n, p, h, |re|)
  {
    forall i | 0 <= i < |re|
      ensures Elem(after, n, p + i) == Complex(re[i], im[i])
    {
      assert Elem(after, n, p + i) == Elem(middle, n, p + i);
    }
    forall k | 0 <= k < n && !InRanges(k, p, h, |re|)
      ensures Elem(after, n, k) == Elem(before, n, k)
    {
      assert Elem(after, n, k) == Elem(middle, n, k);
    }
  }

  /** The stores of one strip. */
  method StoreStrip(buf: array<real>, nfft: nat, p: nat, h: nat, v16: Register, v20: Register, v24: Register,
                    v28: Register)
    requires buf.Length == 2 * nfft && |v16| == |v20| == |v24| == |v28| <= h && p + h + |v16| <= nfft
    modifies buf
    ensures forall i :: 0 <= i < |v16| ==> Elem(buf[..], nfft, p + i) == Complex(v16[i], v20[i])
    ensures forall i :: 0 <= i < |v16| ==> Elem(buf[..], nfft, p + h + i) == Complex(v24[i], v28[i])
    ensures Untouched(old(buf[..]), buf[..], nfft, p, h, |v16|)
  {
    ghost var before := buf[..];
    StoreWing(buf, nfft, p, v16, v20);
    ghost var middle := buf[..];
    StoreWing(buf, nfft, p + h, v24, v28);
    WingsStored(before, middle, buf[..], nfft, p, h, v16, v20, v24, v28);
  }

  /** The strip-mined loop: butterflies of the wings at `base` and `base + h`, with the twiddle factors from `at` on. */
  method Butterflies(src: array<real>, buf: array<real>, twi: array<real>, nfft: nat, ntwi: nat, base: nat, h: nat,
                     at: nat, len: nat)
    requires src != buf && twi != buf && src.Length == buf.Length == 2 * nfft
    requires len <= h && base + h + len <= nfft && at + ntwi + len <= twi.Length
    modifies buf
    ensures forall j :: 0 <= j < len ==> Computed(src[..], buf[..], twi[..], nfft, base, h, at, ntwi, j)
    ensures Untouched(old(buf[..]), buf[..], nfft, base, h, len)
  {
    var p, q, avl := base, at, len;
    while avl > 0
      invariant 0 <= avl <= len && p == base + (len - avl) && q == at + (len - avl)
      invariant forall j :: 0 <= j < len - avl ==> Computed(src[..], buf[..], twi[..], nfft, base, h, at, ntwi, j)
      invariant Untouched(old(buf[..]), buf[..], nfft, base, h, len - avl)
    {
      var vl := Vsetvli(avl);
      var v16, v20, v24, v28 := ComputeStrip(src, twi, nfft, ntwi, p, h, q, vl);
      ghost var before := buf[..];
      StoreStrip(buf, nfft, p, h, v16, v20, v24, v28);
      StripExtends(src[..], before, buf[..], twi[..], nfft, base, h, at, ntwi, len - avl, p, q, v16, v20, v24, v28);
      UntouchedTwice(old(buf[..]), before, buf[..], nfft, base, h, len - avl, vl);
      p, q, avl := p + vl, q + vl, avl - vl;
    }
  }

  lemma StripExtends(src: seq<real>, before: seq<real>, after: seq<real>, twi: seq<real>, n: nat, base: nat, h: nat,
                     at: nat, ntwi: nat, done: nat, p: nat, q: nat, re: Register, im: Register, reLow: Register,
                     imLow: Register)
    requires |src| == |before| == |after| == 2 * n && |re| == |im| == |reLow| == |imLow|
    requires p == base + done && q == at + done && done + |re| <= h && p + h + |re| <= n && ntwi + q + |re| <= |twi|
    requires forall j :: 0 <= j < done ==> Computed(src, before, twi, n, base, h, at, ntwi, j)
    requires forall i :: 0 <= i < |re| ==> Lane(src, twi, n, p, h, q, ntwi, re, im, reLow, imLow, i)
    requires forall i :: 0 <= i < |re| ==> Elem(after, n, p + i) == Complex(re[i], im[i])
    requires forall i :: 0 <= i < |re| ==> Elem(after, n, p + h + i) == Complex(reLow[i], imLow[i])
    requires Untouched(before, after, n, p, h, |re|)
    ensures forall j :: 0 <= j < done + |re| ==> Computed(src, after, twi, n, base, h, at, ntwi, j)
  {
    forall j | 0 <= j < done + |re|
      ensures Computed(src, after, twi, n, base, h, at, ntwi, j)
    {
      if j < done {
        assert Computed(src, before, twi, n, base, h, at, ntwi, j);
      } else {
        assert Lane(src, twi, n, p, h, q, ntwi, re, im, reLow, imLow, j - done);
        assert p + (j - done) == base + j;
      }
    }
  }

  lemma UntouchedTwice(first: seq<real>, second: seq<real>, third: seq<real>, n: nat, base: nat, h: nat, done: nat,
                       more: nat)
    requires Untouched(first, second, n, base, h, done) && Untouched(second, third, n, base + done, h, more)
    ensures Untouched(first, third, n, base, h, done + more)
  {}

  // ----- One core's share of a stage -----

  /** The first entry of the twiddle table that a core reads: all groups read the same entries. */
  function CoreEntry(at: nat, cid: nat, perGroup: nat, len: nat): int
    requires perGroup > 0
  {
    at + (cid % perGroup) * len
  }

  /** The shape of stage `i` on 2^c cores and 2^m points, as the shifts compute it. */
  predicate Shape(nfft: nat, cores: nat, i: nat, perGroup: nat, len: nat) {
    && perGroup > 0 && len > 0
    && Shr(cores, i) == perGroup && cores == Pow2(i) * perGroup
    && Shr(nfft, i) == 2 * (perGroup * len) && Shr(nfft, i + 1) == perGroup * len
    && nfft == Pow2(i) * (2 * (perGroup * len))
  }

  lemma PowersHaveShape(m: nat, c: nat, i: nat)
    requires i < c < m
    ensures Shape(Pow2(m), Pow2(c), i, Pow2(c - i), Pow2(m - c - 1))
  {
    ShiftPow2(c, i);
    ShiftPow2(m, i);
    ShiftPow2(m, i + 1);
    Pow2Add(i, c - i);
    Pow2Add(i, m - i);
    Pow2Add(c - i, m - c - 1);
    assert m - i == (m - i - 1) + 1;
    assert (c - i) + (m - c - 1) == m - i - 1;
  }

  /** Where a core works, and that it stays within the buffers and within its stage's segment of the table. */
  lemma CoreFits(nfft: nat, cores: nat, i: nat, perGroup: nat, len: nat, cid: nat, at: nat)
    requires Shape(nfft, cores, i, perGroup, len) && cid < cores
    ensures 0 <= CoreBase(cid, perGroup, len) && CoreBase(cid, perGroup, len) + perGroup * len + len <= nfft
    ensures at <= CoreEntry(at, cid, perGroup, len) && CoreEntry(at, cid, perGroup, len) + len <= at + perGroup * len
    ensures len <= perGroup * len
  {
    OwnersAreActive(0, cid, Pow2(i), perGroup, len);
    DivBounds(cid, perGroup);
    ScaleOrder(cid % perGroup + 1, perGroup, len);
    Distribute(cid % perGroup, 1, len);
    ScaleOrder(0, cid % perGroup, len);
    ScaleOrder(1, perGroup, len);
  }

  /** The group of a core, and its place in the group. */
  lemma GroupFound(cid: nat, perGroup: nat, group: nat, len: nat, at: nat)
    requires perGroup > 0 && perGroup * group <= cid < perGroup * (group + 1)
    ensures cid - perGroup * group == cid % perGroup
    ensures 2 * (perGroup * len) * group + (cid - perGroup * group) * len == CoreBase(cid, perGroup, len)
    ensures at + (cid - perGroup * group) * len == CoreEntry(at, cid, perGroup, len)
  {
    DivUnique(cid, perGroup, group);
    DivBounds(cid, perGroup);
  }

  lemma GroupBounds(cid: nat, cores: nat, perGroup: nat, groups: nat, group: nat)
    requires perGroup > 0 && cores == groups * perGroup && cid < cores && group <= groups && perGroup * group <= cid
    ensures group < groups
  {
    assert perGroup * groups == groups * perGroup;
  }

  /** The first `count` butterflies of a core have been computed. */
  ghost predicate CoreUpTo(src: seq<real>, out: seq<real>, twi: seq<real>, n: nat, cid: nat, perGroup: nat, len: nat,
                           at: nat, ntwi: nat, count: nat) {
    && perGroup > 0 && |src| == |out| == 2 * n && count <= len
    && 0 <= CoreBase(cid, perGroup, len) && CoreBase(cid, perGroup, len) + perGroup * len + len <= n
    && 0 <= CoreEntry(at, cid, perGroup, len) && ntwi + CoreEntry(at, cid, perGroup, len) + len <= |twi|
    && forall j :: 0 <= j < count ==>
         Computed(src, out, twi, n, CoreBase(cid, perGroup, len), perGroup * len, CoreEntry(at, cid, perGroup, len),
                  ntwi, j)
  }

  /** All the butterflies of a core have been computed. */
  ghost predicate CoreDone(src: seq<real>, out: seq<real>, twi: seq<real>, n: nat, cid: nat, perGroup: nat, len: nat,
                           at: nat, ntwi: nat) {
    CoreUpTo(src, out, twi, n, cid, perGroup, len, at, ntwi, len)
  }

  /** `fft_p1`; `at` is where the stage's segment of the twiddle table starts. */
  method FftP1(src: array<real>, buf: array<real>, twi: array<real>, at: nat, nfft: nat, ntwi: nat, cid: nat,
               cores: nat, stage: nat, len: nat, ghost perGroup: nat)
    requires Shape(nfft, cores, stage, perGroup, len) && cid < cores
    requires src != buf && twi != buf && src.Length == buf.Length == 2 * nfft
    requires at + ntwi + perGroup * len <= twi.Length
    modifies buf
    ensures CoreDone(src[..], buf[..], twi[..], nfft, cid, perGroup, len, at, ntwi)
    ensures Untouched(old(buf[..]), buf[..], nfft, CoreBase(cid, perGroup, len), perGroup * len, len)
  {
    var base, entry := 0, 0;
    var group := 0;
    while group < Pow2(stage)
      invariant 0 <= group <= Pow2(stage) && perGroup * group <= cid
    {
      if cid < Shr(cores, stage) * (group + 1) {
        var offset := Shr(nfft, stage) * group;
        var idx := cid - Shr(cores, stage) * group;
        GroupFound(cid, perGroup, group, len, at);
        base := offset + idx * len;
        entry := at + idx * len;
        break;
      }
      group := group + 1;
    }
    GroupBounds(cid, cores, perGroup, Pow2(stage), group);
    CoreFits(nfft, cores, stage, perGroup, len, cid, at);
    Butterflies(src, buf, twi, nfft, ntwi, base, Shr(nfft, stage + 1), entry, len);
  }

  // ----- All cores' shares together -----

  /** What one core stores leaves the results of another alone, however far the other has come. */
  lemma OthersKept(src: seq<real>, before: seq<real>, after: seq<real>, twi: seq<real>, n: nat, cid: nat, other: nat,
                   perGroup: nat, len: nat, at: nat, ntwi: nat, count: nat)
    requires perGroup > 0 && len > 0 && cid != other
    requires CoreUpTo(src, before, twi, n, other, perGroup, len, at, ntwi, count)
    requires Untouched(before, after, n, CoreBase(cid, perGroup, len), perGroup * len, len)
    ensures CoreUpTo(src, after, twi, n, other, perGroup, len, at, ntwi, count)
  {
    var base, h := CoreBase(other, perGroup, len), perGroup * len;
    forall j | 0 <= j < count
      ensures Computed(src, after, twi, n, base, h, CoreEntry(at, other, perGroup, len), ntwi, j)
    {
      assert Computed(src, before, twi, n, base, h, CoreEntry(at, other, perGroup, len), ntwi, j);
      NotInRanges(base + j, other, cid, perGroup, len);
      NotInRanges(base + h + j, other, cid, perGroup, len);
    }
  }

  lemma NotInRanges(k: nat, owner: nat, cid: nat, perGroup: nat, len: nat)
    requires perGroup > 0 && len > 0 && cid != owner && InRanges(k, CoreBase(owner, perGroup, len), perGroup * len, len)
    ensures !InRanges(k, CoreBase(cid, perGroup, len), perGroup * len, len)
  {
    StagePartition(k, owner, perGroup, len);
    StagePartition(k, cid, perGroup, len);
  }

  /** The table's segment for a stage holds the powers of the stage's root. */
  ghost predicate Segment(twi: seq<real>, ntwi: nat, at: nat, h: nat, v: Complex) {
    at + ntwi + h <= |twi| && forall r :: 0 <= r < h ==> EntryIs(twi, ntwi, at, r, v)
  }

  predicate EntryIs(twi: seq<real>, ntwi: nat, at: nat, r: nat, v: Complex)
    requires at + ntwi + r < |twi|
  {
    Entry(twi, ntwi, at + r) == Pow(v, r)
  }

  /** The core that computes the butterfly at position `r` of block `g`. */
  lemma CoreOfButterfly(g: nat, r: nat, groups: nat, perGroup: nat, len: nat, at: nat) returns (cid: nat, j: nat)
    requires g < groups && r < perGroup * len && perGroup > 0 && len > 0
    ensures cid < groups * perGroup && j < len
    ensures CoreBase(cid, perGroup, len) + j == g * (2 * (perGroup * len)) + r
    ensures CoreEntry(at, cid, perGroup, len) + j == at + r
  {
    DivBounds(r, len);
    QuotientNat(r, len);
    var idx := r / len;
    ScaleOrder(perGroup, idx, len);
    cid, j := g * perGroup + idx, r % len;
    GroupOf(g, idx, perGroup);
    ScaleOrder(g + 1, groups, perGroup);
    Distribute(g, 1, perGroup);
  }

  lemma ButterflyComputed(src: seq<real>, out: seq<real>, twi: seq<real>, n: nat, base: nat, h: nat, entry: nat,
                          ntwi: nat, at: nat, j: nat, start: nat, r: nat, v: Complex)
    requires |src| == |out| == 2 * n && r < h && base + j == start + r && entry + j == at + r && start + 2 * h <= n
    requires at + ntwi + h <= |twi|
    requires Computed(src, out, twi, n, base, h, entry, ntwi, j) && EntryIs(twi, ntwi, at, r, v)
    ensures ButterflyAt(Elems(src, n), Elems(out, n), start, h, v, r)
  {
    assert base + h + j == start + h + r;
  }

  lemma CoresMakeButterfly(src: seq<real>, out: seq<real>, twi: seq<real>, n: nat, cores: nat, i: nat, perGroup: nat,
                           len: nat, at: nat, ntwi: nat, v: Complex, g: nat, r: nat)
    requires Shape(n, cores, i, perGroup, len) && Segment(twi, ntwi, at, perGroup * len, v) && |src| == |out| == 2 * n
    requires forall cid :: 0 <= cid < cores ==> CoreDone(src, out, twi, n, cid, perGroup, len, at, ntwi)
    requires g < Pow2(i) && r < perGroup * len
    ensures ButterflyOf(Elems(src, n), Elems(out, n), i, perGroup * len, v, g, r)
  {
    var h := perGroup * len;
    BlockFits(g, i, h);
    var cid, j := CoreOfButterfly(g, r, Pow2(i), perGroup, len, at);
    assert CoreDone(src, out, twi, n, cid, perGroup, len, at, ntwi);
    assert EntryIs(twi, ntwi, at, r, v);
    ButterflyComputed(src, out, twi, n, CoreBase(cid, perGroup, len), h, CoreEntry(at, cid, perGroup, len), ntwi, at, j,
                      g * (2 * h), r, v);
  }

  /** When all cores have done their shares, the stage is complete. */
  lemma CoresMakeStage(src: seq<real>, out: seq<real>, twi: seq<real>, n: nat, cores: nat, i: nat, perGroup: nat,
                       len: nat, at: nat, ntwi: nat, v: Complex)
    requires Shape(n, cores, i, perGroup, len) && Segment(twi, ntwi, at, perGroup * len, v) && |src| == |out| == 2 * n
    requires forall cid :: 0 <= cid < cores ==> CoreDone(src, out, twi, n, cid, perGroup, len, at, ntwi)
    ensures Stage(Elems(src, n), Elems(out, n), i, perGroup * len, v)
  {
    var h := perGroup * len;
    forall g, r | 0 <= g < Pow2(i) && 0 <= r < h
      ensures ButterflyOf(Elems(src, n), Elems(out, n), i, h, v, g, r)
    {
      CoresMakeButterfly(src, out, twi, n, cores, i, perGroup, len, at, ntwi, v, g, r);
    }
  }

  /** One strip of one core, at the point that the core has reached. */
  method CoreStrip(src: array<real>, buf: array<real>, twi: array<real>, nfft: nat, ntwi: nat, base: nat, h: nat,
                   entry: nat, len: nat, done: nat)
    returns (vl: nat)
    requires src != buf && twi != buf && src.Length == buf.Length == 2 * nfft
    requires done < len <= h && base + h + len <= nfft && entry + ntwi + len <= twi.Length
    requires forall j :: 0 <= j < done ==> Computed(src[..], buf[..], twi[..], nfft, base, h, entry, ntwi, j)
    modifies buf
    ensures 1 <= vl <= len - done
    ensures forall j :: 0 <= j < done + vl ==> Computed(src[..], buf[..], twi[..], nfft, base, h, entry, ntwi, j)
    ensures Untouched(old(buf[..]), buf[..], nfft, base, h, len)
  {
    vl := Vsetvli(len - done);
    var v16, v20, v24, v28 := ComputeStrip(src, twi, nfft, ntwi, base + done, h, entry + done, vl);
    ghost var before := buf[..];
    StoreStrip(buf, nfft, base + done, h, v16, v20, v24, v28);
    StripExtends(src[..], before, buf[..], twi[..], nfft, base, h, entry, ntwi, done, base + done, entry + done, v16,
                 v20, v24, v28);
  }
}
