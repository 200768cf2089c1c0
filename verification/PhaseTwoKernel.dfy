/** `fft_p2` of software/tests/fft-32b/kernel/fft.c: the stages that a core runs alone on its part of the data. */
module PhaseTwoKernel {
  import opened Arithmetic
  import opened ComplexNumbers
  import opened Powers
  import opened VectorUnit
  import opened PhaseOneKernel

  // ----- A stage whose results are stored by index -----

  /** The places of the upper wing's results, one for each butterfly; those of the lower wing are a quarter further. */
  ghost predicate Placement(places: seq<nat>, quarter: nat) {
    && (forall j :: 0 <= j < |places| ==> places[j] + quarter < 2 * |places|)
    && (forall j, k :: 0 <= j < k < |places| ==> places[j] != places[k])
    && (forall j, k :: 0 <= j < |places| && 0 <= k < |places| ==> places[j] != places[k] + quarter)
  }

  /** The index table holds the places, in bytes. */
  ghost predicate Indices(index: seq<nat>, at: nat, places: seq<nat>) {
    at + |places| <= |index| && forall j :: 0 <= j < |places| ==> IndexIs(index, at, places, j)
  }

  predicate IndexIs(index: seq<nat>, at: nat, places: seq<nat>, j: nat)
    requires j < |places| && at + j < |index|
  {
    index[at + j] == 4 * places[j]
  }

  /** Butterfly `j` of the half at `off` has been computed from `src` and stored at its places in `out`. */
  predicate Placed(src: seq<real>, out: seq<real>, twi: seq<real>, n: nat, off: nat, places: seq<nat>, quarter: nat,
                   at: nat, ntwi: nat, j: nat)
    requires |src| == |out| == 2 * n && off + 2 * |places| <= n && j < |places| && ntwi + at + j < |twi|
  {
    var u, l := Elem(src, n, off + j), Elem(src, n, off + |places| + j);
    && places[j] + quarter < 2 * |places|
    && Elem(out, n, off + places[j]) == Add(u, l)
    && Elem(out, n, off + places[j] + quarter) == Mul(Sub(u, l), Entry(twi, ntwi, at + j))
  }

  /** Element `k` is a place of one of the butterflies from `lo` up to `hi`. */
  ghost predicate AtPlace(k: int, off: nat, places: seq<nat>, quarter: nat, lo: nat, hi: nat)
    requires lo <= hi <= |places|
  {
    exists j :: lo <= j < hi && (k == off + places[j] || k == off + places[j] + quarter)
  }

  ghost predicate OnlyPlaces(before: seq<real>, after: seq<real>, n: nat, off: nat, places: seq<nat>, quarter: nat,
                             lo: nat, hi: nat)
    requires lo <= hi <= |places|
  {
    && |before| == |after| == 2 * n
    && forall k :: 0 <= k < n ==> Elem(after, n, k) == Elem(before, n, k) || AtPlace(k, off, places, quarter, lo, hi)
  }

  /** One indexed store: one part of one wing of the butterflies from `lo` on. */
  method ScatterWing(v: Register, a: array<real>, p: nat, index: seq<nat>, ghost places: seq<nat>, ghost lo: nat)
    requires |index| == |v| && lo + |v| <= |places|
    requires forall i :: 0 <= i < |index| ==> index[i] == 4 * places[lo + i]
    requires forall j :: 0 <= j < |places| ==> p + places[j] < a.Length
    requires forall j, k :: 0 <= j < k < |places| ==> places[j] != places[k]
    modifies a
    ensures forall i :: 0 <= i < |v| ==> a[p + places[lo + i]] == v[i]
    ensures forall k :: 0 <= k < a.Length ==> a[k] == old(a[k]) || exists j :: lo <= j < lo + |v| && k == p + places[j]
  {
    forall i | 0 <= i < |index|
      ensures index[i] % 4 == 0 && Indexed(p, index, i) == p + places[lo + i]
    {}
    Vsuxei16(v, a, p, index);
    forall k | 0 <= k < a.Length && a[k] != old(a[k])
      ensures exists j :: lo <= j < lo + |v| && k == p + places[j]
    {
      var i :| 0 <= i < |v| && k == Indexed(p, index, i);
      assert k == p + places[lo + i];
    }
  }

  /** The stores of one wing of a strip, to the places that lie `shift` further. */
  method StoreWing(buf: array<real>, n: nat, off: nat, shift: nat, index: seq<nat>, vre: Register, vim: Register,
                   ghost places: seq<nat>, ghost lo: nat)
    requires buf.Length == 2 * n && |vre| == |vim| == |index| && lo + |index| <= |places|
    requires forall i :: 0 <= i < |index| ==> index[i] == 4 * places[lo + i]
    requires forall j :: 0 <= j < |places| ==> off + shift + places[j] < n
    requires forall j, k :: 0 <= j < k < |places| ==> places[j] != places[k]
    modifies buf
    ensures forall i :: 0 <= i < |vre| ==> Elem(buf[..], n, off + shift + places[lo + i]) == Complex(vre[i], vim[i])
    ensures forall k :: 0 <= k < n ==>
              Elem(buf[..], n,
                   k) == Elem(old(buf[..]), n, k) || exists j :: lo <= j < lo + |vre| && k == off + shift + places[j]
  {
    ScatterWing(vre, buf, off + shift, index, places, lo);
    ScatterWing(vim, buf, n + off + shift, index, places, lo);
  }

  /** The stores of one strip of a shuffled stage. */
  method StoreShuffled(buf: array<real>, n: nat, off: nat, quarter: nat, index: seq<nat>, v16: Register, v20: Register,
                       v24: Register, v28: Register, ghost places: seq<nat>, ghost lo: nat)
    requires buf.Length == 2 * n && off + 2 * |places| <= n && Placement(places, quarter)
    requires |v16| == |v20| == |v24| == |v28| == |index| && lo + |index| <= |places|
    requires forall i :: 0 <= i < |index| ==> index[i] == 4 * places[lo + i]
    modifies buf
    ensures forall i :: 0 <= i < |v16| ==> Elem(buf[..], n, off + places[lo + i]) == Complex(v16[i], v20[i])
    ensures forall i :: 0 <= i < |v16| ==> Elem(buf[..], n, off + places[lo + i] + quarter) == Complex(v24[i], v28[i])
    ensures OnlyPlaces(old(buf[..]), buf[..], n, off, places, quarter, lo, lo + |index|)
  {
    StoreWing(buf, n, off, 0, index, v16, v20, places, lo);
    StoreWing(buf, n, off, quarter, index, v24, v28, places, lo);
  }

  /** One strip of a stage other than the last: the butterflies from `done` on, at the pointers `p`, `q` and `x`. */
  method ShuffledStrip(src: array<real>, buf: array<real>, twi: array<real>, seqIdx: array<nat>, n: nat, ntwi: nat,
                       off: nat, half: nat, quarter: nat, p: nat, q: nat, x: nat, avl: nat, ghost at: nat,
                       ghost idxAt: nat, ghost places: seq<nat>, ghost done: nat)
    returns (vl: nat)
    requires src != buf && twi != buf && src.Length == buf.Length == 2 * n && off + 2 * half <= n
    requires at + ntwi + half <= twi.Length && 0 < avl == half - done
    requires p == off + done && q == at + done && x == idxAt + done
    requires |places| == half && Placement(places, quarter) && Indices(seqIdx[..], idxAt, places)
    requires forall j :: 0 <= j < done ==> Placed(src[..], buf[..], twi[..], n, off, places, quarter, at, ntwi, j)
    modifies buf
    ensures 1 <= vl <= avl
    ensures forall j :: 0 <= j < done + vl ==> Placed(src[..], buf[..], twi[..], n, off, places, quarter, at, ntwi, j)
    ensures OnlyPlaces(old(buf[..]), buf[..], n, off, places, quarter, done, done + vl)
  {
    vl := Vsetvli(avl);
    var v16, v20, v24, v28 := ComputeStrip(src, twi, n, ntwi, p, half, q, vl);
    var index := Vle16(seqIdx, x, vl);
    ghost var before := buf[..];
    IndexStrip(seqIdx[..], idxAt, places, index, done, x);
    StoreShuffled(buf, n, off, quarter, index, v16, v20, v24, v28, places, done);
    ShuffleExtends(src[..], before, buf[..], twi[..], n, off, places, quarter, at, ntwi, done, p, q, v16, v20, v24,
                   v28);
  }

  /** The strip-mined loop of a stage other than the last: butterflies of the halves at `off`, shuffled into `buf`. */
  method ShuffledButterflies(src: array<real>, buf: array<real>, twi: array<real>, seqIdx: array<nat>, n: nat,
                             ntwi: nat, off: nat, half: nat, quarter: nat, at: nat, idxAt: nat, ghost places: seq<nat>)
    requires src != buf && twi != buf && src.Length == buf.Length == 2 * n && off + 2 * half <= n
    requires at + ntwi + half <= twi.Length
    requires |places| == half && Placement(places, quarter) && Indices(seqIdx[..], idxAt, places)
    modifies buf
    ensures forall j :: 0 <= j < half ==> Placed(src[..], buf[..], twi[..], n, off, places, quarter, at, ntwi, j)
    ensures OnlyPlaces(old(buf[..]), buf[..], n, off, places, quarter, 0, half)
  {
    var p, q, x, avl := off, at, idxAt, half;
    while avl > 0
      invariant 0 <= avl <= half && p == off + (half - avl) && q == at + (half - avl) && x == idxAt + (half - avl)
      invariant forall j ::
          0 <= j < half - avl ==> Placed(src[..], buf[..], twi[..], n, off, places, quarter, at, ntwi, j)
      invariant OnlyPlaces(old(buf[..]), buf[..], n, off, places, quarter, 0, half - avl)
    {
      ghost var before := buf[..];
      var vl := ShuffledStrip(src, buf, twi, seqIdx, n, ntwi, off, half, quarter, p, q, x, avl, at, idxAt, places,
                              half - avl);
      OnlyPlacesTwice(old(buf[..]), before, buf[..], n, off, places, quarter, half - avl, half - avl + vl);
      p, q, x, avl := p + vl, q + vl, x + vl, avl - vl;
    }
  }

  lemma IndexStrip(table: seq<nat>, at: nat, places: seq<nat>, index: seq<nat>, lo: nat, x: nat)
    requires Indices(table, at, places) && lo + |index| <= |places| && x == at + lo
    requires forall i :: 0 <= i < |index| ==> index[i] == table[x + i]
    ensures forall i :: 0 <= i < |index| ==> index[i] == 4 * places[lo + i]
  {
    forall i | 0 <= i < |index|
      ensures index[i] == 4 * places[lo + i]
    {
      assert IndexIs(table, at, places, lo + i);
    }
  }

  /** Distinct butterflies have distinct places, so that the places of one are left alone by the others. */
  lemma PlaceKept(before: seq<real>, after: seq<real>, n: nat, off: nat, places: seq<nat>, quarter: nat, lo: nat,
                  hi: nat, j: nat)
    requires Placement(places, quarter) && lo <= hi <= |places|
    requires OnlyPlaces(before, after, n, off, places, quarter, lo, hi)
    requires j < |places| && !(lo <= j < hi) && off + 2 * |places| <= n
    ensures Elem(after, n, off + places[j]) == Elem(before, n, off + places[j])
    ensures Elem(after, n, off + places[j] + quarter) == Elem(before, n, off + places[j] + quarter)
  {
    forall i | lo <= i < hi
      ensures places[i] != places[j] && places[j] != places[i] + quarter && places[i] != places[j] + quarter
    {}
  }

  /** A lane stored at the places of its position. */
  lemma NewlyPlaced(src: seq<real>, after: seq<real>, twi: seq<real>, n: nat, off: nat, places: seq<nat>, quarter: nat,
                    at: nat, ntwi: nat, j: nat, p: nat, q: nat, re: Register, im: Register, reLow: Register,
                    imLow: Register, i: nat)
    requires |src| == |after| == 2 * n && i < |re| == |im| == |reLow| == |imLow| && off + 2 * |places| <= n
    requires j < |places| && p + i == off + j && q + i == at + j && ntwi + at + |places| <= |twi|
    requires Placement(places, quarter)
    requires Lane(src, twi, n, p, |places|, q, ntwi, re, im, reLow, imLow, i)
    requires Elem(after, n, off + places[j]) == Complex(re[i], im[i])
    requires Elem(after, n, off + places[j] + quarter) == Complex(reLow[i], imLow[i])
    ensures Placed(src, after, twi, n, off, places, quarter, at, ntwi, j)
  {
    assert p + |places| + i == off + |places| + j;
  }

  lemma ShuffleExtends(src: seq<real>, before: seq<real>, after: seq<real>, twi: seq<real>, n: nat, off: nat,
                       places: seq<nat>, quarter: nat, at: nat, ntwi: nat, done: nat, p: nat, q: nat, re: Register,
                       im: Register, reLow: Register, imLow: Register)
    requires |src| == |before| == |after| == 2 * n && |re| == |im| == |reLow| == |imLow| && off + 2 * |places| <= n
    requires p == off + done && q == at + done && done + |re| <= |places| && ntwi + at + |places| <= |twi|
    requires Placement(places, quarter)
    requires forall j :: 0 <= j < done ==> Placed(src, before, twi, n, off, places, quarter, at, ntwi, j)
    requires forall i :: 0 <= i < |re| ==> Lane(src, twi, n, p, |places|, q, ntwi, re, im, reLow, imLow, i)
    requires forall i :: 0 <= i < |re| ==> Elem(after, n, off + places[done + i]) == Complex(re[i], im[i])
    requires forall i ::
        0 <= i < |re| ==> Elem(after, n, off + places[done + i] + quarter) == Complex(reLow[i], imLow[i])
    requires OnlyPlaces(before, after, n, off, places, quarter, done, done + |re|)
    ensures forall j :: 0 <= j < done + |re| ==> Placed(src, after, twi, n, off, places, quarter, at, ntwi, j)
  {
    forall j | 0 <= j < done + |re|
      ensures Placed(src, after, twi, n, off, places, quarter, at, ntwi, j)
    {
      if j < done {
        assert Placed(src, before, twi, n, off, places, quarter, at, ntwi, j);
        PlaceKept(before, after, n, off, places, quarter, done, done + |re|, j);
      } else {
        var i := j - done;
        assert Lane(src, twi, n, p, |places|, q, ntwi, re, im, reLow, imLow, i);
        assert places[done + i] == places[j];
        NewlyPlaced(src, after, twi, n, off, places, quarter, at, ntwi, j, p, q, re, im, reLow, imLow, i);
      }
    }
  }

  lemma OnlyPlacesTwice(first: seq<real>, second: seq<real>, third: seq<real>, n: nat, off: nat, places: seq<nat>,
                        quarter: nat, mid: nat, hi: nat)
    requires mid <= hi <= |places|
    requires OnlyPlaces(first, second, n, off, places, quarter, 0, mid)
    requires OnlyPlaces(second, third, n, off, places, quarter, mid, hi)
    ensures OnlyPlaces(first, third, n, off, places, quarter, 0, hi)
  {
    forall k | 0 <= k < n
      ensures Elem(third, n, k) == Elem(first, n, k) || AtPlace(k, off, places, quarter, 0, hi)
    {
      if AtPlace(k, off, places, quarter, 0, mid) {
        var j :| 0 <= j < mid && (k == off + places[j] || k == off + places[j] + quarter);
        assert 0 <= j < hi;
      } else if AtPlace(k, off, places, quarter, mid, hi) {
        var j :| mid <= j < hi && (k == off + places[j] || k == off + places[j] + quarter);
        assert 0 <= j < hi;
      }
    }
  }

  // ----- The last stage, whose results are stored with a stride -----

  /** Butterfly `j` of the halves at `off`, untwiddled, is stored at its two places in the strided output. */
  predicate Delivered(src: seq<real>, out: seq<real>, n: nat, off: nat, half: nat, start: nat, step: nat, j: nat)
    requires |src| == |out| == 2 * n && off + half + j < n
  {
    var u, l := Elem(src, n, off + j), Elem(src, n, off + half + j);
    && Strided(start, step, j) < n && Strided(start, step, half + j) < n
    && Elem(out, n, Strided(start, step, j)) == Add(u, l)
    && Elem(out, n, Strided(start, step, half + j)) == Sub(u, l)
  }

  ghost predicate AtStride(k: nat, start: nat, step: nat, lo: nat, hi: nat) {
    exists f :: lo <= f < hi && k == Strided(start, step, f)
  }

  /** Only the strided places of the butterflies from `lo` up to `hi` have changed. */
  ghost predicate OnlyStrided(before: seq<real>, after: seq<real>, n: nat, half: nat, start: nat, step: nat, lo: nat,
                              hi: nat) {
    && |before| == |after| == 2 * n
    && forall k :: 0 <= k < n ==>
         || Elem(after, n, k) == Elem(before, n, k)
         || AtStride(k, start, step, lo, hi) || AtStride(k, start, step, half + lo, half + hi)
  }

  /** The loads and the arithmetic of one strip of the last stage. */
  method AddStrip(src: array<real>, n: nat, p: nat, h: nat, vl: nat) returns (v16: Register, v20: Register,
                  v0: Register, v4: Register)
    requires src.Length == 2 * n && p + h + vl <= n
    ensures |v16| == |v20| == |v0| == |v4| == vl
    ensures forall i ::
        0 <= i < vl ==> Complex(v16[i], v20[i]) == Add(Elem(src[..], n, p + i), Elem(src[..], n, p + h + i))
    ensures forall i ::
        0 <= i < vl ==> Complex(v0[i], v4[i]) == Sub(Elem(src[..], n, p + i), Elem(src[..], n, p + h + i))
  {
    v0 := Vle32(src, p, vl);
    v4 := Vle32(src, p + h, vl);
    v16 := Vfadd(v0, v4);
    v0 := Vfsub(v0, v4);
    var v8 := Vle32(src, p + n, vl);
    var v12 := Vle32(src, p + h + n, vl);
    v20 := Vfadd(v8, v12);
    v4 := Vfsub(v8, v12);
  }

  /** The strided stores of one wing of a strip, which goes to the places from the lo-th on. */
  method StrideWing(out: array<real>, n: nat, p: nat, stride: nat, vre: Register, vim: Register, ghost start: nat,
                    ghost step: nat, ghost lo: nat)
    requires out.Length == 2 * n && |vre| == |vim| && step > 0 && stride == 4 * step && p == Strided(start, step, lo)
    requires forall f :: lo <= f < lo + |vre| ==> Strided(start, step, f) < n
    modifies out
    ensures forall i :: 0 <= i < |vre| ==> Strided(start, step, lo + i) < n
                                           && Elem(out[..], n, Strided(start, step, lo + i)) == Complex(vre[i], vim[i])
    ensures forall k ::
        0 <= k < n ==> Elem(out[..], n, k) == Elem(old(out[..]), n, k) || AtStride(k, start, step, lo, lo + |vre|)
  {
    var q := n + p;
    forall i | 0 <= i < |vre|
      ensures Strided(p, step, i) == Strided(start, step, lo + i) < n
      ensures Strided(q, step, i) == n + Strided(start, step, lo + i)
    {
      Distribute(lo, i, step);
    }
    Vsse32(vre, out, p, stride);
    ghost var mid := out[..];
    Vsse32(vim, out, q, stride);
    forall k | 0 <= k < n && Elem(out[..], n, k) != Elem(old(out[..]), n, k)
      ensures AtStride(k, start, step, lo, lo + |vre|)
    {
      StrideUsed(k, k, p, start, step, lo, |vre|);
      StrideUsed(k, n + k, q, start, step, lo, |vre|);
    }
  }

  lemma StrideUsed(k: nat, m: nat, p: nat, start: nat, step: nat, lo: nat, len: nat)
    requires m - p == k - Strided(start, step, lo)
    ensures (exists i :: 0 <= i < len && m == Strided(p, step, i)) ==> AtStride(k, start, step, lo, lo + len)
  {
    if i :| 0 <= i < len && m == Strided(p, step, i) {
      Distribute(lo, i, step);
      assert k == Strided(start, step, lo + i);
    }
  }

  /** The shape of the strided output of `2 * half` results in a buffer of `n` elements. */
  predicate StrideShape(n: nat, half: nat, start: nat, step: nat) {
    step > 0 && n == 2 * (half * step) && start < step
  }

  lemma StrideBounds(n: nat, half: nat, start: nat, step: nat, f: nat)
    requires StrideShape(n, half, start, step) && f < 2 * half
    ensures Strided(start, step, f) < n
  {
    ScaleOrder(f + 1, 2 * half, step);
    Distribute(f, 1, step);
    assert (2 * half) * step == 2 * (half * step);
  }

  lemma StrideAdvances(start: nat, step: nat, half: nat, f: nat, more: nat)
    ensures more * step >= 0 && Strided(start, step, f + more) == Strided(start, step, f) + more * step
    ensures half * step >= 0 && Strided(start, step, half + f) == Strided(start, step, f) + half * step
  {
    Distribute(f, more, step);
    Distribute(half, f, step);
  }

  /** One strip of the last stage: the butterflies from `done` on, at the pointers `p`, `upper` and `lower`. */
  method LastStrip(src: array<real>, out: array<real>, n: nat, off: nat, half: nat, p: nat, upper: nat, lower: nat,
                   avl: nat, stride: nat, ghost outAt: nat, ghost step: nat, ghost done: nat)
    returns (vl: nat)
    requires src != out && src.Length == out.Length == 2 * n && off + 2 * half <= n && 0 < avl == half - done
    requires StrideShape(n, half, outAt, step) && stride == 4 * step && p == off + done
    requires upper == Strided(outAt, step, done) && lower == Strided(outAt, step, half + done)
    requires forall j :: 0 <= j < done ==> Delivered(src[..], out[..], n, off, half, outAt, step, j)
    modifies out
    ensures 1 <= vl <= avl
    ensures forall j :: 0 <= j < done + vl ==> Delivered(src[..], out[..], n, off, half, outAt, step, j)
    ensures OnlyStrided(old(out[..]), out[..], n, half, outAt, step, done, done + vl)
  {
    vl := Vsetvli(avl);
    var v16, v20, v0, v4 := AddStrip(src, n, p, half, vl);
    ghost var before := out[..];
    StoreStrided(out, n, upper, lower, stride, v16, v20, v0, v4, half, outAt, step, done, half + done);
    DeliveryExtends(src[..], before, out[..], n, off, half, outAt, step, done, half + done, p, v16, v20, v0, v4);
  }

  /** The strip-mined loop of the last stage. */
  method LastButterflies(src: array<real>, out: array<real>, n: nat, off: nat, half: nat, outAt: nat, stride: nat,
                         strideE: nat)
    requires src != out && src.Length == out.Length == 2 * n && off + 2 * half <= n
    requires StrideShape(n, half, outAt, Pow2(strideE)) && stride == 4 * Pow2(strideE)
    modifies out
    ensures forall j :: 0 <= j < half ==> Delivered(src[..], out[..], n, off, half, outAt, Pow2(strideE), j)
    ensures OnlyStrided(old(out[..]), out[..], n, half, outAt, Pow2(strideE), 0, half)
  {
    ghost var step := Pow2(strideE);
    var p, upper, lower, avl := off, outAt, outAt + n / 2, half;
    StrideAdvances(outAt, step, half, 0, 0);
    while avl > 0
      invariant 0 <= avl <= half && p == off + (half - avl)
      invariant upper == Strided(outAt, step, half - avl) && lower == Strided(outAt, step, half + (half - avl))
      invariant forall j :: 0 <= j < half - avl ==> Delivered(src[..], out[..], n, off, half, outAt, step, j)
      invariant OnlyStrided(old(out[..]), out[..], n, half, outAt, step, 0, half - avl)
    {
      ghost var before, done := out[..], half - avl;
      var vl := LastStrip(src, out, n, off, half, p, upper, lower, avl, stride, outAt, step, done);
      OnlyStridedTwice(old(out[..]), before, out[..], n, half, outAt, step, done, done + vl);
      StrideAdvances(outAt, step, half, done, vl);
      StrideAdvances(outAt, step, half, half + done, vl);
      p, upper, lower, avl := p + vl, upper + vl * Pow2(strideE), lower + vl * Pow2(strideE), avl - vl;
    }
  }

  /** The stores of one strip of the last stage. */
  method StoreStrided(out: array<real>, n: nat, upper: nat, lower: nat, stride: nat, v16: Register, v20: Register,
                      v0: Register, v4: Register, ghost half: nat, ghost start: nat, ghost step: nat, ghost lo: nat,
                      ghost above: nat)
    requires out.Length == 2 * n && StrideShape(n, half, start, step) && stride == 4 * step && above == half + lo
    requires |v16| == |v20| == |v0| == |v4| && lo + |v16| <= half
    requires upper == Strided(start, step, lo) && lower == Strided(start, step, above)
    modifies out
    ensures forall i :: 0 <= i < |v16| ==> StridePlaced(out[..], n, start, step, lo, v16, v20, i)
    ensures forall i :: 0 <= i < |v16| ==> StridePlaced(out[..], n, start, step, above, v0, v4, i)
    ensures OnlyStrided(old(out[..]), out[..], n, half, start, step, lo, lo + |v16|)
  {
    forall f | 0 <= f < 2 * half
      ensures Strided(start, step, f) < n
    {
      StrideBounds(n, half, start, step, f);
    }
    StrideWing(out, n, upper, stride, v16, v20, start, step, lo);
    ghost var mid := out[..];
    StrideWing(out, n, lower, stride, v0, v4, start, step, above);
    forall i | 0 <= i < |v16|
      ensures StridePlaced(out[..], n, start, step, lo, v16, v20, i)
    {
      StrideKept(mid, out[..], n, start, step, above, above + |v16|, lo + i);
    }
  }

  predicate StridePlaced(a: seq<real>, n: nat, start: nat, step: nat, lo: nat, vre: Register, vim: Register, i: nat)
    requires |a| == 2 * n && i < |vre| == |vim|
  {
    Strided(start, step, lo + i) < n && Elem(a, n, Strided(start, step, lo + i)) == Complex(vre[i], vim[i])
  }

  /** A place outside the range that was stored to is left alone. */
  lemma StrideKept(before: seq<real>, after: seq<real>, n: nat, start: nat, step: nat, lo: nat, hi: nat, f: nat)
    requires |before| == |after| == 2 * n && step > 0 && Strided(start, step, f) < n && !(lo <= f < hi)
    requires forall k :: 0 <= k < n ==> Elem(after, n, k) == Elem(before, n, k) || AtStride(k, start, step, lo, hi)
    ensures Elem(after, n, Strided(start, step, f)) == Elem(before, n, Strided(start, step, f))
  {
    NotAtStride(start, step, lo, hi, f);
  }

  lemma NotAtStride(start: nat, step: nat, lo: nat, hi: nat, f: nat)
    requires step > 0 && !(lo <= f < hi)
    ensures !AtStride(Strided(start, step, f), start, step, lo, hi)
  {
    forall g | lo <= g < hi
      ensures Strided(start, step, g) != Strided(start, step, f)
    {
      if Strided(start, step, g) == Strided(start, step, f) {
        StridedDistinct(start, step, g, f);
      }
    }
  }

  lemma DeliveryExtends(src: seq<real>, before: seq<real>, after: seq<real>, n: nat, off: nat, half: nat, start: nat,
                        step: nat, done: nat, above: nat, p: nat, re: Register, im: Register, reLow: Register,
                        imLow: Register)
    requires |src| == |before| == |after| == 2 * n && |re| == |im| == |reLow| == |imLow| && off + 2 * half <= n
    requires StrideShape(n, half, start, step) && above == half + done && p == off + done && done + |re| <= half
    requires forall j :: 0 <= j < done ==> Delivered(src, before, n, off, half, start, step, j)
    requires forall i :: 0 <= i < |re| ==> Complex(re[i], im[i]) == Add(Elem(src, n, p + i), Elem(src, n, p + half + i))
    requires forall i ::
        0 <= i < |re| ==> Complex(reLow[i], imLow[i]) == Sub(Elem(src, n, p + i), Elem(src, n, p + half + i))
    requires forall i :: 0 <= i < |re| ==> StridePlaced(after, n, start, step, done, re, im, i)
    requires forall i :: 0 <= i < |re| ==> StridePlaced(after, n, start, step, above, reLow, imLow, i)
    requires OnlyStrided(before, after, n, half, start, step, done, done + |re|)
    ensures forall j :: 0 <= j < done + |re| ==> Delivered(src, after, n, off, half, start, step, j)
  {
    forall j | 0 <= j < done + |re|
      ensures Delivered(src, after, n, off, half, start, step, j)
    {
      if j < done {
        assert Delivered(src, before, n, off, half, start, step, j);
        NotAtStride(start, step, done, done + |re|, j);
        NotAtStride(start, step, half + done, half + done + |re|, j);
        NotAtStride(start, step, done, done + |re|, half + j);
        NotAtStride(start, step, half + done, half + done + |re|, half + j);
      } else {
        var i := j - done;
        assert StridePlaced(after, n, start, step, done, re, im, i);
        LowerPlaced(after, n, start, step, above, half + j, reLow, imLow, i);
        assert p + i == off + j && p + half + i == off + half + j;
      }
    }
  }

  lemma LowerPlaced(a: seq<real>, n: nat, start: nat, step: nat, lo: nat, f: nat, vre: Register, vim: Register, i: nat)
    requires |a| == 2 * n && i < |vre| == |vim| && StridePlaced(a, n, start, step, lo, vre, vim, i) && f == lo + i
    ensures Strided(start, step, f) < n && Elem(a, n, Strided(start, step, f)) == Complex(vre[i], vim[i])
  {}

  lemma OnlyStridedTwice(first: seq<real>, second: seq<real>, third: seq<real>, n: nat, half: nat, start: nat,
                         step: nat, mid: nat, hi: nat)
    requires mid <= hi
    requires OnlyStrided(first, second, n, half, start, step, 0, mid)
    requires OnlyStrided(second, third, n, half, start, step, mid, hi)
    ensures OnlyStrided(first, third, n, half, start, step, 0, hi)
  {
    forall k | 0 <= k < n
      ensures Elem(third, n, k) == Elem(first, n, k) ||
              AtStride(k, start, step, 0, hi) || AtStride(k, start, step, half, half + hi)
    {
      StrideWidens(k, start, step, 0, mid, 0, hi);
      StrideWidens(k, start, step, mid, hi, 0, hi);
      StrideWidens(k, start, step, half, half + mid, half, half + hi);
      StrideWidens(k, start, step, half + mid, half + hi, half, half + hi);
    }
  }

  lemma StrideWidens(k: nat, start: nat, step: nat, lo: nat, hi: nat, first: nat, last: nat)
    requires first <= lo && hi <= last
    ensures AtStride(k, start, step, lo, hi) ==> AtStride(k, start, step, first, last)
  {
    if f :| lo <= f < hi && k == Strided(start, step, f) {
      assert first <= f < last;
    }
  }
}
