/** `gen_store_idx` of software/tests/fft-32b/script/gen_data.py, and the 16-bit table made from its result. */
module StoreIndex {
  import opened Arithmetic
  import opened Powers
  import opened PhaseTwo
  import opened PhaseTwoKernel
  import opened PhaseTwoCore

  /** Where position `k` of half `h` of the old order goes in the new one. */
  function Target(places: seq<nat>, quarter: nat, h: nat, k: nat): nat
    requires k < |places|
  {
    places[k] + (if h == 1 then quarter else 0)
  }

  /** Position `k` of half `h` has been copied to its target. */
  predicate Copied(b: seq<int>, oldB: seq<int>, places: seq<nat>, quarter: nat, h: nat, k: nat)
    requires |oldB| == 2 * |places| && k < |places| && h < 2
  {
    var to := Target(places, quarter, h, k);
    to < |b| && b[to] == oldB[(if h == 1 then |places| else 0) + k]
  }

  lemma TargetsAreDistinct(places: seq<nat>, quarter: nat, h: nat, k: nat, g: nat, l: nat)
    requires Placement(places, quarter) && k < |places| && l < |places| && h < 2 && g < 2
    requires Target(places, quarter, h, k) == Target(places, quarter, g, l)
    ensures h == g && k == l
  {
    assert places[k] != places[l] + quarter && places[l] != places[k] + quarter;
  }

  /** The places of the pair of runs that starts at `lo`. */
  predicate RunPlaces(places: seq<nat>, stride: nat, lo: nat, base: nat, j: nat) {
    lo + stride + j < |places| && places[lo + j] == base + j && places[lo + stride + j] == |places| + base + j
  }

  /** Only the targets of the positions from `lo` up to `hi` have changed. */
  ghost predicate OnlyTargets(before: seq<int>, after: seq<int>, places: seq<nat>, quarter: nat, h: nat, lo: nat,
                              hi: nat)
    requires lo <= hi <= |places|
  {
    && |before| == |after|
    && forall q ::
        0 <= q < |after| ==> after[q] == before[q] || exists k :: lo <= k < hi && q == Target(places, quarter, h, k)
  }

  /** Only the targets of positions `k` and `l` have changed. */
  predicate OnlyPair(before: seq<int>, after: seq<int>, places: seq<nat>, quarter: nat, h: nat, k: nat, l: nat)
    requires k < |places| && l < |places|
  {
    && |before| == |after|
    && forall q ::
        0 <= q < |after| && q != Target(places, quarter, h, k) && q != Target(places, quarter, h, l) ==>
          after[q] == before[q]
  }

  /** Positions `k` and `l` of half `h` are copied. */
  method CopyPair(b: array<int>, oldB: seq<int>, from: nat, to: nat, stride: nat, nffth: nat, ghost places: seq<nat>,
                  ghost quarter: nat, ghost h: nat, ghost k: nat, ghost l: nat)
    requires h < 2 && |places| == nffth && |oldB| == b.Length == 2 * nffth && Placement(places, quarter)
    requires k < l < nffth
    requires from == (if h == 1 then nffth else 0) + k && l == k + stride
    requires to == Target(places, quarter, h, k) && to + nffth == Target(places, quarter, h, l)
    modifies b
    ensures Copied(b[..], oldB, places, quarter, h, k) && Copied(b[..], oldB, places, quarter, h, l)
    ensures OnlyPair(old(b[..]), b[..], places, quarter, h, k, l)
  {
    b[to] := oldB[from];
    b[to + nffth] := oldB[from + stride];
  }

  lemma CopiedKept(before: seq<int>, after: seq<int>, oldB: seq<int>, places: seq<nat>, quarter: nat, h: nat, k: nat,
                   l: nat, g: nat, m: nat)
    requires |oldB| == 2 * |places| && |before| == |after| && Placement(places, quarter) && h < 2 && g < 2
    requires k < |places| && l < |places| && m < |places| && (g != h || (m != k && m != l))
    requires Copied(before, oldB, places, quarter, g, m)
    requires OnlyPair(before, after, places, quarter, h, k, l)
    ensures Copied(after, oldB, places, quarter, g, m)
  {
    if Target(places, quarter, h, k) == Target(places, quarter, g, m) {
      TargetsAreDistinct(places, quarter, h, k, g, m);
    }
    if Target(places, quarter, h, l) == Target(places, quarter, g, m) {
      TargetsAreDistinct(places, quarter, h, l, g, m);
    }
  }

  /** The positions of two runs of which the first `j` elements have been copied. */
  predicate InRuns(k: nat, lo: nat, stride: nat, j: nat) {
    lo <= k < lo + j || lo + stride <= k < lo + stride + j
  }

  lemma PairExtends(before: seq<int>, after: seq<int>, oldB: seq<int>, places: seq<nat>, quarter: nat, h: nat, lo: nat,
                    stride: nat, j: nat)
    requires |oldB| == 2 * |places| && |before| == |after| && Placement(places, quarter) && h < 2
    requires j < stride && lo + 2 * stride <= |places|
    requires forall k :: InRuns(k, lo, stride, j) ==> Copied(before, oldB, places, quarter, h, k)
    requires Copied(after, oldB, places, quarter, h, lo + j) && Copied(after, oldB, places, quarter, h, lo + stride + j)
    requires OnlyPair(before, after, places, quarter, h, lo + j, lo + stride + j)
    ensures forall k :: InRuns(k, lo, stride, j + 1) ==> Copied(after, oldB, places, quarter, h, k)
  {
    forall k | InRuns(k, lo, stride, j + 1)
      ensures Copied(after, oldB, places, quarter, h, k)
    {
      if InRuns(k, lo, stride, j) {
        CopiedKept(before, after, oldB, places, quarter, h, lo + j, lo + stride + j, h, k);
      }
    }
  }

  lemma TargetsExtend(first: seq<int>, before: seq<int>, after: seq<int>, places: seq<nat>, quarter: nat, h: nat,
                      lo: nat, hi: nat, k: nat, l: nat)
    requires lo <= k < hi <= |places| && lo <= l < hi
    requires OnlyTargets(first, before, places, quarter, h, lo, hi)
    requires OnlyPair(before, after, places, quarter, h, k, l)
    ensures OnlyTargets(first, after, places, quarter, h, lo, hi)
  {}

  lemma HalfOffset(h: nat, nffth: nat, quarter: nat)
    requires h < 2
    ensures h * nffth == (if h == 1 then nffth else 0) && h * quarter == if h == 1 then quarter else 0
  {}

  /** Where one iteration reads and writes. */
  lemma RunOffsets(places: seq<nat>, quarter: nat, h: nat, stride: nat, i: nat, lo: nat, base: nat, j: nat)
    requires h < 2 && lo == 2 * i * stride && base == i * stride && quarter == |places| / 2
    requires RunPlaces(places, stride, lo, base, j)
    ensures h * |places| + j + 2 * i * stride == (if h == 1 then |places| else 0) + lo + j
    ensures h * (|places| / 2) + i * stride + j == Target(places, quarter, h, lo + j)
    ensures h * (|places| / 2) + i * stride + j + |places| == Target(places, quarter, h, lo + stride + j)
  {
    HalfOffset(h, |places|, quarter);
  }

  /** Two runs of a half are copied, one to the upper and one to the lower half of the buffer. */
  method CopyRuns(b: array<int>, oldB: seq<int>, nffth: nat, stride: nat, h: nat, i: nat, ghost places: seq<nat>,
                  ghost quarter: nat, ghost lo: nat, ghost base: nat)
    requires h < 2 && |places| == nffth && |oldB| == b.Length == 2 * nffth && Placement(places, quarter)
    requires lo == 2 * i * stride && base == i * stride && lo + 2 * stride <= nffth && quarter == nffth / 2
    requires forall j :: 0 <= j < stride ==> RunPlaces(places, stride, lo, base, j)
    modifies b
    ensures forall k :: lo <= k < lo + 2 * stride ==> Copied(b[..], oldB, places, quarter, h, k)
    ensures OnlyTargets(old(b[..]), b[..], places, quarter, h, lo, lo + 2 * stride)
  {
    for j := 0 to stride
      invariant forall k :: InRuns(k, lo, stride, j) ==> Copied(b[..], oldB, places, quarter, h, k)
      invariant OnlyTargets(old(b[..]), b[..], places, quarter, h, lo, lo + 2 * stride)
    {
      ghost var before := b[..];
      assert RunPlaces(places, stride, lo, base, j);
      var from, to := h * nffth + j + 2 * i * stride, h * (nffth / 2) + i * stride + j;
      RunOffsets(places, quarter, h, stride, i, lo, base, j);
      CopyPair(b, oldB, from, to, stride, nffth, places, quarter, h, lo + j, lo + stride + j);
      PairExtends(before, b[..], oldB, places, quarter, h, lo, stride, j);
      TargetsExtend(old(b[..]), before, b[..], places, quarter, h, lo, lo + 2 * stride, lo + j, lo + stride + j);
    }
    assert forall k :: lo <= k < lo + 2 * stride ==> InRuns(k, lo, stride, stride);
  }

  lemma CopiedKeptByRuns(before: seq<int>, after: seq<int>, oldB: seq<int>, places: seq<nat>, quarter: nat, h: nat,
                         lo: nat, hi: nat, g: nat, m: nat)
    requires |oldB| == 2 * |places| && Placement(places, quarter) && h < 2 && g < 2 && lo <= hi <= |places|
    requires m < |places|
    requires OnlyTargets(before, after, places, quarter, h, lo, hi) && Copied(before, oldB, places, quarter, g, m)
    requires g != h || !(lo <= m < hi)
    ensures Copied(after, oldB, places, quarter, g, m)
  {
    var q := Target(places, quarter, g, m);
    if k :| lo <= k < hi && q == Target(places, quarter, h, k) {
      TargetsAreDistinct(places, quarter, h, k, g, m);
      assert false;
    }
  }

  lemma PairPlaces(pairs: nat, stride: nat, i: nat, lo: nat, base: nat)
    requires stride > 0 && i < pairs && pairs * (2 * stride) >= 0 && lo == i * (2 * stride) && base == i * stride
    ensures lo + 2 * stride <= pairs * (2 * stride)
    ensures forall j :: 0 <= j < stride ==> RunPlaces(Places(pairs, stride), stride, lo, base, j)
  {
    SliceFits(i, pairs, 2 * stride);
    forall j | 0 <= j < stride
      ensures RunPlaces(Places(pairs, stride), stride, lo, base, j)
    {
      DestinationOf(i, false, j, stride, pairs * (2 * stride));
      DestinationOf(i, true, j, stride, pairs * (2 * stride));
    }
  }

  /** The positions of half `h` up to `hi` have been copied. */
  ghost predicate CopiedUpTo(b: seq<int>, oldB: seq<int>, places: seq<nat>, quarter: nat, h: nat, hi: nat)
    requires |oldB| == 2 * |places| && h < 2 && hi <= |places|
  {
    forall k :: 0 <= k < hi ==> Copied(b, oldB, places, quarter, h, k)
  }

  lemma RunsExtend(before: seq<int>, after: seq<int>, oldB: seq<int>, places: seq<nat>, quarter: nat, h: nat, lo: nat,
                   hi: nat)
    requires |oldB| == 2 * |places| && Placement(places, quarter) && h < 2 && lo <= hi <= |places|
    requires OnlyTargets(before, after, places, quarter, h, lo, hi) && CopiedUpTo(before, oldB, places, quarter, h, lo)
    requires forall k :: lo <= k < hi ==> Copied(after, oldB, places, quarter, h, k)
    ensures CopiedUpTo(after, oldB, places, quarter, h, hi)
    ensures h == 1 && CopiedUpTo(before, oldB, places, quarter, 0, |places|) ==>
      CopiedUpTo(after, oldB, places, quarter, 0, |places|)
  {
    forall k | 0 <= k < lo
      ensures Copied(after, oldB, places, quarter, h, k)
    {
      CopiedKeptByRuns(before, after, oldB, places, quarter, h, lo, hi, h, k);
    }
    if h == 1 && CopiedUpTo(before, oldB, places, quarter, 0, |places|) {
      forall k | 0 <= k < |places|
        ensures Copied(after, oldB, places, quarter, 0, k)
      {
        CopiedKeptByRuns(before, after, oldB, places, quarter, h, lo, hi, 0, k);
      }
    }
  }

  /** The nested loops of one stage: the old order is copied, shuffled, into `b`. */
  method CopyStage(b: array<int>, oldB: seq<int>, nffth: nat, stride: nat, ghost pairs: nat)
    requires stride > 0 && pairs > 0 && nffth == pairs * (2 * stride) && |oldB| == b.Length == 2 * nffth
    modifies b
    ensures CopiedUpTo(b[..], oldB, Places(pairs, stride), pairs * stride, 0, nffth)
    ensures CopiedUpTo(b[..], oldB, Places(pairs, stride), pairs * stride, 1, nffth)
  {
    ghost var places, quarter := Places(pairs, stride), pairs * stride;
    PlacesAreDistinct(pairs, stride);
    HalfIsTwoQuarters(pairs, stride);
    MultipleMod(pairs, 2 * stride);
    for h := 0 to 2
      invariant h >= 1 ==> CopiedUpTo(b[..], oldB, places, quarter, 0, nffth)
      invariant h == 2 ==> CopiedUpTo(b[..], oldB, places, quarter, 1, nffth)
    {
      ghost var lo := 0;
      for i := 0 to nffth / (2 * stride)
        invariant lo == i * (2 * stride) <= nffth
        invariant h == 1 ==> CopiedUpTo(b[..], oldB, places, quarter, 0, nffth)
        invariant CopiedUpTo(b[..], oldB, places, quarter, h, lo)
      {
        PairPlaces(pairs, stride, i, lo, i * stride);
        ghost var before := b[..];
        CopyRuns(b, oldB, nffth, stride, h, i, places, quarter, lo, i * stride);
        RunsExtend(before, b[..], oldB, places, quarter, h, lo, lo + 2 * stride);
        Distribute(i, 1, 2 * stride);
        lo := lo + 2 * stride;
      }
    }
  }

  // ----- The inverse of the order -----

  /** `d` is the first position of `v` in `b`. */
  ghost predicate FirstIndex(b: seq<int>, v: int, d: nat) {
    d < |b| && b[d] == v && forall e :: 0 <= e < d ==> b[e] != v
  }

  /** Python's `index`. */
  method Index(b: seq<int>, v: int) returns (d: nat)
    requires v in b
    ensures FirstIndex(b, v, d)
  {
    d := 0;
    while b[d] != v
      invariant d < |b| && forall e :: 0 <= e < d ==> b[e] != v
      decreases |b| - d
    {
      d := d + 1;
    }
  }

  method Deltas(b: seq<int>, oldB: seq<int>) returns (delta: seq<nat>)
    requires forall n :: 0 <= n < |oldB| ==> oldB[n] in b
    ensures |delta| == |oldB| && forall n :: 0 <= n < |oldB| ==> FirstIndex(b, oldB[n], delta[n])
  {
    delta := [];
    for n := 0 to |oldB|
      invariant |delta| == n && forall k :: 0 <= k < n ==> FirstIndex(b, oldB[k], delta[k])
    {
      var d := Index(b, oldB[n]);
      delta := delta + [d];
    }
  }

  ghost predicate Distinct(s: seq<int>) {
    forall i, j :: 0 <= i < j < |s| ==> s[i] != s[j]
  }

  /** A position of the old order as a half and a position in it. */
  function OldPosition(half: nat, h: nat, k: nat): nat {
    (if h == 1 then half else 0) + k
  }

  /** `delta` gives for every position of the old order the place to which the shuffle sends it. */
  ghost predicate StageDelta(delta: seq<nat>, places: seq<nat>, quarter: nat) {
    |delta| == 2 * |places| && forall h, k :: 0 <= h < 2 && 0 <= k < |places| ==> DeltaAt(delta, places, quarter, h, k)
  }

  predicate DeltaAt(delta: seq<nat>, places: seq<nat>, quarter: nat, h: nat, k: nat)
    requires k < |places|
  {
    OldPosition(|places|, h, k) < |delta| && delta[OldPosition(|places|, h, k)] == Target(places, quarter, h, k)
  }

  /** Everything has been copied. */
  ghost predicate Shuffled(b: seq<int>, oldB: seq<int>, places: seq<nat>, quarter: nat) {
    && |b| == |oldB| == 2 * |places|
    && CopiedUpTo(b, oldB, places, quarter, 0, |places|) && CopiedUpTo(b, oldB, places, quarter, 1, |places|)
  }

  /** What comes to position `q`. */
  lemma SourceOf(b: seq<int>, oldB: seq<int>, pairs: nat, stride: nat, q: nat) returns (h: nat, k: nat)
    requires stride > 0 && pairs > 0 && pairs * (2 * stride) >= 0 && pairs * stride >= 0
    requires Shuffled(b, oldB, Places(pairs, stride), pairs * stride) && q < |b|
    ensures h < 2 && k < |Places(pairs, stride)| && Target(Places(pairs, stride), pairs * stride, h, k) == q
    ensures OldPosition(|Places(pairs, stride)|, h, k) < |oldB|
    ensures b[q] == oldB[OldPosition(|Places(pairs, stride)|, h, k)]
  {
    var half, quarter := pairs * (2 * stride), pairs * stride;
    SlotsAreFilled(pairs, stride, q);
    h, k := WingAt(q, half, quarter), ButterflyOf(q, stride, half, quarter);
    assert Copied(b, oldB, Places(pairs, stride), quarter, h, k);
  }

  /** The shuffled order has no repetitions either, ... */
  lemma ShuffledIsDistinct(b: seq<int>, oldB: seq<int>, pairs: nat, stride: nat)
    requires stride > 0 && pairs > 0 && pairs * (2 * stride) >= 0 && pairs * stride >= 0
    requires Shuffled(b, oldB, Places(pairs, stride), pairs * stride) && Distinct(oldB)
    ensures Distinct(b)
  {
    forall p, q | 0 <= p < q < |b|
      ensures b[p] != b[q]
    {
      var h, k := SourceOf(b, oldB, pairs, stride, p);
      var g, l := SourceOf(b, oldB, pairs, stride, q);
      DistinctValues(oldB, OldPosition(|Places(pairs, stride)|, h, k), OldPosition(|Places(pairs, stride)|, g, l));
    }
  }

  lemma DistinctValues(s: seq<int>, i: nat, j: nat)
    requires Distinct(s) && i < |s| && j < |s|
    ensures s[i] == s[j] <==> i == j
  {}

  lemma OldIsInNew(b: seq<int>, oldB: seq<int>, places: seq<nat>, quarter: nat, n: nat)
    requires Shuffled(b, oldB, places, quarter) && n < |oldB|
    ensures oldB[n] in b
  {
    var h, k := (if n < |places| then 0 else 1), (if n < |places| then n else n - |places|);
    assert Copied(b, oldB, places, quarter, h, k);
  }

  /** ... so that each value of the old order is found where the shuffle sent it. */
  lemma FoundAtTarget(b: seq<int>, oldB: seq<int>, pairs: nat, stride: nat, h: nat, k: nat, d: nat)
    requires stride > 0 && pairs > 0 && pairs * (2 * stride) >= 0 && pairs * stride >= 0
    requires Shuffled(b, oldB, Places(pairs, stride), pairs * stride) && Distinct(oldB)
    requires h < 2 && k < |Places(pairs, stride)| && OldPosition(|Places(pairs, stride)|, h, k) < |oldB|
    requires FirstIndex(b, oldB[OldPosition(|Places(pairs, stride)|, h, k)], d)
    ensures d == Target(Places(pairs, stride), pairs * stride, h, k)
  {
    var g, l := SourceOf(b, oldB, pairs, stride, d);
    DistinctValues(oldB, OldPosition(|Places(pairs, stride)|, h, k), OldPosition(|Places(pairs, stride)|, g, l));
  }

  lemma DeltaIsTarget(b: seq<int>, oldB: seq<int>, delta: seq<nat>, pairs: nat, stride: nat)
    requires stride > 0 && pairs > 0 && pairs * (2 * stride) >= 0 && pairs * stride >= 0
    requires Shuffled(b, oldB, Places(pairs, stride), pairs * stride) && Distinct(oldB)
    requires |delta| == |oldB| && forall n :: 0 <= n < |oldB| ==> FirstIndex(b, oldB[n], delta[n])
    ensures StageDelta(delta, Places(pairs, stride), pairs * stride)
  {
    var places, quarter := Places(pairs, stride), pairs * stride;
    forall h, k | 0 <= h < 2 && 0 <= k < |places|
      ensures DeltaAt(delta, places, quarter, h, k)
    {
      var n := OldPosition(|places|, h, k);
      assert FirstIndex(b, oldB[n], delta[n]);
      FoundAtTarget(b, oldB, pairs, stride, h, k, delta[n]);
    }
  }

  /** One stage of `gen_store_idx`: the new order, and where each position of the old one has gone. */
  method StoreStage(oldB: seq<int>, nffth: nat, stride: nat, ghost pairs: nat) returns (newB: seq<int>, delta: seq<nat>)
    requires stride > 0 && pairs > 0 && pairs * stride >= 0 && nffth == pairs * (2 * stride) && |oldB| == 2 * nffth
    requires Distinct(oldB)
    ensures |newB| == |oldB| && Distinct(newB) && StageDelta(delta, Places(pairs, stride), pairs * stride)
  {
    var b := new int[|oldB|](n => 0);
    CopyStage(b, oldB, nffth, stride, pairs);
    newB := b[..];
    forall n | 0 <= n < |oldB|
      ensures oldB[n] in newB
    {
      OldIsInNew(newB, oldB, Places(pairs, stride), pairs * stride, n);
    }
    delta := Deltas(newB, oldB);
    ShuffledIsDistinct(newB, oldB, pairs, stride);
    DeltaIsTarget(newB, oldB, delta, pairs, stride);
  }

  /** The shuffle of stage `s` for 2^log2 points. */
  ghost predicate DeltaOfStage(dbuf: seq<seq<nat>>, log2: nat, s: nat)
    requires s + 2 <= log2
  {
    && s < |dbuf| && Pow2(s) * (2 * Pow2(log2 - 2 - s)) == Pow2(log2 - 1) && Pow2(s) * Pow2(log2 - 2 - s) >= 0
    && StageDelta(dbuf[s], Places(Pow2(s), Pow2(log2 - 2 - s)), Pow2(s) * Pow2(log2 - 2 - s))
  }

  /** `gen_store_idx`: the second of its two results, with one list for each stage but the last. */
  method GenStoreIdx(nfft: nat, log2: nat) returns (dbuf: seq<seq<nat>>)
    requires log2 > 0 && nfft == Pow2(log2)
    ensures |dbuf| == log2 - 1 && forall s :: 0 <= s && s + 2 <= log2 ==> DeltaOfStage(dbuf, log2, s)
  {
    var oldB := seq(nfft, n requires 0 <= n < nfft => n);
    var nffth := Shr(nfft, 1);
    ShiftPow2(log2, 1);
    dbuf := [];
    for bf := 0 to log2 - 1
      invariant |dbuf| == bf && |oldB| == nfft && Distinct(oldB)
      invariant forall s :: 0 <= s < bf ==> DeltaOfStage(dbuf, log2, s)
    {
      var stride := Shr(nffth, bf + 1);
      ShiftPow2(log2 - 1, bf + 1);
      StageHasShape(log2, bf);
      var newB, delta := StoreStage(oldB, nffth, stride, Pow2(bf));
      DeltasExtend(dbuf, delta, log2, bf);
      dbuf := dbuf + [delta];
      oldB := newB;
    }
  }

  lemma DeltasExtend(dbuf: seq<seq<nat>>, delta: seq<nat>, log2: nat, bf: nat)
    requires |dbuf| == bf && bf + 2 <= log2 && forall s :: 0 <= s < bf ==> DeltaOfStage(dbuf, log2, s)
    requires Pow2(bf) * (2 * Pow2(log2 - 2 - bf)) == Pow2(log2 - 1) && Pow2(bf) * Pow2(log2 - 2 - bf) >= 0
    requires StageDelta(delta, Places(Pow2(bf), Pow2(log2 - 2 - bf)), Pow2(bf) * Pow2(log2 - 2 - bf))
    ensures forall s :: 0 <= s <= bf ==> DeltaOfStage(dbuf + [delta], log2, s)
  {
    forall s | 0 <= s <= bf
      ensures DeltaOfStage(dbuf + [delta], log2, s)
    {
      if s < bf {
        assert DeltaOfStage(dbuf, log2, s);
      }
    }
  }

  // ----- The table of the program: 16-bit byte offsets -----

  /** Conversion to a 16-bit unsigned integer. */
  function U16(x: nat): nat {
    x % 0x1_0000
  }

  /** Entry `j` of stage `s` of the table. */
  predicate TableAt(table: seq<nat>, half: nat, places: seq<nat>, s: nat, j: nat)
    requires j < |places|
  {
    0 <= s * half && s * half + j < |table| && table[s * half + j] == U16(4 * places[j])
  }

  ghost predicate TableOfStage(table: seq<nat>, log2: nat, s: nat)
    requires s + 2 <= log2
  {
    && Pow2(s) * (2 * Pow2(log2 - 2 - s)) == Pow2(log2 - 1)
    && TableHolds(table, Places(Pow2(s), Pow2(log2 - 2 - s)), s)
  }

  ghost predicate TableHolds(table: seq<nat>, places: seq<nat>, s: nat) {
    forall j :: 0 <= j < |places| ==> TableAt(table, |places|, places, s, j)
  }

  /** The halves of the stages' lists, in bytes, one after the other. */
  method StoreTable(dbuf: seq<seq<nat>>, log2: nat) returns (table: seq<nat>)
    requires log2 > 0 && |dbuf| == log2 - 1 && forall s :: 0 <= s && s + 2 <= log2 ==> DeltaOfStage(dbuf, log2, s)
    ensures |table| == (log2 - 1) * Pow2(log2 - 1)
    ensures forall s :: 0 <= s && s + 2 <= log2 ==> TableOfStage(table, log2, s)
  {
    table := [];
    var half := Pow2(log2 - 1);
    for s := 0 to |dbuf|
      invariant |table| == s * half && forall r :: 0 <= r < s ==> TableOfStage(table, log2, r)
    {
      assert DeltaOfStage(dbuf, log2, s);
      ghost var places := Places(Pow2(s), Pow2(log2 - 2 - s));
      assert |places| == half;
      var segment := seq(half, j requires 0 <= j < half => U16(4 * dbuf[s][j]));
      SegmentAppended(table, segment, dbuf[s], log2, s, places, Pow2(s) * Pow2(log2 - 2 - s));
      Distribute(s, 1, half);
      table := table + segment;
    }
  }

  lemma SegmentAppended(table: seq<nat>, segment: seq<nat>, delta: seq<nat>, log2: nat, s: nat, places: seq<nat>,
                        quarter: nat)
    requires s + 2 <= log2 && |table| == s * Pow2(log2 - 1) && forall r :: 0 <= r < s ==> TableOfStage(table, log2, r)
    requires Pow2(s) * (2 * Pow2(log2 - 2 - s)) == Pow2(log2 - 1) && places == Places(Pow2(s), Pow2(log2 - 2 - s))
    requires StageDelta(delta, places, quarter)
    requires |segment| == Pow2(log2 - 1) && forall j :: 0 <= j < |segment| ==> segment[j] == U16(4 * delta[j])
    ensures forall r :: 0 <= r <= s ==> TableOfStage(table + segment, log2, r)
  {
    forall r | 0 <= r < s
      ensures TableOfStage(table + segment, log2, r)
    {
      assert TableOfStage(table, log2, r);
      TableKept(table, segment, Places(Pow2(r), Pow2(log2 - 2 - r)), r);
    }
    forall j | 0 <= j < |places|
      ensures TableAt(table + segment, |places|, places, s, j)
    {
      assert DeltaAt(delta, places, quarter, 0, j);
    }
  }

  lemma TableKept(table: seq<nat>, segment: seq<nat>, places: seq<nat>, s: nat)
    requires TableHolds(table, places, s)
    ensures TableHolds(table + segment, places, s)
  {
    forall j | 0 <= j < |places|
      ensures TableAt(table + segment, |places|, places, s, j)
    {
      assert TableAt(table, |places|, places, s, j);
    }
  }

  // ----- When 16 bits are enough -----

  /** The stores of a stage reach every position of the buffer, with the offsets that the table holds. */
  ghost predicate ReachesAll(pairs: nat, stride: nat)
    requires stride > 0 && pairs * (2 * stride) >= 0 && pairs * stride >= 0
  {
    forall q :: 0 <= q < 2 * (pairs * (2 * stride)) ==> Reached(Places(pairs, stride), pairs * stride, q)
  }

  ghost predicate Reached(places: seq<nat>, quarter: nat, q: nat) {
    exists j, wing :: 0 <= j < |places| && 0 <= wing < 2 && StoredAt(places, quarter, j, wing) == q
  }

  /** Where a result is really stored. */
  function StoredAt(places: seq<nat>, quarter: nat, j: nat, wing: nat): nat
    requires j < |places|
  {
    U16(4 * places[j]) / 4 + (if wing == 1 then quarter else 0)
  }

  lemma SmallOffset(x: nat)
    requires 4 * x < 0x1_0000
    ensures U16(4 * x) == 4 * x
  {}

  lemma {:induction false} SmallPower(log2: nat)
    ensures Pow2(14) == 0x4000 && Pow2(15) == 0x8000
    ensures if log2 <= 14 then Pow2(log2) <= 0x4000 else Pow2(log2) >= 0x8000
    decreases log2
  {
    assert Pow2(3) == 8 && Pow2(6) == 64 && Pow2(9) == 512 && Pow2(12) == 4096;
    if log2 > 15 {
      SmallPower(log2 - 1);
    } else if log2 < 14 {
      SmallerPower(log2, 14);
    }
  }

  lemma {:induction false} SmallerPower(a: nat, b: nat)
    requires a <= b
    ensures Pow2(a) <= Pow2(b)
  {
    if a < b {
      SmallerPower(a, b - 1);
    }
  }

  ghost predicate OffsetsFit(places: seq<nat>) {
    forall j :: 0 <= j < |places| ==> U16(4 * places[j]) == 4 * places[j]
  }

  lemma EnoughBits(log2: nat, s: nat)
    requires s + 2 <= log2 <= 14
    ensures StageShape(Pow2(s), Pow2(log2 - 2 - s), Pow2(log2 - 1), Pow2(log2 - 2))
    ensures OffsetsFit(Places(Pow2(s), Pow2(log2 - 2 - s)))
  {
    StageHasShape(log2, s);
    SmallPower(log2);
    var places := Places(Pow2(s), Pow2(log2 - 2 - s));
    PlacesAreDistinct(Pow2(s), Pow2(log2 - 2 - s));
    forall j | 0 <= j < Pow2(log2 - 1)
      ensures U16(4 * places[j]) == 4 * places[j]
    {
      assert places[j] + Pow2(log2 - 2) < Pow2(log2);
      SmallOffset(places[j]);
    }
  }

  lemma EnoughBitsReach(log2: nat, s: nat)
    requires s + 2 <= log2 <= 14
    ensures StageShape(Pow2(s), Pow2(log2 - 2 - s), Pow2(log2 - 1), Pow2(log2 - 2))
    ensures ReachesAll(Pow2(s), Pow2(log2 - 2 - s))
  {
    EnoughBits(log2, s);
    var pairs, stride := Pow2(s), Pow2(log2 - 2 - s);
    var half, quarter, places := Pow2(log2 - 1), Pow2(log2 - 2), Places(pairs, stride);
    forall q | 0 <= q < 2 * half
      ensures Reached(places, quarter, q)
    {
      SlotsAreFilled(pairs, stride, q);
      var j, wing := ButterflyOf(q, stride, half, quarter), WingAt(q, half, quarter);
      assert U16(4 * places[j]) == 4 * places[j];
      assert StoredAt(places, quarter, j, wing) == q;
    }
  }

  lemma TooFewBits(log2: nat, s: nat)
    requires s + 2 <= log2 && 14 < log2
    ensures StageShape(Pow2(s), Pow2(log2 - 2 - s), Pow2(log2 - 1), Pow2(log2 - 2))
    ensures !ReachesAll(Pow2(s), Pow2(log2 - 2 - s))
  {
    StageHasShape(log2, s);
    SmallPower(log2);
    var quarter, places := Pow2(log2 - 2), Places(Pow2(s), Pow2(log2 - 2 - s));
    var q := Pow2(log2) - 1;
    forall j, wing | 0 <= j < |places| && 0 <= wing < 2
      ensures StoredAt(places, quarter, j, wing) < q
    {
      FarthestStore(places[j], quarter, Pow2(log2));
    }
    assert !Reached(places, quarter, q);
  }

  lemma FarthestStore(place: nat, quarter: nat, n: nat)
    requires n == 4 * quarter && n >= 0x8000
    ensures U16(4 * place) / 4 + quarter < n - 1
  {}

  /**
    Each stage's stores reach the whole buffer, and thus the last stage finds all results, if and only if a core
    has at most 2^14 points: beyond that the byte offsets do not fit in the table's 16-bit entries.
    */
  lemma SixteenBitsSuffice(log2: nat, s: nat)
    requires s + 2 <= log2
    ensures StageShape(Pow2(s), Pow2(log2 - 2 - s), Pow2(log2 - 1), Pow2(log2 - 2))
    ensures ReachesAll(Pow2(s), Pow2(log2 - 2 - s)) <==> log2 <= 14
  {
    if log2 <= 14 {
      EnoughBitsReach(log2, s);
    } else {
      TooFewBits(log2, s);
    }
  }

  /** With at most 2^14 points the table serves the kernel. */
  lemma TableServes(table: seq<nat>, log2: nat, s: nat)
    requires s + 2 <= log2 <= 14 && TableOfStage(table, log2, s)
    ensures s * Pow2(log2 - 1) >= 0 && Pow2(s) * (2 * Pow2(log2 - 2 - s)) == Pow2(log2 - 1)
    ensures |table| == (log2 - 1) * Pow2(log2 - 1) ==>
      Indices(table, s * Pow2(log2 - 1), Places(Pow2(s), Pow2(log2 - 2 - s)))
  {
    EnoughBits(log2, s);
    var half, places := Pow2(log2 - 1), Places(Pow2(s), Pow2(log2 - 2 - s));
    ScaleOrder(s + 1, log2 - 1, half);
    Distribute(s, 1, half);
    ScaleOrder(0, s, half);
    forall j | 0 <= j < half
      ensures s * half + j < |table| && IndexIs(table, s * half, places, j)
    {
      assert TableAt(table, half, places, s, j);
    }
  }
}
