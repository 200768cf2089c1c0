/**
  The static schedule without a chunk size in unsigned 64-bit arithmetic: the `kmp_sch_static` branch of
  `__kmpc_for_static_init_8u` in software/snRuntime/src/omp/kmp.c.  Bounds wrap at 2^64, and the caller clips a
  range to the loop's upper bound.
  */
module StaticSchedule64 {
  import opened Arithmetic
  import opened Loops
  import opened ShiftedSchedule

  /** The number of iterations as the code computes it; a negative increment is converted, too. */
  function Size64(lower: int, upper: int, incr: int): int
    requires U64(incr) != 0
  {
    U64(U64(upper - lower) / U64(incr) + 1)
  }

  function Static64Lower(lower: int, upper: int, incr: int, n: nat, t: nat): int
    requires U64(incr) != 0 && n > 0
  {
    var size := Size64(lower, upper, incr);
    U64(lower + t * Share(size, n, t) * incr + (if t < LeftOver(size, n) then 0 else LeftOver(size, n)))
  }

  function Static64Upper(lower: int, upper: int, incr: int, n: nat, t: nat): int
    requires U64(incr) != 0 && n > 0
  {
    U64(Static64Lower(lower, upper, incr, n, t) + Share(Size64(lower, upper, incr), n, t) * incr - incr)
  }

  function Static64Last(lower: int, upper: int, incr: int, n: nat, t: nat): bool
    requires U64(incr) != 0 && n > 0
  {
    Static64Upper(lower, upper, incr, n, t) == upper && Static64Lower(lower, upper, incr, n, t) <= upper
  }

  /** Thread `t` executes `x` in its range, clipped to the loop's bound. */
  predicate Static64Runs(lower: int, upper: int, incr: int, n: nat, t: nat, x: int)
    requires incr != 0 && U64(incr) != 0 && n > 0
  {
    var lo, up := Static64Lower(lower, upper, incr, n, t), Static64Upper(lower, upper, incr, n, t);
    Runs(lo, Clip(up, upper, incr), incr, x)
  }

  /** A non-empty loop with a positive increment. */
  predicate Upwards(lower: int, upper: int, incr: int) {
    0 < incr < TWO_64 / 2 && 0 <= lower <= upper < TWO_64
  }

  /** The one loop whose size is 2^64, for which the code computes 0. */
  predicate RunsEveryValue(lower: int, upper: int, incr: int) {
    lower == 0 && upper == TWO_64 - 1 && incr == 1
  }

  predicate Sized(lower: int, upper: int, incr: int) {
    Upwards(lower, upper, incr) && !RunsEveryValue(lower, upper, incr)
  }

  /** Every iteration is executed by exactly one thread and nothing else is executed. */
  ghost predicate Static64Exact(lower: int, upper: int, incr: int, n: nat)
    requires incr != 0 && U64(incr) != 0 && n > 0
  {
    && (forall x, t :: 0 <= t < n && Static64Runs(lower, upper, incr, n, t, x) ==> IsIteration(lower, upper, incr, x))
    && (forall x ::
        IsIteration(lower, upper, incr, x) ==> exists t :: 0 <= t < n && Static64Runs(lower, upper, incr, n, t, x))
    && (forall x, t, u | 0 <= t < n && 0 <= u < n ::
          Static64Runs(lower, upper, incr, n, t, x) && Static64Runs(lower, upper, incr, n, u, x) ==> t == u)
  }

  /** The range of a thread without a share starts `size` values after the lower bound; whether it stays empty. */
  predicate EmptyStaysEmpty(lower: int, upper: int, incr: int, size: int) {
    lower + size < TWO_64 && (lower + size >= incr || lower + size > upper)
  }

  /** The condition under which neither the unscaled leftover nor the wrap does harm. */
  predicate Harmless64(lower: int, upper: int, incr: int, n: nat)
    requires incr > 0 && n > 0
  {
    var size := Size(lower, upper, incr);
    if RunsEveryValue(lower, upper, incr) then n == 1
    else if size < n then EmptyStaysEmpty(lower, upper, incr, size)
    else incr == 1 || LeftOver(size, n) == 0
  }

  lemma SmallerSize(extent: int, incr: int)
    requires extent >= 0 && incr > 1
    ensures extent / incr <= extent / 2 < TWO_64 || extent >= TWO_64
  {
    DivBounds(extent, incr);
    QuotientNat(extent, incr);
    ScaleOrder(2, incr, extent / incr + 1);
    ScaledAtLeast(extent / incr, 2);
    assert 2 * (extent / incr) <= (extent / incr) * incr by {
      Distribute(2, incr - 2, extent / incr);
      ProductNat(incr - 2, extent / incr);
    }
  }

  lemma SizeFits(lower: int, upper: int, incr: int)
    requires Sized(lower, upper, incr)
    ensures U64(incr) == incr && Size64(lower, upper, incr) == Size(lower, upper, incr) < TWO_64
    ensures 0 < Size(lower, upper, incr) <= upper - lower + 1
  {
    Fits64(incr);
    Fits64(upper - lower);
    SizeBounds(lower, upper, incr);
    if incr > 1 {
      SmallerSize(upper - lower, incr);
    }
    Fits64(Size(lower, upper, incr));
  }

  // ----- Threads with a share -----

  /** For a thread with a share nothing wraps and nothing is clipped. */
  lemma ShareRuns(lower: int, upper: int, incr: int, n: nat, t: nat, x: int)
    requires Sized(lower, upper, incr) && n > 0 && t < n && Share(Size(lower, upper, incr), n, t) >= 1
    ensures U64(incr) != 0
    ensures Static64Runs(lower, upper, incr, n, t, x)
         == ShiftedRuns(lower, upper, incr, LeftOver(Size(lower, upper, incr), n), n, t, x)
  {
    var size := Size(lower, upper, incr);
    var lo := ShiftedLower(lower, upper, incr, LeftOver(size, n), n, t);
    SizeFits(lower, upper, incr);
    ShareWithin(lower, upper, incr, n, t);
    Fits64(lo);
    Fits64(lo + Share(size, n, t) * incr - incr);
  }

  // ----- Threads without a share -----

  /** The range of a thread without a share. */
  lemma EmptyRange(lower: int, upper: int, incr: int, n: nat, t: nat)
    requires Sized(lower, upper, incr) && n > 0 && Size(lower, upper, incr) <= t < n
    ensures var size := Size(lower, upper, incr);
            && U64(incr) != 0 && Static64Lower(lower, upper, incr, n, t) == U64(lower + size)
            && Static64Upper(lower, upper, incr, n, t) == U64(U64(lower + size) - incr)
  {
    SizeFits(lower, upper, incr);
    NoShare(Size(lower, upper, incr), n, t);
  }

  lemma EmptyRunsNothing(lower: int, upper: int, incr: int, n: nat, t: nat, x: int)
    requires Sized(lower, upper, incr) && n > 0 && Size(lower, upper, incr) <= t < n
    requires EmptyStaysEmpty(lower, upper, incr, Size(lower, upper, incr))
    ensures U64(incr) != 0 && !Static64Runs(lower, upper, incr, n, t, x)
    ensures !ShiftedRuns(lower, upper, incr, LeftOver(Size(lower, upper, incr), n), n, t, x)
  {
    var lo := lower + Size(lower, upper, incr);
    EmptyRange(lower, upper, incr, n, t);
    SizeFits(lower, upper, incr);
    NoShare(Size(lower, upper, incr), n, t);
    Fits64(lo);
    Fits64(lo - incr);
  }

  /** If the range does not stay empty, its first value is run and is no iteration. */
  lemma EmptyRunsStray(lower: int, upper: int, incr: int, n: nat, t: nat) returns (x: int)
    requires Sized(lower, upper, incr) && n > 0 && Size(lower, upper, incr) == t < n
    requires !EmptyStaysEmpty(lower, upper, incr, Size(lower, upper, incr))
    ensures U64(incr) != 0 && Static64Runs(lower, upper, incr, n, t, x) && !IsIteration(lower, upper, incr, x)
  {
    var size := Size(lower, upper, incr);
    var lo := lower + size;
    EmptyRange(lower, upper, incr, n, t);
    SizeFits(lower, upper, incr);
    Fits64(lo);
    Fits64(U64(lo) - incr);
    x := U64(lo);
    MultipleMod(0, incr);
    if lo < TWO_64 {
      DivUnique(size, incr, 0);
      DivBounds(size, incr);
    }
  }

  // ----- The condition -----

  lemma SameRuns(lower: int, upper: int, incr: int, n: nat, t: nat, x: int)
    requires Sized(lower, upper, incr) && n > 0 && t < n
    requires Size(lower, upper, incr) >= n || EmptyStaysEmpty(lower, upper, incr, Size(lower, upper, incr))
    ensures U64(incr) != 0
    ensures Static64Runs(lower, upper, incr, n, t, x)
         == ShiftedRuns(lower, upper, incr, LeftOver(Size(lower, upper, incr), n), n, t, x)
  {
    SizeFits(lower, upper, incr);
    NoShare(Size(lower, upper, incr), n, t);
    if Share(Size(lower, upper, incr), n, t) >= 1 {
      ShareRuns(lower, upper, incr, n, t, x);
    } else {
      EmptyRunsNothing(lower, upper, incr, n, t, x);
    }
  }

  lemma SameExact(lower: int, upper: int, incr: int, n: nat)
    requires Sized(lower, upper, incr) && n > 0
    requires Size(lower, upper, incr) >= n || EmptyStaysEmpty(lower, upper, incr, Size(lower, upper, incr))
    ensures U64(incr) != 0
    ensures Static64Exact(lower, upper, incr, n)
       <==> ShiftedExact(lower, upper, incr, LeftOver(Size(lower, upper, incr), n), n)
  {
    SizeFits(lower, upper, incr);
    forall x, t | 0 <= t < n
      ensures Static64Runs(lower, upper, incr, n, t, x)
           == ShiftedRuns(lower, upper, incr, LeftOver(Size(lower, upper, incr), n), n, t, x)
    {
      SameRuns(lower, upper, incr, n, t, x);
    }
  }

  // ----- The loop whose size wraps -----

  /** Every thread gets the whole loop, and its last flag. */
  lemma EveryValueRange(lower: int, upper: int, incr: int, n: nat, t: nat)
    requires RunsEveryValue(lower, upper, incr) && n > 0
    ensures U64(incr) != 0
    ensures Static64Lower(lower, upper, incr, n, t) == lower && Static64Upper(lower, upper, incr, n, t) == upper
    ensures Static64Last(lower, upper, incr, n, t)
  {
    Fits64(incr);
    Fits64(upper);
    DivUnique(upper, incr, upper);
    Fits64(upper + 1);
    DivUnique(0, n, 0);
    Fits64(lower);
    Fits64(lower - incr);
  }

  lemma EveryValueExactIff(lower: int, upper: int, incr: int, n: nat)
    requires RunsEveryValue(lower, upper, incr) && n > 0
    ensures U64(incr) != 0 && (Static64Exact(lower, upper, incr, n) <==> n == 1)
  {
    forall x, t | 0 <= t < n
      ensures U64(incr) != 0 && Static64Runs(lower, upper, incr, n, t, x) == IsIteration(lower, upper, incr, x)
    {
      EveryValueRange(lower, upper, incr, n, t);
    }
    EveryValueRange(lower, upper, incr, n, 0);
    assert IsIteration(lower, upper, incr, 0);
    if n == 1 {
      forall x | IsIteration(lower, upper, incr, x)
        ensures exists t :: 0 <= t < n && Static64Runs(lower, upper, incr, n, t, x)
      {
        assert Static64Runs(lower, upper, incr, n, 0, x);
      }
    } else {
      assert Static64Runs(lower, upper, incr, n, 0, 0) && Static64Runs(lower, upper, incr, n, 1, 0);
    }
  }

  // ----- Main result -----

  /**
    The unsigned static schedule hands out every iteration exactly once if and only if the unscaled leftover does
    no harm, as in the signed version, with fewer iterations than threads the empty ranges stay empty, and a loop
    over all values has a single thread.
    */
  lemma Static64ExactlyOnce(lower: int, upper: int, incr: int, n: nat)
    requires Upwards(lower, upper, incr) && n > 0
    ensures U64(incr) != 0 && (Static64Exact(lower, upper, incr, n) <==> Harmless64(lower, upper, incr, n))
  {
    if RunsEveryValue(lower, upper, incr) {
      EveryValueExactIff(lower, upper, incr, n);
    } else {
      SizedExactIff(lower, upper, incr, n);
    }
  }

  lemma SizedExactIff(lower: int, upper: int, incr: int, n: nat)
    requires Sized(lower, upper, incr) && n > 0
    ensures U64(incr) != 0 && (Static64Exact(lower, upper, incr, n) <==> Harmless64(lower, upper, incr, n))
  {
    var size := Size(lower, upper, incr);
    SizeFits(lower, upper, incr);
    if size >= n || EmptyStaysEmpty(lower, upper, incr, size) {
      SameExact(lower, upper, incr, n);
      ShiftedExactIff(lower, upper, incr, LeftOver(size, n), n);
      ScaledEquals(LeftOver(size, n), incr);
    } else {
      var x := EmptyRunsStray(lower, upper, incr, n, size);
    }
  }

  /** Two iterations, 0 and 5, on four threads: the third thread, which has no share, runs 2. */
  lemma Static64Counterexample(incr: int, n: nat)
    requires incr == 5 && n == 4
    ensures U64(incr) != 0 && Static64Runs(0, 5, incr, n, 2, 2) && !IsIteration(0, 5, incr, 2)
  {
    DivUnique(5, incr, 1);
    EmptyRange(0, 5, incr, n, 2);
    Fits64(2);
    Fits64(2 - incr);
    MultipleMod(0, incr);
    DivUnique(2, incr, 0);
    DivBounds(2, incr);
  }

  // ----- Unit increment: sizes, contiguity and the last flag -----

  lemma UnitStart(t: nat, base: int, left: int, share: int, incr: int)
    requires incr == 1 && share == base + (if t < left then 1 else 0)
    ensures t * share * incr + (if t < left then 0 else left) == t * base + (if t < left then t else left)
    ensures share * incr == share
  {
    Distribute(base, 1, t);
  }

  lemma UnitSize(lower: int, upper: int, incr: int)
    requires Sized(lower, upper, incr) && incr == 1
    ensures U64(incr) != 0 && Size64(lower, upper, incr) == Size(lower, upper, incr) == upper - lower + 1
  {
    SizeFits(lower, upper, incr);
    DivUnique(upper - lower, incr, upper - lower);
  }

  lemma UnitLower(lower: int, upper: int, incr: int, n: nat, t: nat, size: int)
    requires Sized(lower, upper, incr) && incr == 1 && n > 0 && size == Size(lower, upper, incr)
    ensures U64(incr) != 0 && Static64Lower(lower, upper, incr, n, t) == U64(lower + First(size, n, t))
  {
    SizeFits(lower, upper, incr);
    UnitStart(t, Base(size, n), LeftOver(size, n), Share(size, n, t), incr);
  }

  /** A thread's range, by the number of iterations before its own. */
  lemma UnitRange(lower: int, upper: int, incr: int, n: nat, t: nat)
    requires Sized(lower, upper, incr) && incr == 1 && n > 0
    ensures var size := Size(lower, upper, incr);
            && U64(incr) != 0 && size == upper - lower + 1
            && Static64Lower(lower, upper, incr, n, t) == U64(lower + First(size, n, t))
            && Static64Upper(lower, upper, incr, n, t) == U64(lower + First(size, n, t + 1) - 1)
  {
    var size := Size(lower, upper, incr);
    UnitSize(lower, upper, incr);
    UnitLower(lower, upper, incr, n, t, size);
    FirstSteps(size, n, t);
    var end := Static64Lower(lower, upper, incr, n, t) + Share(size, n, t) - 1;
    UnitUpper(lower, upper, incr, n, t, end);
    WrapsTo(lower + First(size, n, t), Share(size, n, t) - 1, end, lower + First(size, n, t + 1) - 1);
  }

  lemma UnitUpper(lower: int, upper: int, incr: int, n: nat, t: nat, end: int)
    requires U64(incr) != 0 && incr == 1 && n > 0
    requires end == Static64Lower(lower, upper, incr, n, t) + Share(Size64(lower, upper, incr), n, t) - 1
    ensures Static64Upper(lower, upper, incr, n, t) == U64(end)
  {
    TimesUnit(Share(Size64(lower, upper, incr), n, t), incr);
  }

  lemma TimesUnit(a: int, b: int)
    requires b == 1
    ensures a * b == a
  {}

  lemma SharesAlmostEqual(size: int, n: nat, t: nat, u: nat)
    requires n > 0
    ensures -1 <= Share(size, n, t) - Share(size, n, u) <= 1
  {}

  lemma NextBegins(lower: int, upper: int, incr: int, n: nat, t: nat)
    requires Sized(lower, upper, incr) && incr == 1 && n > 0
    ensures U64(incr) != 0
    ensures Static64Lower(lower, upper, incr, n, t + 1) == U64(Static64Upper(lower, upper, incr, n, t) + 1)
  {
    var size := Size(lower, upper, incr);
    var begin := lower + First(size, n, t + 1);
    UnitRange(lower, upper, incr, n, t);
    UnitLower(lower, upper, incr, n, t + 1, size);
    WrapsTo(begin - 1, 1, Static64Upper(lower, upper, incr, n, t) + 1, begin);
  }

  lemma LoopIsSpanned(lower: int, upper: int, incr: int, n: nat)
    requires Sized(lower, upper, incr) && incr == 1 && n > 0
    ensures U64(incr) != 0 && Static64Lower(lower, upper, incr, n, 0) == lower
    ensures Static64Upper(lower, upper, incr, n, n - 1) == upper
  {
    var size := Size(lower, upper, incr);
    UnitRange(lower, upper, incr, n, 0);
    UnitRange(lower, upper, incr, n, n - 1);
    FirstSteps(size, n, 0);
    Fits64(lower);
    Fits64(upper);
  }

  /**
    With unit increment the threads' ranges follow each other without gap, modulo 2^64, over the whole loop, and
    their sizes differ by at most one.
    */
  lemma Static64Contiguous(lower: int, upper: int, incr: int, n: nat)
    requires Sized(lower, upper, incr) && incr == 1 && n > 0
    ensures U64(incr) != 0
    ensures Static64Lower(lower, upper, incr, n, 0) == lower && Static64Upper(lower, upper, incr, n, n - 1) == upper
    ensures forall t: nat :: t + 1 < n ==>
              Static64Lower(lower, upper, incr, n, t + 1) == U64(Static64Upper(lower, upper, incr, n, t) + 1)
    ensures forall t: nat, u: nat :: t < n && u < n ==>
              -1 <= Share(Size64(lower, upper, incr), n, t) - Share(Size64(lower, upper, incr), n, u) <= 1
  {
    LoopIsSpanned(lower, upper, incr, n);
    forall t: nat | t + 1 < n
      ensures Static64Lower(lower, upper, incr, n, t + 1) == U64(Static64Upper(lower, upper, incr, n, t) + 1)
    {
      NextBegins(lower, upper, incr, n, t);
    }
    forall t: nat, u: nat | t < n && u < n
      ensures -1 <= Share(Size64(lower, upper, incr), n, t) - Share(Size64(lower, upper, incr), n, u) <= 1
    {
      SharesAlmostEqual(Size64(lower, upper, incr), n, t, u);
    }
  }

  /** The range of a thread with a share does not wrap. */
  lemma UnitShare(lower: int, upper: int, incr: int, n: nat, t: nat)
    requires Sized(lower, upper, incr) && incr == 1 && n > 0 && t < n && Share(Size(lower, upper, incr), n, t) >= 1
    ensures var size := Size(lower, upper, incr);
            && U64(incr) != 0 && Static64Lower(lower, upper, incr, n, t) == lower + First(size, n, t)
            && Static64Upper(lower, upper, incr, n, t) == lower + First(size, n, t + 1) - 1
            && First(size, n, t) < First(size, n, t + 1) <= size == upper - lower + 1
  {
    var size := Size(lower, upper, incr);
    UnitRange(lower, upper, incr, n, t);
    UnitSize(lower, upper, incr);
    FirstSteps(size, n, t);
    FirstMonotone(size, n, 0, t);
    FirstMonotone(size, n, t + 1, n);
    Fits64(lower + First(size, n, t));
    Fits64(lower + First(size, n, t + 1) - 1);
  }

  /** The last flag of a thread with a share: its range ends the loop. */
  lemma ShareFlag(lower: int, upper: int, incr: int, n: nat, t: nat)
    requires Sized(lower, upper, incr) && incr == 1 && n > 0 && t < n && Share(Size(lower, upper, incr), n, t) >= 1
    ensures U64(incr) != 0
    ensures Static64Last(lower, upper, incr, n, t) <==>
              First(Size(lower, upper, incr), n, t + 1) == Size(lower, upper, incr)
  {
    UnitShare(lower, upper, incr, n, t);
  }

  /** The last flag of a thread without a share: its range begins behind the loop, or at 0 if that wraps. */
  lemma EmptyFlag(lower: int, upper: int, incr: int, n: nat, t: nat)
    requires Sized(lower, upper, incr) && incr == 1 && n > 0 && Size(lower, upper, incr) <= t < n
    ensures U64(incr) != 0 && (Static64Last(lower, upper, incr, n, t) <==> upper == TWO_64 - 1)
  {
    UnitSize(lower, upper, incr);
    EmptyRange(lower, upper, incr, n, t);
    WrapSum(upper + 1, -1);
    Fits64(upper);
    Fits64(upper + 1);
  }

  /** Exactly one thread gets the last flag. */
  ghost predicate OneFlagged(lower: int, upper: int, incr: int, n: nat)
    requires U64(incr) != 0 && n > 0
  {
    exists t: nat :: t < n && OnlyFlagged(lower, upper, incr, n, t)
  }

  ghost predicate OnlyFlagged(lower: int, upper: int, incr: int, n: nat, t: nat)
    requires U64(incr) != 0 && n > 0
  {
    forall u: nat :: u < n ==> (Static64Last(lower, upper, incr, n, u) <==> u == t)
  }

  lemma EnoughIterationsFlag(lower: int, upper: int, incr: int, n: nat)
    requires Sized(lower, upper, incr) && incr == 1 && n > 0 && Size(lower, upper, incr) >= n
    ensures U64(incr) != 0 && OnlyFlagged(lower, upper, incr, n, n - 1)
  {
    var size := Size(lower, upper, incr);
    forall u: nat | u < n
      ensures U64(incr) != 0 && (Static64Last(lower, upper, incr, n, u) <==> u == n - 1)
    {
      NoShare(size, n, u);
      ShareFlag(lower, upper, incr, n, u);
      FirstSteps(size, n, u);
      if u < n - 1 {
        NoShare(size, n, u + 1);
        FirstSteps(size, n, u + 1);
        FirstMonotone(size, n, u + 2, n);
      }
    }
  }

  lemma FewIterationsFlag(lower: int, upper: int, incr: int, n: nat, u: nat)
    requires Sized(lower, upper, incr) && incr == 1 && u < n && Size(lower, upper, incr) < n
    ensures U64(incr) != 0
    ensures Static64Last(lower, upper, incr, n, u) <==>
              u == Size(lower, upper, incr) - 1 || (u >= Size(lower, upper, incr) && upper == TWO_64 - 1)
  {
    var size := Size(lower, upper, incr);
    SizeFits(lower, upper, incr);
    NoShare(size, n, u);
    if u < size {
      ShareFlag(lower, upper, incr, n, u);
    } else {
      EmptyFlag(lower, upper, incr, n, u);
    }
  }

  /**
    With unit increment exactly one thread gets the last flag if and only if the schedule is exact: every thread has
    an iteration, or the loop does not end at the largest value, so that empty ranges do not wrap.
    */
  lemma Static64OneLast(lower: int, upper: int, incr: int, n: nat)
    requires Upwards(lower, upper, incr) && incr == 1 && n > 0
    ensures U64(incr) != 0
    ensures Harmless64(lower, upper, incr, n) <==>
              n == 1 || (!RunsEveryValue(lower, upper, incr) &&
                         (Size(lower, upper, incr) >= n || upper < TWO_64 - 1))
    ensures OneFlagged(lower, upper, incr, n) <==> Harmless64(lower, upper, incr, n)
  {
    var size := Size(lower, upper, incr);
    Fits64(incr);
    DivUnique(upper - lower, incr, upper - lower);
    if RunsEveryValue(lower, upper, incr) {
      EveryValueFlags(lower, upper, incr, n);
    } else if size >= n {
      EnoughIterationsFlag(lower, upper, incr, n);
    } else {
      forall u: nat | u < n
        ensures Static64Last(lower, upper, incr, n, u) <==> u == size - 1 || (u >= size && upper == TWO_64 - 1)
      {
        FewIterationsFlag(lower, upper, incr, n, u);
      }
      if upper < TWO_64 - 1 {
        assert OnlyFlagged(lower, upper, incr, n, size - 1);
      } else {
        assert Static64Last(lower, upper, incr, n, size - 1) && Static64Last(lower, upper, incr, n, size);
      }
    }
  }

  lemma EveryValueFlags(lower: int, upper: int, incr: int, n: nat)
    requires RunsEveryValue(lower, upper, incr) && n > 0
    ensures U64(incr) != 0 && (OneFlagged(lower, upper, incr, n) <==> n == 1)
  {
    forall u: nat
      ensures U64(incr) != 0 && Static64Last(lower, upper, incr, n, u)
    {
      EveryValueRange(lower, upper, incr, n, u);
    }
    if n == 1 {
      assert OnlyFlagged(lower, upper, incr, n, 0);
    } else {
      assert Static64Last(lower, upper, incr, n, 0) && Static64Last(lower, upper, incr, n, 1);
    }
  }

  /** One iteration at the largest value on two threads: both are flagged, and the second one's range is everything. */
  lemma Static64FlagCounterexample(lower: int, upper: int, incr: int, n: nat)
    requires lower == upper == TWO_64 - 1 && incr == 1 && n == 2
    ensures U64(incr) != 0
    ensures Static64Last(lower, upper, incr, n, 0) && Static64Last(lower, upper, incr, n, 1)
    ensures Static64Lower(lower, upper, incr, n, 1) == 0 && Static64Upper(lower, upper, incr, n, 1) == upper
  {
    DivUnique(0, incr, 0);
    FewIterationsFlag(lower, upper, incr, n, 0);
    FewIterationsFlag(lower, upper, incr, n, 1);
    EmptyRange(lower, upper, incr, n, 1);
    Fits64(TWO_64);
    Fits64(-1);
  }
}
