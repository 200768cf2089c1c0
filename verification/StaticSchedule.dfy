/**
  The static schedule without a chunk size: the `kmp_sch_static` branch of `__kmpc_for_static_init_4` in
  software/snRuntime/src/omp/kmp.c, in signed arithmetic.  `n` is the number of threads, `t` a thread.
  */
module StaticSchedule {
  import opened Arithmetic
  import opened Loops
  import opened ShiftedSchedule

  function StaticLower(lower: int, upper: int, incr: int, n: nat, t: nat): int
    requires incr != 0 && n > 0
  {
    var size := Size(lower, upper, incr);
    if t < LeftOver(size, n) then lower + t * Share(size, n, t) * incr
    else lower + t * Share(size, n, t) * incr + LeftOver(size, n)
  }

  function StaticUpper(lower: int, upper: int, incr: int, n: nat, t: nat): int
    requires incr != 0 && n > 0
  {
    StaticLower(lower, upper, incr, n, t) + Share(Size(lower, upper, incr), n, t) * incr - incr
  }

  function StaticLast(lower: int, upper: int, incr: int, n: nat, t: nat): bool
    requires incr != 0 && n > 0
  {
    StaticUpper(lower, upper, incr, n, t) == upper && StaticLower(lower, upper, incr, n, t) <= upper
  }

  predicate StaticRuns(lower: int, upper: int, incr: int, n: nat, t: nat, x: int)
    requires incr != 0 && n > 0
  {
    Runs(StaticLower(lower, upper, incr, n, t), StaticUpper(lower, upper, incr, n, t), incr, x)
  }

  /** Every iteration is executed by exactly one thread and nothing else is executed. */
  ghost predicate StaticExact(lower: int, upper: int, incr: int, n: nat)
    requires incr != 0 && n > 0
  {
    && (forall x, t :: 0 <= t < n && StaticRuns(lower, upper, incr, n, t, x) ==> IsIteration(lower, upper, incr, x))
    && (forall x ::
        IsIteration(lower, upper, incr, x) ==> exists t :: 0 <= t < n && StaticRuns(lower, upper, incr, n, t, x))
    && (forall x, t, u | 0 <= t < n && 0 <= u < n ::
          StaticRuns(lower, upper, incr, n, t, x) && StaticRuns(lower, upper, incr, n, u, x) ==> t == u)
  }

  /** The condition under which the code's unscaled leftover does no harm. */
  predicate LeftOverHarmless(lower: int, upper: int, incr: int, n: nat)
    requires incr != 0 && n > 0
  {
    var size := Size(lower, upper, incr);
    incr == 1 || LeftOver(size, n) == 0 || size < n
  }

  /** With a positive increment the shift is the leftover. */
  lemma UpwardsIsShifted(lower: int, upper: int, incr: int, n: nat, t: nat, x: int)
    requires incr > 0 && n > 0
    ensures StaticRuns(lower, upper, incr, n, t, x)
         == ShiftedRuns(lower, upper, incr, LeftOver(Size(lower, upper, incr), n), n, t, x)
  {}

  /** With a negative increment, seen in the mirror, the shift goes the wrong way. */
  lemma DownwardsIsShifted(lower: int, upper: int, incr: int, n: nat, t: nat, x: int)
    requires incr < 0 && n > 0
    ensures StaticRuns(lower, upper, incr, n, t, x)
         == ShiftedRuns(-lower, -upper, -incr, -LeftOver(Size(lower, upper, incr), n), n, t, -x)
  {
    var share := Share(Size(lower, upper, incr), n, t);
    Negated(t * share, incr);
    Negated(share, incr);
    Mirror(StaticLower(lower, upper, incr, n, t), StaticUpper(lower, upper, incr, n, t), incr, x);
  }

  lemma UpwardsExact(lower: int, upper: int, incr: int, n: nat)
    requires incr > 0 && n > 0
    ensures StaticExact(lower, upper, incr, n)
       <==> ShiftedExact(lower, upper, incr, LeftOver(Size(lower, upper, incr), n), n)
  {
    forall x, t | 0 <= t < n
      ensures StaticRuns(lower, upper, incr, n, t, x)
           == ShiftedRuns(lower, upper, incr, LeftOver(Size(lower, upper, incr), n), n, t, x)
    {
      UpwardsIsShifted(lower, upper, incr, n, t, x);
    }
  }

  /** `l`, `u`, `i` and `shift` describe the mirror image of a loop and its schedule. */
  predicate IsMirror(lower: int, upper: int, incr: int, n: nat, l: int, u: int, i: int, shift: int)
    requires incr < 0 && n > 0
  {
    l == -lower && u == -upper && i == -incr && shift == -LeftOver(Size(lower, upper, incr), n)
  }

  lemma MirrorRuns(lower: int, upper: int, incr: int, n: nat, l: int, u: int, i: int, shift: int, t: nat, x: int,
                   y: int)
    requires incr < 0 && n > 0 && IsMirror(lower, upper, incr, n, l, u, i, shift) && y == -x
    ensures StaticRuns(lower, upper, incr, n, t, x) == ShiftedRuns(l, u, i, shift, n, t, y)
    ensures IsIteration(lower, upper, incr, x) == IsIteration(l, u, i, y)
  {
    DownwardsIsShifted(lower, upper, incr, n, t, x);
    Mirror(lower, upper, incr, x);
  }

  lemma MirroredExact(lower: int, upper: int, incr: int, n: nat, l: int, u: int, i: int, shift: int)
    requires incr < 0 && n > 0 && IsMirror(lower, upper, incr, n, l, u, i, shift) && StaticExact(lower, upper, incr, n)
    ensures ShiftedExact(l, u, i, shift, n)
  {
    forall y, t | 0 <= t < n && ShiftedRuns(l, u, i, shift, n, t, y)
      ensures IsIteration(l, u, i, y)
    {
      MirrorRuns(lower, upper, incr, n, l, u, i, shift, t, -y, y);
    }
    forall y | IsIteration(l, u, i, y)
      ensures exists t :: 0 <= t < n && ShiftedRuns(l, u, i, shift, n, t, y)
    {
      MirrorRuns(lower, upper, incr, n, l, u, i, shift, 0, -y, y);
      var t :| 0 <= t < n && StaticRuns(lower, upper, incr, n, t, -y);
      MirrorRuns(lower, upper, incr, n, l, u, i, shift, t, -y, y);
    }
    forall y, t, v | && 0 <= t < n && 0 <= v < n
                   && ShiftedRuns(l, u, i, shift, n, t, y) && ShiftedRuns(l, u, i, shift, n, v, y)
      ensures t == v
    {
      MirrorRuns(lower, upper, incr, n, l, u, i, shift, t, -y, y);
      MirrorRuns(lower, upper, incr, n, l, u, i, shift, v, -y, y);
    }
  }

  lemma UnmirroredExact(lower: int, upper: int, incr: int, n: nat, l: int, u: int, i: int, shift: int)
    requires incr < 0 && n > 0 && IsMirror(lower, upper, incr, n, l, u, i, shift) && ShiftedExact(l, u, i, shift, n)
    ensures StaticExact(lower, upper, incr, n)
  {
    forall x, t | 0 <= t < n && StaticRuns(lower, upper, incr, n, t, x)
      ensures IsIteration(lower, upper, incr, x)
    {
      MirrorRuns(lower, upper, incr, n, l, u, i, shift, t, x, -x);
    }
    forall x | IsIteration(lower, upper, incr, x)
      ensures exists t :: 0 <= t < n && StaticRuns(lower, upper, incr, n, t, x)
    {
      MirrorRuns(lower, upper, incr, n, l, u, i, shift, 0, x, -x);
      var t :| 0 <= t < n && ShiftedRuns(l, u, i, shift, n, t, -x);
      MirrorRuns(lower, upper, incr, n, l, u, i, shift, t, x, -x);
    }
    forall x, t, v | && 0 <= t < n && 0 <= v < n
                   && StaticRuns(lower, upper, incr, n, t, x) && StaticRuns(lower, upper, incr, n, v, x)
      ensures t == v
    {
      MirrorRuns(lower, upper, incr, n, l, u, i, shift, t, x, -x);
      MirrorRuns(lower, upper, incr, n, l, u, i, shift, v, x, -x);
    }
  }

  /**
    The static schedule hands out every iteration exactly once if and only if the leftover, which the code adds
    without scaling it by the increment, does no harm.  With a negative increment it always does if there is one
    and no thread stays without iterations.
    */
  lemma StaticExactlyOnce(lower: int, upper: int, incr: int, n: nat)
    requires NonEmpty(lower, upper, incr) && n > 0
    ensures StaticExact(lower, upper, incr, n) <==> LeftOverHarmless(lower, upper, incr, n)
  {
    var left := LeftOver(Size(lower, upper, incr), n);
    if incr > 0 {
      UpwardsExact(lower, upper, incr, n);
      ShiftedExactIff(lower, upper, incr, left, n);
      ScaledEquals(left, incr);
    } else {
      DownwardsExactlyOnce(lower, upper, incr, n);
    }
  }

  lemma DownwardsExactlyOnce(lower: int, upper: int, incr: int, n: nat)
    requires NonEmpty(lower, upper, incr) && incr < 0 && n > 0
    ensures StaticExact(lower, upper, incr, n) <==> LeftOverHarmless(lower, upper, incr, n)
  {
    var size := Size(lower, upper, incr);
    var left := LeftOver(size, n);
    Mirror(lower, upper, incr, 0);
    IterationBounds(-lower, -upper, -incr, 0);
    BaseAndLeftOver(size, n);
    ShiftedExactIff(-lower, -upper, -incr, -left, n);
    ScaleOrder(0, left, -incr);
    assert left > 0 ==> left * -incr > 0;
    if StaticExact(lower, upper, incr, n) {
      MirroredExact(lower, upper, incr, n, -lower, -upper, -incr, -left);
    } else if ShiftedExact(-lower, -upper, -incr, -left, n) {
      UnmirroredExact(lower, upper, incr, n, -lower, -upper, -incr, -left);
    }
  }

  // ----- A failing loop -----

  lemma ThreeOnTwoThreads(size: int, n: nat)
    requires size == 3 && n == 2
    ensures Base(size, n) == 1 && LeftOver(size, n) == 1 && Share(size, n, 0) == 2 && Share(size, n, 1) == 1
  {
    DivUnique(size, n, 1);
  }

  lemma ThreeIterations(upper: int, incr: int)
    requires incr >= 2 && upper == 2 * incr
    ensures Size(0, upper, incr) == 3
  {
    DivUnique(upper, incr, 2);
  }

  lemma CounterexampleRanges(upper: int, incr: int, n: nat)
    requires incr >= 2 && upper == 2 * incr && n == 2
    ensures StaticLower(0, upper, incr, n, 0) == 0 && StaticUpper(0, upper, incr, n, 0) == incr
    ensures StaticLower(0, upper, incr, n, 1) == incr + 1 && StaticUpper(0, upper, incr, n, 1) == incr + 1
  {
    ThreeIterations(upper, incr);
    ThreeOnTwoThreads(Size(0, upper, incr), n);
  }

  /** Three iterations on two threads: the second thread runs a stray value and nobody runs the last iteration. */
  lemma StaticCounterexample(upper: int, incr: int, n: nat)
    requires incr >= 2 && upper == 2 * incr && n == 2
    ensures StaticRuns(0, upper, incr, n, 1, incr + 1) && !IsIteration(0, upper, incr, incr + 1)
    ensures IsIteration(0, upper, incr, upper)
    ensures !StaticRuns(0, upper, incr, n, 0, upper) && !StaticRuns(0, upper, incr, n, 1, upper)
  {
    CounterexampleRanges(upper, incr, n);
    NotOnGrid(0, incr, 1, 1);
    MultipleMod(2, incr);
    MultipleMod(0, incr);
  }

  // ----- Unit increment -----

  /** With unit increment the threads' ranges follow each other without gap, and their sizes differ by at most one. */
  lemma StaticContiguous(lower: int, upper: int, n: nat, t: nat)
    requires n > 0 && lower <= upper && t < n
    ensures t == 0 ==> StaticLower(lower, upper, 1, n, t) == lower
    ensures t + 1 < n ==> StaticLower(lower, upper, 1, n, t + 1) == StaticUpper(lower, upper, 1, n, t) + 1
    ensures t + 1 == n ==> StaticUpper(lower, upper, 1, n, t) == upper
    ensures forall u ::
        0 <= u < n ==> -1 <= Share(Size(lower, upper, 1), n, t) - Share(Size(lower, upper, 1), n, u) <= 1
  {
    var size := Size(lower, upper, 1);
    FirstSteps(size, n, t);
    FirstSteps(size, n, t + 1);
    assert t * (Base(size, n) + 1) == t * Base(size, n) + t;
    assert (t + 1) * (Base(size, n) + 1) == (t + 1) * Base(size, n) + t + 1;
    assert StaticLower(lower, upper, 1, n, t) == lower + First(size, n, t);
    assert StaticLower(lower, upper, 1, n, t + 1) == lower + First(size, n, t + 1);
  }

  // ----- The last flag -----

  /** With a positive increment a thread's last flag is raised exactly if the thread runs the upper bound. */
  lemma StaticLastFlag(lower: int, upper: int, incr: int, n: nat, t: nat)
    requires n > 0 && incr > 0 && lower <= upper && t < n
    ensures StaticLast(lower, upper, incr, n, t) <==> StaticRuns(lower, upper, incr, n, t, upper)
  {
    var size := Size(lower, upper, incr);
    SizeBounds(lower, upper, incr);
    NoShare(size, n, t);
    UpwardsIsShifted(lower, upper, incr, n, t, upper);
    if Share(size, n, t) >= 1 {
      ShareWithin(lower, upper, incr, n, t);
      EndsAtUpper(lower, upper, incr, n, t);
    }
  }

  ghost predicate OneFlagged(lower: int, upper: int, incr: int, n: nat)
    requires incr != 0 && n > 0
  {
    exists t: nat :: t < n && OnlyFlagged(lower, upper, incr, n, t)
  }

  ghost predicate OnlyFlagged(lower: int, upper: int, incr: int, n: nat, t: nat)
    requires incr != 0 && n > 0
  {
    forall u: nat :: u < n ==> (StaticLast(lower, upper, incr, n, u) <==> u == t)
  }

  /**
    With a positive increment exactly one thread gets the last flag, also when there are more threads than iterations,
    if and only if the leftover does no harm and the upper bound is an iteration; otherwise nobody gets it.
    */
  lemma StaticOneLast(lower: int, upper: int, incr: int, n: nat)
    requires n > 0 && incr > 0 && lower <= upper
    ensures OneFlagged(lower, upper, incr, n)
       <==> LeftOverHarmless(lower, upper, incr, n) && (upper - lower) % incr == 0
    ensures !OneFlagged(lower, upper, incr, n) ==> forall t: nat :: t < n ==> !StaticLast(lower, upper, incr, n, t)
  {
    if LeftOverHarmless(lower, upper, incr, n) {
      HarmlessFlags(lower, upper, incr, n);
    } else {
      forall t: nat | t < n
        ensures !StaticLast(lower, upper, incr, n, t)
      {
        HarmfulFlag(lower, upper, incr, n, t);
      }
      NobodyFlagged(lower, upper, incr, n);
    }
  }

  lemma HarmfulFlag(lower: int, upper: int, incr: int, n: nat, t: nat)
    requires incr > 0 && lower <= upper && t < n && !LeftOverHarmless(lower, upper, incr, n)
    ensures !StaticLast(lower, upper, incr, n, t)
  {
    SizeBounds(lower, upper, incr);
    BaseAndLeftOver(Size(lower, upper, incr), n);
    HarmfulEndsBelow(lower, upper, incr, n, t);
  }

  lemma NobodyFlagged(lower: int, upper: int, incr: int, n: nat)
    requires incr != 0 && n > 0 && forall t: nat :: t < n ==> !StaticLast(lower, upper, incr, n, t)
    ensures !OneFlagged(lower, upper, incr, n)
  {
    forall t: nat | t < n
      ensures !OnlyFlagged(lower, upper, incr, n, t)
    {
      assert !StaticLast(lower, upper, incr, n, t);
    }
  }

  lemma HarmlessFlags(lower: int, upper: int, incr: int, n: nat)
    requires n > 0 && incr > 0 && lower <= upper && LeftOverHarmless(lower, upper, incr, n)
    ensures OneFlagged(lower, upper, incr, n) <==> (upper - lower) % incr == 0
    ensures (upper - lower) % incr != 0 ==> forall t: nat :: t < n ==> !StaticLast(lower, upper, incr, n, t)
  {
    StaticExactlyOnce(lower, upper, incr, n);
    forall t: nat | t < n
      ensures StaticLast(lower, upper, incr, n, t) <==> StaticRuns(lower, upper, incr, n, t, upper)
    {
      StaticLastFlag(lower, upper, incr, n, t);
    }
    if IsIteration(lower, upper, incr, upper) {
      var owner: nat :| owner < n && StaticRuns(lower, upper, incr, n, owner, upper);
      assert OnlyFlagged(lower, upper, incr, n, owner);
    } else {
      NobodyFlagged(lower, upper, incr, n);
    }
  }

  /**
    With a negative increment a thread that runs iterations up to the loop's bound is flagged only if its range is
    that single iteration: the flag's second test compares in the wrong direction.
    */
  lemma DownwardsLastFlag(lower: int, upper: int, incr: int, n: nat, t: nat)
    requires incr < 0 && upper <= lower && t < n
    ensures StaticLast(lower, upper, incr, n, t)
       <==> StaticUpper(lower, upper, incr, n, t) == upper && Share(Size(lower, upper, incr), n, t) == 1
  {
    var share := Share(Size(lower, upper, incr), n, t);
    SizeBounds(-lower, -upper, -incr);
    NoShare(Size(lower, upper, incr), n, t);
    if share > 0 {
      Distribute(share, -1, -incr);
      ScaleOrder(share - 1, 0, -incr);
      Negated(share, incr);
      assert StaticUpper(lower, upper, incr, n, t) == StaticLower(lower, upper, incr, n, t) - (share - 1) * -incr;
    }
  }
}
