/**
  The last flag of the unsigned static schedule: the `kmp_sch_static` branch of `__kmpc_for_static_init_8u` in
  software/snRuntime/src/omp/kmp.c, for all increments.
  */
module StaticFlags64 {
  import opened Arithmetic
  import opened Loops
  import opened ShiftedSchedule
  import opened StaticSchedule64
  import opened StaticDownwards64

  // ----- Positive increments -----

  /** The range of a thread without a share wraps around to end at the upper bound. */
  predicate EmptyEndsAtUpper(lower: int, upper: int, incr: int, size: int) {
    U64(lower + size) + TWO_64 - incr == upper
  }

  /** The bounds of a thread with a share do not wrap. */
  lemma ShareBounds(lower: int, upper: int, incr: int, n: nat, t: nat, lo: int, up: int)
    requires Sized(lower, upper, incr) && t < n && Share(Size(lower, upper, incr), n, t) >= 1
    requires lo == ShiftedLower(lower, upper, incr, LeftOver(Size(lower, upper, incr), n), n, t)
    requires up == lo + Share(Size(lower, upper, incr), n, t) * incr - incr
    ensures U64(incr) != 0 && Static64Lower(lower, upper, incr, n, t) == lo
    ensures Static64Upper(lower, upper, incr, n, t) == up && lo <= up <= upper
  {
    SizeFits(lower, upper, incr);
    ShareWithin(lower, upper, incr, n, t);
    Fits64(lo);
    Fits64(up);
  }

  /** A thread with a share is flagged exactly if it runs the upper bound. */
  lemma ShareLastFlag(lower: int, upper: int, incr: int, n: nat, t: nat)
    requires Sized(lower, upper, incr) && t < n && Share(Size(lower, upper, incr), n, t) >= 1
    ensures U64(incr) != 0
    ensures Static64Last(lower, upper, incr, n, t) <==> Static64Runs(lower, upper, incr, n, t, upper)
  {
    var size := Size(lower, upper, incr);
    var lo := ShiftedLower(lower, upper, incr, LeftOver(size, n), n, t);
    ShareBounds(lower, upper, incr, n, t, lo, lo + Share(size, n, t) * incr - incr);
    ShareRuns(lower, upper, incr, n, t, upper);
    EndsAtUpper(lower, upper, incr, n, t);
  }

  lemma EmptyLastFlag(lower: int, upper: int, incr: int, n: nat, t: nat)
    requires Sized(lower, upper, incr) && Size(lower, upper, incr) <= t < n
    ensures U64(incr) != 0
    ensures Static64Last(lower, upper, incr, n, t) <==>
              EmptyEndsAtUpper(lower, upper, incr, Size(lower, upper, incr))
  {
    EmptyRange(lower, upper, incr, n, t);
    WrapOnce(U64(lower + Size(lower, upper, incr)), incr);
  }

  lemma WrapOnce(lo: int, incr: int)
    requires 0 <= lo < TWO_64 && 0 < incr < TWO_64
    ensures U64(lo - incr) == if lo >= incr then lo - incr else lo + TWO_64 - incr
  {
    Fits64(if lo >= incr then lo - incr else lo + TWO_64 - incr);
    WrapSum(lo - incr, 0);
  }

  /**
    With a positive increment: a thread with a share is flagged exactly if it runs the upper bound, and one without
    exactly if its range wraps around to end there.
    */
  lemma Static64LastFlag(lower: int, upper: int, incr: int, n: nat, t: nat)
    requires Sized(lower, upper, incr) && t < n
    ensures U64(incr) != 0
    ensures Static64Last(lower, upper, incr, n, t) <==>
              if t < Size(lower, upper, incr) then Static64Runs(lower, upper, incr, n, t, upper)
              else EmptyEndsAtUpper(lower, upper, incr, Size(lower, upper, incr))
  {
    SizeFits(lower, upper, incr);
    NoShare(Size(lower, upper, incr), n, t);
    if t < Size(lower, upper, incr) {
      ShareLastFlag(lower, upper, incr, n, t);
    } else {
      EmptyLastFlag(lower, upper, incr, n, t);
    }
  }

  /** Exactly one thread is flagged, and it is one that runs the upper bound in its share. */
  predicate FlagCondition(lower: int, upper: int, incr: int, n: nat)
    requires incr > 0 && n > 0
  {
    var size := Size(lower, upper, incr);
    && (upper - lower) % incr == 0
    && (if RunsEveryValue(lower, upper, incr) then n == 1
        else if size >= n then incr == 1 || LeftOver(size, n) == 0
        else !EmptyEndsAtUpper(lower, upper, incr, size))
  }

  /** The case of a single flag that is raised by a thread without a share. */
  predicate StrayFlag(lower: int, upper: int, incr: int, n: nat)
    requires incr > 0
  {
    && (upper - lower) % incr != 0 && n == Size(lower, upper, incr) + 1
    && EmptyEndsAtUpper(lower, upper, incr, Size(lower, upper, incr))
  }

  /** Where every thread has a share. */
  lemma ManyIterationsFlag(lower: int, upper: int, incr: int, n: nat)
    requires Sized(lower, upper, incr) && 0 < n <= Size(lower, upper, incr)
    ensures U64(incr) != 0 && (OneFlagged(lower, upper, incr, n) <==> FlagCondition(lower, upper, incr, n))
  {
    var size := Size(lower, upper, incr);
    SizeFits(lower, upper, incr);
    BaseAndLeftOver(size, n);
    if incr == 1 || LeftOver(size, n) == 0 {
      HarmlessFlag(lower, upper, incr, n);
    } else {
      forall t: nat | t < n
        ensures !Static64Last(lower, upper, incr, n, t)
      {
        HarmfulFlag(lower, upper, incr, n, t);
      }
      NobodyFlagged(lower, upper, incr, n);
    }
  }

  lemma HarmfulFlag(lower: int, upper: int, incr: int, n: nat, t: nat)
    requires Sized(lower, upper, incr) && t < n <= Size(lower, upper, incr) && incr > 1
    requires LeftOver(Size(lower, upper, incr), n) > 0
    ensures U64(incr) != 0 && !Static64Last(lower, upper, incr, n, t)
  {
    var size := Size(lower, upper, incr);
    SizeFits(lower, upper, incr);
    NoShare(size, n, t);
    HarmfulEndsBelow(lower, upper, incr, n, t);
    ShareRuns(lower, upper, incr, n, t, upper);
    ShareLastFlag(lower, upper, incr, n, t);
    EndsAtUpper(lower, upper, incr, n, t);
  }

  lemma NobodyFlagged(lower: int, upper: int, incr: int, n: nat)
    requires U64(incr) != 0 && n > 0 && forall t: nat :: t < n ==> !Static64Last(lower, upper, incr, n, t)
    ensures !OneFlagged(lower, upper, incr, n)
  {
    forall t: nat | t < n
      ensures !OnlyFlagged(lower, upper, incr, n, t)
    {
      assert !Static64Last(lower, upper, incr, n, t);
    }
  }

  /** An exact schedule flags the one thread that runs the upper bound, if that is an iteration. */
  lemma HarmlessFlag(lower: int, upper: int, incr: int, n: nat)
    requires Sized(lower, upper, incr) && 0 < n <= Size(lower, upper, incr)
    requires incr == 1 || LeftOver(Size(lower, upper, incr), n) == 0
    ensures U64(incr) != 0 && (OneFlagged(lower, upper, incr, n) <==> (upper - lower) % incr == 0)
  {
    Static64ExactlyOnce(lower, upper, incr, n);
    forall t: nat | t < n
      ensures Static64Last(lower, upper, incr, n, t) <==> Static64Runs(lower, upper, incr, n, t, upper)
    {
      Static64LastFlag(lower, upper, incr, n, t);
    }
    if IsIteration(lower, upper, incr, upper) {
      var owner: nat :| owner < n && Static64Runs(lower, upper, incr, n, owner, upper);
      assert OnlyFlagged(lower, upper, incr, n, owner);
    } else {
      NobodyFlagged(lower, upper, incr, n);
    }
  }

  /** Thread `t` of fewer iterations than threads runs iteration `t` and nothing else. */
  lemma FewFlag(lower: int, upper: int, incr: int, n: nat, t: nat)
    requires Sized(lower, upper, incr) && t < Size(lower, upper, incr) < n
    ensures U64(incr) != 0
    ensures Static64Last(lower, upper, incr, n, t) <==>
              t == Size(lower, upper, incr) - 1 && (upper - lower) % incr == 0
  {
    var size := Size(lower, upper, incr);
    SizeFits(lower, upper, incr);
    NoShare(size, n, t);
    IterationBounds(lower, upper, incr, t);
    LastOnGrid(lower, upper, incr, t);
    Fits64(lower + t * incr);
  }

  lemma LastOnGrid(lower: int, upper: int, incr: int, t: nat)
    requires incr > 0 && lower <= upper && t < Size(lower, upper, incr)
    ensures lower + t * incr == upper <==> t == Size(lower, upper, incr) - 1 && (upper - lower) % incr == 0
  {
    var d := upper - lower;
    DivBounds(d, incr);
    MultipleMod(t, incr);
    if lower + t * incr == upper {
      DivUnique(d, incr, t);
    }
  }

  /** Where some threads have no share. */
  lemma FewIterationsFlags(lower: int, upper: int, incr: int, n: nat)
    requires Sized(lower, upper, incr) && Size(lower, upper, incr) < n
    ensures U64(incr) != 0
    ensures OneFlagged(lower, upper, incr, n)
       <==> FlagCondition(lower, upper, incr, n) || StrayFlag(lower, upper, incr, n)
  {
    var size := Size(lower, upper, incr);
    var grid, stray := (upper - lower) % incr == 0, EmptyEndsAtUpper(lower, upper, incr, size);
    SizeFits(lower, upper, incr);
    forall t: nat | t < n
      ensures Static64Last(lower, upper, incr, n, t) <==> if t < size then t == size - 1 && grid else stray
    {
      if t < size {
        FewFlag(lower, upper, incr, n, t);
      } else {
        EmptyLastFlag(lower, upper, incr, n, t);
      }
    }
    CountFlags(lower, upper, incr, n, size, grid, stray);
  }

  lemma CountFlags(lower: int, upper: int, incr: int, n: nat, size: nat, grid: bool, stray: bool)
    requires U64(incr) != 0 && 0 < size < n
    requires forall t: nat :: t < n ==>
               (Static64Last(lower, upper, incr, n, t) <==> if t < size then t == size - 1 && grid else stray)
    ensures OneFlagged(lower, upper, incr, n) <==> (grid && !stray) || (!grid && stray && n == size + 1)
  {
    if grid && !stray {
      assert OnlyFlagged(lower, upper, incr, n, size - 1);
    } else if !grid && stray && n == size + 1 {
      assert OnlyFlagged(lower, upper, incr, n, size);
    } else if !grid && !stray {
      NobodyFlagged(lower, upper, incr, n);
    } else {
      var t := if grid then size - 1 else size + 1;
      assert Static64Last(lower, upper, incr, n, t) && Static64Last(lower, upper, incr, n, size);
      forall u: nat | u < n
        ensures !OnlyFlagged(lower, upper, incr, n, u)
      {
        assert u != t || u != size;
      }
    }
  }

  /**
    With a positive increment exactly one thread gets the last flag if and only if the leftover does no harm, the upper
    bound is an iteration and no empty range wraps around to end there; or, with one thread more than iterations, if
    the upper bound is no iteration and that thread's range ends there.
    */
  lemma Static64OneFlag(lower: int, upper: int, incr: int, n: nat)
    requires Upwards(lower, upper, incr) && n > 0
    ensures U64(incr) != 0
    ensures OneFlagged(lower, upper, incr, n)
       <==> FlagCondition(lower, upper, incr, n) || (Size(lower, upper, incr) < n && StrayFlag(lower, upper, incr, n))
  {
    if RunsEveryValue(lower, upper, incr) {
      EveryValueFlags(lower, upper, incr, n);
      EveryValueIsOnGrid(lower, upper, incr);
    } else if Size(lower, upper, incr) >= n {
      ManyIterationsFlag(lower, upper, incr, n);
    } else {
      FewIterationsFlags(lower, upper, incr, n);
    }
  }

  lemma EveryValueIsOnGrid(lower: int, upper: int, incr: int)
    requires RunsEveryValue(lower, upper, incr)
    ensures (upper - lower) % incr == 0
  {}

  /** A third of 2^64 as increment: the thread without a share is flagged, and nobody else. */
  lemma StrayFlagExample(lower: int, upper: int, incr: int, n: nat)
    requires lower == 0 && incr == 0x5555_5555_5555_5556 && upper == 2 * incr + 1 && n == 4
    ensures U64(incr) != 0 && Upwards(lower, upper, incr) && (upper - lower) % incr != 0
    ensures OnlyFlagged(lower, upper, incr, n, 3) && Static64Lower(lower, upper, incr, n, 3) == 3
  {
    Fits64(incr);
    DivUnique(upper, incr, 2);
    DivBounds(upper, incr);
    Fits64(3);
    forall t: nat | t < n
      ensures Static64Last(lower, upper, incr, n, t) <==> t == 3
    {
      if t < 3 {
        FewFlag(lower, upper, incr, n, t);
      } else {
        EmptyLastFlag(lower, upper, incr, n, t);
      }
    }
    EmptyRange(lower, upper, incr, n, 3);
  }

  // ----- Negative increments -----

  /** The range of a thread without a share begins behind 2^64 and ends at the upper bound. */
  predicate OtherEndsAtUpper(lower: int, upper: int, incr: int) {
    var size := CodeSize(lower, upper, incr);
    lower + size >= TWO_64 && lower + size - TWO_64 - incr == upper
  }

  /**
    With a negative increment: the first thread is flagged exactly if the bounds are equal, the second one with a share
    exactly if they are one increment apart, and a thread without a share exactly if its range wraps to end at the
    upper bound.
    */
  lemma Downwards64LastFlag(lower: int, upper: int, incr: int, n: nat, t: nat)
    requires Downwards(lower, upper, incr) && t < n
    ensures U64(incr) != 0
    ensures Static64Last(lower, upper, incr, n, t) <==>
              if t >= CodeSize(lower, upper, incr) then OtherEndsAtUpper(lower, upper, incr)
              else if t == 0 then lower == upper
              else lower - upper == -incr
  {
    CodeSizeIs(lower, upper, incr);
    if t >= CodeSize(lower, upper, incr) {
      OtherRange(lower, upper, incr, n, t);
      OtherEnd(lower, upper, incr, CodeSize(lower, upper, incr));
    } else if t == 0 {
      FirstRange(lower, upper, incr, n);
      SecondValue(lower, upper, incr);
    } else {
      SecondRange(lower, upper, incr, n);
      SecondValue(lower, upper, incr);
    }
  }

  lemma SecondValue(lower: int, upper: int, incr: int)
    requires Downwards(lower, upper, incr)
    ensures U64(lower + incr) == upper <==> lower + incr == upper
  {
    Fits64(if lower + incr >= 0 then lower + incr else lower + incr + TWO_64);
    WrapSum(lower + incr, 0);
  }

  lemma OtherEnd(lower: int, upper: int, incr: int, size: int)
    requires Downwards(lower, upper, incr) && 1 <= size <= 2
    ensures var lo := U64(lower + size);
            U64(lo - incr) == upper && lo <= upper <==>
              lower + size >= TWO_64 && lower + size - TWO_64 - incr == upper
  {
    var lo := if lower + size < TWO_64 then lower + size else lower + size - TWO_64;
    Fits64(lo);
    Fits64(if lo - incr < TWO_64 then lo - incr else lo - incr - TWO_64);
  }

  /**
    With a negative increment exactly one thread gets the last flag if and only if the bounds are equal; or they are one
    increment apart, there are two threads or more, and no third one's range wraps to end at the upper bound; or the
    only flagged thread is one such.
    */
  lemma Downwards64OneFlag(lower: int, upper: int, incr: int, n: nat)
    requires Downwards(lower, upper, incr) && n > 0
    ensures U64(incr) != 0
    ensures var size := CodeSize(lower, upper, incr);
            var stray := OtherEndsAtUpper(lower, upper, incr);
            OneFlagged(lower, upper, incr, n) <==>
              || lower == upper
              || (lower - upper == -incr && n >= 2 && !(n > 2 && stray))
              || (lower != upper && lower - upper != -incr && stray && n == size + 1)
  {
    var size, stray := CodeSize(lower, upper, incr), OtherEndsAtUpper(lower, upper, incr);
    CodeSizeIs(lower, upper, incr);
    forall t: nat | t < n
      ensures Static64Last(lower, upper, incr, n, t) <==>
                if t >= size then stray else if t == 0 then lower == upper else lower - upper == -incr
    {
      Downwards64LastFlag(lower, upper, incr, n, t);
    }
    if lower == upper {
      assert OnlyFlagged(lower, upper, incr, n, 0);
    } else if n <= size {
      if n == 2 && lower - upper == -incr {
        assert OnlyFlagged(lower, upper, incr, n, 1);
      } else {
        NobodyFlagged(lower, upper, incr, n);
      }
    } else {
      CountFlags(lower, upper, incr, n, size, lower - upper == -incr, stray);
    }
  }
}
