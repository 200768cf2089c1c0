/**
  Loops with a negative increment under the unsigned 64-bit static schedule: the `kmp_sch_static` branch of
  `__kmpc_for_static_init_8u` in software/snRuntime/src/omp/kmp.c divides wrapped differences, so it takes every such
  loop for one of one or two iterations.  The caller clips a range to the loop's bound, from above.
  */
module StaticDownwards64 {
  import opened Arithmetic
  import opened Loops
  import opened ShiftedSchedule
  import opened StaticSchedule64

  predicate Downwards(lower: int, upper: int, incr: int) {
    -(TWO_64 / 2) <= incr < 0 && 0 <= upper <= lower < TWO_64
  }

  /** The number of iterations as the code computes it. */
  function CodeSize(lower: int, upper: int, incr: int): int {
    if 0 < lower - upper <= -incr then 2 else 1
  }

  lemma CodeSizeIs(lower: int, upper: int, incr: int)
    requires Downwards(lower, upper, incr)
    ensures U64(incr) == incr + TWO_64 > 0 && Size64(lower, upper, incr) == CodeSize(lower, upper, incr)
  {
    Fits64(incr);
    Fits64(upper - lower);
    WrappedQuotient(lower - upper, -incr);
    Fits64(1);
    Fits64(2);
  }

  /**
    For a loop with a negative increment the code computes the right number of iterations if and only if the loop
    has one iteration at its lower bound, or the bounds are exactly one increment apart.
    */
  lemma NegativeSize64(lower: int, upper: int, incr: int)
    requires Downwards(lower, upper, incr)
    ensures U64(incr) != 0
    ensures Size64(lower, upper, incr) == Size(lower, upper, incr) <==> lower == upper || lower - upper == -incr
  {
    CodeSizeIs(lower, upper, incr);
    NegativeQuotient(lower - upper, -incr);
  }

  /** The quotient of the wrapped differences. */
  lemma WrappedQuotient(d: int, i: int)
    requires 0 <= d < TWO_64 && 0 < i <= TWO_64 / 2
    ensures d == 0 ==> 0 / (TWO_64 - i) == 0
    ensures 0 < d <= i ==> (TWO_64 - d) / (TWO_64 - i) == 1
    ensures d > i ==> (TWO_64 - d) / (TWO_64 - i) == 0
  {
    if d == 0 {
      DivUnique(0, TWO_64 - i, 0);
    } else {
      DivUnique(TWO_64 - d, TWO_64 - i, if d <= i then 1 else 0);
    }
  }

  /** How often the increment fits into the extent, near the first two values. */
  lemma NegativeQuotient(d: int, i: int)
    requires d >= 0 && i > 0
    ensures d < i ==> d / i == 0
    ensures d == i ==> d / i == 1
    ensures d > i ==> d / i >= 1
  {
    DivBounds(d, i);
    ScaleOrder(d / i + 1, 1, i);
    if d < i {
      DivUnique(d, i, 0);
    } else if d == i {
      DivUnique(d, i, 1);
    }
  }

  // ----- The threads' ranges -----

  lemma FewShares(size: int, n: nat, t: nat)
    requires 1 <= size <= 2 && t < n
    ensures Share(size, n, t) == if n == 1 then size else if t < size then 1 else 0
    ensures LeftOver(size, n) == if n > size then size else 0
  {
    if n > size {
      DivUnique(size, n, 0);
    } else {
      DivUnique(size, n, if n == 1 then size else 1);
    }
  }

  /** Thread 0 begins at the lower bound and gets that value, or, alone, the next one, too. */
  lemma FirstRange(lower: int, upper: int, incr: int, n: nat)
    requires Downwards(lower, upper, incr) && n > 0
    ensures U64(incr) != 0 && Static64Lower(lower, upper, incr, n, 0) == lower
    ensures Static64Upper(lower, upper, incr, n, 0) ==
              if n == 1 && CodeSize(lower, upper, incr) == 2 then U64(lower + incr) else lower
  {
    CodeSizeIs(lower, upper, incr);
    FewShares(CodeSize(lower, upper, incr), n, 0);
    Fits64(lower);
  }

  /** Thread 1 gets the next value, where the code sees two iterations. */
  lemma SecondRange(lower: int, upper: int, incr: int, n: nat)
    requires Downwards(lower, upper, incr) && n > 1 && CodeSize(lower, upper, incr) == 2
    ensures U64(incr) != 0 && Static64Lower(lower, upper, incr, n, 1) == U64(lower + incr)
    ensures Static64Upper(lower, upper, incr, n, 1) == U64(lower + incr)
  {
    CodeSizeIs(lower, upper, incr);
    FewShares(2, n, 1);
    Fits64(U64(lower + incr));
  }

  /** The other threads' ranges begin above the lower bound and end one increment higher. */
  lemma OtherRange(lower: int, upper: int, incr: int, n: nat, t: nat)
    requires Downwards(lower, upper, incr) && CodeSize(lower, upper, incr) <= t < n
    ensures var size := CodeSize(lower, upper, incr);
            && U64(incr) != 0 && Static64Lower(lower, upper, incr, n, t) == U64(lower + size)
            && Static64Upper(lower, upper, incr, n, t) == U64(U64(lower + size) - incr)
  {
    CodeSizeIs(lower, upper, incr);
    FewShares(CodeSize(lower, upper, incr), n, t);
  }

  // ----- What they run -----

  /** The ranges above the lower bound stay empty: their ends do not wrap. */
  predicate OthersStayEmpty(lower: int, upper: int, incr: int) {
    U64(lower + CodeSize(lower, upper, incr)) - incr < TWO_64
  }

  /** A range of one value. */
  lemma RunsOne(lo: int, incr: int, x: int)
    requires incr < 0
    ensures Runs(lo, lo, incr, x) <==> x == lo
  {
    MultipleMod(0, -incr);
  }

  lemma OtherRunsNothing(lower: int, upper: int, incr: int, n: nat, t: nat, x: int)
    requires Downwards(lower, upper, incr) && CodeSize(lower, upper, incr) <= t < n
    requires OthersStayEmpty(lower, upper, incr)
    ensures U64(incr) != 0 && !Static64Runs(lower, upper, incr, n, t, x)
  {
    OtherRange(lower, upper, incr, n, t);
    Fits64(U64(lower + CodeSize(lower, upper, incr)) - incr);
  }

  /** Otherwise their first value is run, which is above the loop. */
  lemma OtherRunsStray(lower: int, upper: int, incr: int, n: nat, t: nat)
    requires Downwards(lower, upper, incr) && CodeSize(lower, upper, incr) <= t < n
    requires !OthersStayEmpty(lower, upper, incr)
    ensures var x := lower + CodeSize(lower, upper, incr);
            U64(incr) != 0 && Static64Runs(lower, upper, incr, n, t, x) && !IsIteration(lower, upper, incr, x)
  {
    var x := lower + CodeSize(lower, upper, incr);
    OtherRange(lower, upper, incr, n, t);
    Fits64(x);
    Fits64(x - incr);
    MultipleMod(0, -incr);
  }

  /** Whether the second value of the loop variable wraps below zero. */
  lemma SecondRuns(lower: int, upper: int, incr: int, n: nat, x: int)
    requires Downwards(lower, upper, incr) && n > 1 && CodeSize(lower, upper, incr) == 2
    ensures U64(incr) != 0
    ensures lower + incr >= 0 ==>
              (Static64Runs(lower, upper, incr, n, 1, x) <==> x == lower + incr && lower + incr >= upper)
    ensures lower + incr < 0 ==> Static64Runs(lower, upper, incr, n, 1, lower + incr + TWO_64)
  {
    SecondRange(lower, upper, incr, n);
    Fits64(lower + incr);
    RunsOne(U64(lower + incr), incr, x);
    RunsOne(U64(lower + incr), incr, U64(lower + incr));
  }

  lemma FirstRuns(lower: int, upper: int, incr: int, n: nat, x: int)
    requires Downwards(lower, upper, incr) && n > 0 && !(n == 1 && CodeSize(lower, upper, incr) == 2)
    ensures U64(incr) != 0 && (Static64Runs(lower, upper, incr, n, 0, x) <==> x == lower)
  {
    FirstRange(lower, upper, incr, n);
    RunsOne(lower, incr, x);
  }

  /** A single thread runs the loop, unless the end of its range wraps and the range is empty. */
  lemma SingleRuns(lower: int, upper: int, incr: int, n: nat, x: int)
    requires Downwards(lower, upper, incr) && n == 1 && CodeSize(lower, upper, incr) == 2
    ensures U64(incr) != 0
    ensures Static64Runs(lower, upper, incr, n, 0, x) <==> lower + incr >= 0 && IsIteration(lower, upper, incr, x)
  {
    FirstRange(lower, upper, incr, n);
    Fits64(lower + incr);
  }

  /** The iterations of a loop with at most two of them. */
  lemma FewIterations(lower: int, upper: int, incr: int, x: int)
    requires Downwards(lower, upper, incr) && lower - upper <= -incr
    ensures IsIteration(lower, upper, incr, x) <==> x == lower || (x == lower + incr && lower + incr == upper)
  {
    MultipleMod(0, -incr);
    MultipleMod(1, -incr);
    if upper < x < lower || (x == upper && upper > lower + incr) {
      DivUnique(lower - x, -incr, 0);
      DivBounds(lower - x, -incr);
    }
  }

  // ----- The condition -----

  /** The loop has at most two iterations, the second of which does not wrap, and the other ranges stay empty. */
  predicate HarmlessDownwards(lower: int, upper: int, incr: int, n: nat) {
    && lower - upper <= -incr && (lower == upper || lower + incr >= 0)
    && (n <= CodeSize(lower, upper, incr) || OthersStayEmpty(lower, upper, incr))
  }

  lemma HarmlessRuns(lower: int, upper: int, incr: int, n: nat, t: nat, x: int)
    requires Downwards(lower, upper, incr) && t < n && HarmlessDownwards(lower, upper, incr, n)
    ensures U64(incr) != 0
    ensures Static64Runs(lower, upper, incr, n, t, x) <==>
              IsIteration(lower, upper, incr, x) && (n == 1 || (t == 0 && x == lower) || (t == 1 && x < lower))
  {
    var size := CodeSize(lower, upper, incr);
    FewIterations(lower, upper, incr, x);
    if t >= size {
      OtherRunsNothing(lower, upper, incr, n, t, x);
    } else if t == 1 {
      SecondRuns(lower, upper, incr, n, x);
    } else if n == 1 && size == 2 {
      SingleRuns(lower, upper, incr, n, x);
    } else {
      FirstRuns(lower, upper, incr, n, x);
    }
  }

  lemma HarmlessIsExact(lower: int, upper: int, incr: int, n: nat)
    requires Downwards(lower, upper, incr) && n > 0 && HarmlessDownwards(lower, upper, incr, n)
    ensures U64(incr) != 0 && Static64Exact(lower, upper, incr, n)
  {
    CodeSizeIs(lower, upper, incr);
    forall x, t: nat | t < n
      ensures Static64Runs(lower, upper, incr, n, t, x) <==>
                IsIteration(lower, upper, incr, x) && (n == 1 || (t == 0 && x == lower) || (t == 1 && x < lower))
    {
      HarmlessRuns(lower, upper, incr, n, t, x);
    }
    forall x | IsIteration(lower, upper, incr, x)
      ensures exists t: nat :: t < n && Static64Runs(lower, upper, incr, n, t, x)
    {
      if n == 1 || x == lower {
        assert Static64Runs(lower, upper, incr, n, 0, x);
      } else {
        assert Static64Runs(lower, upper, incr, n, 1, x);
      }
    }
  }

  /** A loop of more than two increments: nobody runs its second iteration. */
  lemma LongLoopFails(lower: int, upper: int, incr: int, n: nat)
    requires Downwards(lower, upper, incr) && n > 0 && lower - upper > -incr
    ensures U64(incr) != 0 && !Static64Exact(lower, upper, incr, n)
  {
    var x := lower + incr;
    CodeSizeIs(lower, upper, incr);
    assert IsIteration(lower, upper, incr, x) by { MultipleMod(1, -incr); }
    FirstRuns(lower, upper, incr, n, x);
    if n > 1 && !OthersStayEmpty(lower, upper, incr) {
      OtherRunsStray(lower, upper, incr, n, 1);
    } else {
      forall t: nat | t < n
        ensures !Static64Runs(lower, upper, incr, n, t, x)
      {
        if t > 0 {
          OtherRunsNothing(lower, upper, incr, n, t, x);
        }
      }
    }
  }

  /** The second value wraps: a single thread runs nothing, and thread 1 of several a value above the loop. */
  lemma WrappedSecondFails(lower: int, upper: int, incr: int, n: nat)
    requires Downwards(lower, upper, incr) && n > 0 && 0 < lower - upper <= -incr && lower + incr < 0
    ensures U64(incr) != 0 && !Static64Exact(lower, upper, incr, n)
  {
    CodeSizeIs(lower, upper, incr);
    if n == 1 {
      FewIterations(lower, upper, incr, lower);
      SingleRuns(lower, upper, incr, n, lower);
    } else {
      SecondRuns(lower, upper, incr, n, lower);
    }
  }

  /**
    With a negative increment the unsigned static schedule hands out every iteration exactly once, and nothing
    else, if and only if the bounds are at most one increment apart, the second value of the loop variable does not
    wrap, and the ranges of further threads do not wrap either.
    */
  lemma Downwards64ExactlyOnce(lower: int, upper: int, incr: int, n: nat)
    requires Downwards(lower, upper, incr) && n > 0
    ensures U64(incr) != 0
    ensures Static64Exact(lower, upper, incr, n) <==> HarmlessDownwards(lower, upper, incr, n)
  {
    if HarmlessDownwards(lower, upper, incr, n) {
      HarmlessIsExact(lower, upper, incr, n);
    } else if lower - upper > -incr {
      LongLoopFails(lower, upper, incr, n);
    } else if lower != upper && lower + incr < 0 {
      WrappedSecondFails(lower, upper, incr, n);
    } else {
      OtherRunsStray(lower, upper, incr, n, CodeSize(lower, upper, incr));
    }
  }
}
