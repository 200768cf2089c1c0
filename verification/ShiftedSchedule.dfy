/**
  Static schedules without a chunk size, for a positive increment: the first `LeftOver` threads get one iteration
  more than the others, and the others are shifted by some number of values.  `n` is the number of threads.
  */
module ShiftedSchedule {
  import opened Arithmetic
  import opened Loops

  function Base(size: int, n: nat): int
    requires n > 0
  {
    size / n
  }

  function LeftOver(size: int, n: nat): int
    requires n > 0
  {
    size - Base(size, n) * n
  }

  /** How many iterations thread `t` gets. */
  function Share(size: int, n: nat, t: nat): int
    requires n > 0
  {
    Base(size, n) + (if t < LeftOver(size, n) then 1 else 0)
  }

  /** Where thread `t` starts: the threads from the leftover on start `shift` later. */
  function ShiftedLower(lower: int, upper: int, incr: int, shift: int, n: nat, t: nat): int
    requires incr > 0 && n > 0
  {
    var size := Size(lower, upper, incr);
    lower + t * Share(size, n, t) * incr + (if t < LeftOver(size, n) then 0 else shift)
  }

  predicate ShiftedRuns(lower: int, upper: int, incr: int, shift: int, n: nat, t: nat, x: int)
    requires incr > 0 && n > 0
  {
    var lo := ShiftedLower(lower, upper, incr, shift, n, t);
    Runs(lo, lo + Share(Size(lower, upper, incr), n, t) * incr - incr, incr, x)
  }

  /** Every iteration is executed by exactly one thread and nothing else is executed. */
  ghost predicate ShiftedExact(lower: int, upper: int, incr: int, shift: int, n: nat)
    requires incr > 0 && n > 0
  {
    && (forall x, t ::
        0 <= t < n && ShiftedRuns(lower, upper, incr, shift, n, t, x) ==> IsIteration(lower, upper, incr, x))
    && (forall x ::
        IsIteration(lower, upper, incr, x) ==>
          exists t :: 0 <= t < n && ShiftedRuns(lower, upper, incr, shift, n, t, x))
    && (forall x, t, u | 0 <= t < n && 0 <= u < n ::
        ShiftedRuns(lower, upper, incr, shift, n, t, x) && ShiftedRuns(lower, upper, incr, shift, n, u, x) ==> t == u)
  }

  /** The number of iterations before those of thread `t`. */
  function First(size: int, n: nat, t: nat): int
    requires n > 0
  {
    t * Base(size, n) + (if t < LeftOver(size, n) then t else LeftOver(size, n))
  }

  lemma BaseAndLeftOver(size: int, n: nat)
    requires n > 0 && size > 0
    ensures 0 <= LeftOver(size, n) < n && Base(size, n) >= 0 && Base(size, n) * n + LeftOver(size, n) == size
  {
    DivBounds(size, n);
    ScaleOrder(Base(size, n) + 1, 0, n);
  }

  lemma FirstSteps(size: int, n: nat, t: nat)
    requires n > 0 && size > 0
    ensures First(size, n, 0) == 0 && First(size, n, n) == size
    ensures First(size, n, t + 1) == First(size, n, t) + Share(size, n, t)
    ensures 0 <= LeftOver(size, n) < n && Base(size, n) >= 0 && Share(size, n, t) >= 0
  {
    BaseAndLeftOver(size, n);
    Distribute(t, 1, Base(size, n));
  }

  lemma {:induction false} FirstMonotone(size: int, n: nat, t: nat, u: nat)
    requires n > 0 && size > 0 && t <= u
    ensures First(size, n, t) <= First(size, n, u)
    decreases u
  {
    if t < u {
      FirstMonotone(size, n, t, u - 1);
      FirstSteps(size, n, u - 1);
    }
  }

  /** Some thread below `u` has the i-th iteration. */
  lemma {:induction false} FindOwner(size: int, n: nat, i: int, u: nat) returns (t: nat)
    requires n > 0 && size > 0 && 0 <= i < First(size, n, u)
    ensures t < u && First(size, n, t) <= i < First(size, n, t + 1)
  {
    FirstSteps(size, n, 0);
    t := u - 1;
    if i < First(size, n, t) {
      t := FindOwner(size, n, i, t);
    }
  }

  /** The condition under which the shift does no harm: it is the leftover's extent, or nobody there has a share. */
  predicate Harmless(lower: int, upper: int, incr: int, shift: int, n: nat)
    requires incr > 0 && n > 0
  {
    var size := Size(lower, upper, incr);
    shift == LeftOver(size, n) * incr || size < n
  }

  /** The shifts that the code makes: the leftover, for a negative increment in the wrong direction. */
  predicate IsShift(lower: int, upper: int, incr: int, shift: int, n: nat)
    requires incr > 0 && n > 0
  {
    var left := LeftOver(Size(lower, upper, incr), n);
    shift == left || shift == -left
  }

  /** If the leftover does no harm, thread `t` runs its share of iterations, from the First on. */
  lemma HarmlessBlock(lower: int, upper: int, incr: int, shift: int, n: nat, t: nat)
    requires incr > 0 && n > 0 && lower <= upper && t < n && Harmless(lower, upper, incr, shift, n)
    ensures var size := Size(lower, upper, incr);
            var lo := ShiftedLower(lower, upper, incr, shift, n, t);
            Share(size, n, t) > 0 ==> lo == lower + First(size, n, t) * incr
  {
    var size := Size(lower, upper, incr);
    var f, len := First(size, n, t), Share(size, n, t);
    IterationBounds(lower, upper, incr, 0);
    FirstSteps(size, n, t);
    if t < LeftOver(size, n) {
      assert t * len == f;
    } else if len > 0 {
      SmallLoopShare(size, n, t);
      Distribute(t * len, LeftOver(size, n), incr);
    }
  }

  lemma HarmlessRuns(lower: int, upper: int, incr: int, shift: int, n: nat, t: nat, i: int)
    requires incr > 0 && n > 0 && lower <= upper && t < n && Harmless(lower, upper, incr, shift, n)
    ensures var size := Size(lower, upper, incr);
            var x := lower + i * incr;
            ShiftedRuns(lower, upper, incr, shift, n, t, x) <==> First(size, n, t) <= i < First(size, n, t + 1)
  {
    var size := Size(lower, upper, incr);
    IterationBounds(lower, upper, incr, 0);
    FirstSteps(size, n, t);
    HarmlessBlock(lower, upper, incr, shift, n, t);
    BlockRunsAt(lower, incr, First(size, n, t), Share(size, n, t), i);
  }

  lemma HarmlessRunsOnly(lower: int, upper: int, incr: int, shift: int, n: nat, t: nat, x: int) returns (i: int)
    requires incr > 0 && n > 0 && lower <= upper && t < n && Harmless(lower, upper, incr, shift, n)
    requires ShiftedRuns(lower, upper, incr, shift, n, t, x)
    ensures var size := Size(lower, upper, incr);
            x == lower + i * incr && First(size, n, t) <= i < First(size, n, t + 1)
  {
    var size := Size(lower, upper, incr);
    IterationBounds(lower, upper, incr, 0);
    FirstSteps(size, n, t);
    HarmlessBlock(lower, upper, incr, shift, n, t);
    i := BlockRunsOnly(lower, incr, First(size, n, t), Share(size, n, t), x);
  }

  /** With fewer iterations than threads, the threads beyond the leftover get none. */
  lemma SmallLoopShare(size: int, n: nat, t: nat)
    requires n > 0 && 0 < size && t >= LeftOver(size, n)
    ensures size < n ==> Share(size, n, t) == 0
  {
    if size < n {
      DivUnique(size, n, 0);
    }
  }

  lemma HarmlessIsExact(lower: int, upper: int, incr: int, shift: int, n: nat)
    requires incr > 0 && n > 0 && lower <= upper && Harmless(lower, upper, incr, shift, n)
    ensures ShiftedExact(lower, upper, incr, shift, n)
  {
    var size := Size(lower, upper, incr);
    forall x, t | 0 <= t < n && ShiftedRuns(lower, upper, incr, shift, n, t, x)
      ensures IsIteration(lower, upper, incr, x)
    {
      var i := HarmlessRunsOnly(lower, upper, incr, shift, n, t, x);
      IterationBounds(lower, upper, incr, i);
      FirstSteps(size, n, t);
      FirstMonotone(size, n, 0, t);
      FirstMonotone(size, n, t + 1, n);
    }
    forall x | IsIteration(lower, upper, incr, x)
      ensures exists t :: 0 <= t < n && ShiftedRuns(lower, upper, incr, shift, n, t, x)
    {
      IndexOf(lower, incr, x);
      var i := (x - lower) / incr;
      IterationBounds(lower, upper, incr, i);
      FirstSteps(size, n, 0);
      var t := FindOwner(size, n, i, n);
      HarmlessRuns(lower, upper, incr, shift, n, t, i);
    }
    forall x, t, u | 0 <= t < n && 0 <= u < n && ShiftedRuns(lower, upper, incr, shift, n, t, x)
                     && ShiftedRuns(lower, upper, incr, shift, n, u, x)
      ensures t == u
    {
      HarmlessDisjoint(lower, upper, incr, shift, n, t, u, x);
      HarmlessDisjoint(lower, upper, incr, shift, n, u, t, x);
    }
  }

  lemma HarmlessDisjoint(lower: int, upper: int, incr: int, shift: int, n: nat, t: nat, u: nat, x: int)
    requires incr > 0 && n > 0 && lower <= upper && Harmless(lower, upper, incr, shift, n)
    requires t < n && u < n && ShiftedRuns(lower, upper, incr, shift, n, t, x)
    requires ShiftedRuns(lower, upper, incr, shift, n, u, x)
    ensures t >= u
  {
    var size := Size(lower, upper, incr);
    IterationBounds(lower, upper, incr, 0);
    var i := HarmlessRunsOnly(lower, upper, incr, shift, n, t, x);
    HarmlessRuns(lower, upper, incr, shift, n, u, i);
    if t < u {
      FirstMonotone(size, n, t + 1, u);
    }
  }

  /** If the shift does harm, the first thread past the leftover starts at the wrong place, within the loop. */
  lemma HarmfulStart(lower: int, upper: int, incr: int, shift: int, n: nat)
    requires incr > 0 && n > 0 && lower <= upper
    requires IsShift(lower, upper, incr, shift, n) && !Harmless(lower, upper, incr, shift, n)
    ensures var size := Size(lower, upper, incr);
            var left := LeftOver(size, n);
            var x := ShiftedLower(lower, upper, incr, shift, n, left);
            && size >= n && 0 < left < n && Base(size, n) >= 1 && Share(size, n, left) == Base(size, n)
            && x == lower + (left * Base(size, n)) * incr + shift
            && ShiftedRuns(lower, upper, incr, shift, n, left, x)
  {
    var size := Size(lower, upper, incr);
    IterationBounds(lower, upper, incr, 0);
    BaseAndLeftOver(size, n);
    var left, base := LeftOver(size, n), Base(size, n);
    AtLeastOne(size, n);
    ScaleOrder(1, base, incr);
  }

  lemma AtLeastOne(size: int, n: nat)
    requires 0 < n <= size
    ensures Base(size, n) >= 1
  {
    DivBounds(size, n);
    ScaleOrder(Base(size, n) + 1, 1, n);
  }

  /** The position of that start, as an index, if it is a value of the loop variable. */
  lemma HarmfulIndex(lower: int, upper: int, incr: int, shift: int, n: nat)
    requires incr > 0 && n > 0 && lower <= upper
    requires IsShift(lower, upper, incr, shift, n) && !Harmless(lower, upper, incr, shift, n) && shift % incr == 0
    ensures var size := Size(lower, upper, incr);
            var left, base := LeftOver(size, n), Base(size, n);
            0 <= left * base + shift / incr < left * (base + 1)
  {
    var size := Size(lower, upper, incr);
    HarmfulStart(lower, upper, incr, shift, n);
    ShiftQuotient(shift, LeftOver(size, n), incr);
    IndexWithin(LeftOver(size, n), Base(size, n), shift / incr);
  }

  lemma ShiftQuotient(shift: int, left: int, incr: int)
    requires left > 0 && incr > 0 && (shift == -left || (shift == left && incr > 1)) && shift % incr == 0
    ensures -left <= shift / incr < left
  {
    DivBounds(shift, incr);
    ScaleOrder(shift / incr, 0, incr);
    if shift == left {
      SmallQuotient(left, incr);
    } else {
      ScaleOrder(1, incr, -(shift / incr));
    }
  }

  lemma IndexWithin(left: int, base: int, m: int)
    requires left > 0 && base >= 1 && -left <= m < left
    ensures 0 <= left * base + m < left * (base + 1)
  {
    ScaleOrder(1, base, left);
    Distribute(base, 1, left);
  }

  /** If that start is a value of the loop variable, it belongs to a thread below the leftover as well. */
  lemma HarmfulOverlap(lower: int, upper: int, incr: int, shift: int, n: nat) returns (t: nat)
    requires incr > 0 && n > 0 && lower <= upper
    requires IsShift(lower, upper, incr, shift, n) && !Harmless(lower, upper, incr, shift, n) && shift % incr == 0
    ensures var left := LeftOver(Size(lower, upper, incr), n);
            t < left && ShiftedRuns(lower, upper, incr, shift, n, t, ShiftedLower(lower, upper, incr, shift, n, left))
  {
    var size := Size(lower, upper, incr);
    var left, base, m := LeftOver(size, n), Base(size, n), shift / incr;
    HarmfulStart(lower, upper, incr, shift, n);
    HarmfulIndex(lower, upper, incr, shift, n);
    DivBounds(shift, incr);
    Distribute(left * base, m, incr);
    assert ShiftedLower(lower, upper, incr, shift, n, left) == lower + (left * base + m) * incr;
    t := HarmfulOwner(lower, upper, incr, shift, n, left * base + m);
  }

  lemma SmallQuotient(a: int, b: int)
    requires a > 0 && b > 1 && a % b == 0
    ensures 0 < a / b < a && a == (a / b) * b
  {
    DivBounds(a, b);
    ScaleOrder(a / b, 0, b);
    ScaleOrder(2, b, a / b);
  }

  /** Otherwise it is not a value of the loop variable at all. */
  lemma HarmfulStray(lower: int, upper: int, incr: int, shift: int, n: nat)
    requires incr > 0 && n > 0 && lower <= upper
    requires IsShift(lower, upper, incr, shift, n) && !Harmless(lower, upper, incr, shift, n) && shift % incr != 0
    ensures var left := LeftOver(Size(lower, upper, incr), n);
            !IsIteration(lower, upper, incr, ShiftedLower(lower, upper, incr, shift, n, left))
  {
    var size := Size(lower, upper, incr);
    var left, base := LeftOver(size, n), Base(size, n);
    HarmfulStart(lower, upper, incr, shift, n);
    DivBounds(shift, incr);
    RemainderNat(shift, incr);
    Distribute(left * base, shift / incr, incr);
    NotOnGrid(lower, incr, left * base + shift / incr, shift % incr);
  }

  lemma HarmfulIsNotExact(lower: int, upper: int, incr: int, shift: int, n: nat)
    requires incr > 0 && n > 0 && lower <= upper
    requires IsShift(lower, upper, incr, shift, n) && !Harmless(lower, upper, incr, shift, n)
    ensures !ShiftedExact(lower, upper, incr, shift, n)
  {
    var left := LeftOver(Size(lower, upper, incr), n);
    HarmfulStart(lower, upper, incr, shift, n);
    var x := ShiftedLower(lower, upper, incr, shift, n, left);
    if shift % incr == 0 {
      var t := HarmfulOverlap(lower, upper, incr, shift, n);
      assert ShiftedRuns(lower, upper, incr, shift, n, t, x) && ShiftedRuns(lower, upper, incr, shift, n, left, x);
    } else {
      HarmfulStray(lower, upper, incr, shift, n);
    }
  }

  lemma NotOnGrid(lower: int, incr: int, i: int, r: int)
    requires 0 < r < incr
    ensures (lower + i * incr + r - lower) % incr != 0
  {
    var d := lower + i * incr + r - lower;
    assert d == i * incr + r;
    DivUnique(d, incr, i);
    DivBounds(d, incr);
  }

  /** A thread below the leftover runs its share, harm or not; so the first iterations have an owner there. */
  lemma HarmfulOwner(lower: int, upper: int, incr: int, shift: int, n: nat, i: int) returns (t: nat)
    requires incr > 0 && n > 0 && lower <= upper
    requires var size := Size(lower, upper, incr); 0 <= i < LeftOver(size, n) * (Base(size, n) + 1)
    ensures t < LeftOver(Size(lower, upper, incr), n) && ShiftedRuns(lower, upper, incr, shift, n, t, lower + i * incr)
  {
    var size := Size(lower, upper, incr);
    IterationBounds(lower, upper, incr, 0);
    FirstSteps(size, n, 0);
    var left := LeftOver(size, n);
    assert First(size, n, left) == left * (Base(size, n) + 1);
    t := FindOwner(size, n, i, left);
    FirstSteps(size, n, t);
    assert t * Share(size, n, t) == First(size, n, t);
    BlockRunsAt(lower, incr, First(size, n, t), Share(size, n, t), i);
  }

  /** A shifted schedule hands out every iteration exactly once if and only if the shift does no harm. */
  lemma ShiftedExactIff(lower: int, upper: int, incr: int, shift: int, n: nat)
    requires incr > 0 && n > 0 && lower <= upper && IsShift(lower, upper, incr, shift, n)
    ensures ShiftedExact(lower, upper, incr, shift, n) <==> Harmless(lower, upper, incr, shift, n)
  {
    if Harmless(lower, upper, incr, shift, n) {
      HarmlessIsExact(lower, upper, incr, shift, n);
    } else {
      HarmfulIsNotExact(lower, upper, incr, shift, n);
    }
  }

  // ----- The code's shift, the leftover: the ends of the ranges -----

  lemma NoShare(size: int, n: nat, t: nat)
    requires 0 < size && n > 0
    ensures size < n ==>
      Base(size, n) == 0 && LeftOver(size, n) == size && Share(size, n, t) == if t < size then 1 else 0
    ensures size >= n ==> Share(size, n, t) >= 1
  {
    if size < n {
      DivUnique(size, n, 0);
    } else {
      AtLeastOne(size, n);
    }
  }

  /** A thread with a share starts and ends within the loop. */
  lemma ShareWithin(lower: int, upper: int, incr: int, n: nat, t: nat)
    requires incr > 0 && n > 0 && lower <= upper && t < n && Share(Size(lower, upper, incr), n, t) >= 1
    ensures var size := Size(lower, upper, incr);
            var lo := ShiftedLower(lower, upper, incr, LeftOver(size, n), n, t);
            lower <= lo <= lo + Share(size, n, t) * incr - incr <= upper
  {
    var size := Size(lower, upper, incr);
    var left, share, f := LeftOver(size, n), Share(size, n, t), First(size, n, t);
    IterationBounds(lower, upper, incr, 0);
    BaseAndLeftOver(size, n);
    FirstSteps(size, n, t);
    FirstMonotone(size, n, t + 1, n);
    IterationBounds(lower, upper, incr, f + share - 1);
    FirstMonotone(size, n, 0, t);
    StartAtMost(t, Base(size, n), left, incr, share, f);
  }

  lemma StartAtMost(t: nat, base: int, left: int, incr: int, share: int, f: int)
    requires incr > 0 && share >= 1 && left >= 0 && base >= 0
    requires if t < left then share == base + 1 && f == t * base + t else share == base && f == t * base + left
    ensures 0 <= t * share * incr + (if t < left then 0 else left) <= f * incr
    ensures f * incr + share * incr - incr == (f + share - 1) * incr && share * incr >= incr
  {
    Distribute(f, share - 1, incr);
    Distribute(share, -1, incr);
    ScaleOrder(1, share, incr);
    ScaleOrder(0, t, share);
    ScaleOrder(0, t * share, incr);
    ScaledAtLeast(left, incr);
    Distribute(base, 1, t);
    Distribute(t * share, left, incr);
  }

  /** A thread with a share ends at the upper bound exactly if it runs it. */
  lemma EndsAtUpper(lower: int, upper: int, incr: int, n: nat, t: nat)
    requires incr > 0 && n > 0 && lower <= upper && t < n && Share(Size(lower, upper, incr), n, t) >= 1
    ensures var size := Size(lower, upper, incr);
            var left := LeftOver(size, n);
            ShiftedLower(lower, upper, incr, left, n, t) + Share(size, n, t) * incr - incr == upper
            <==> ShiftedRuns(lower, upper, incr, left, n, t, upper)
  {
    var share := Share(Size(lower, upper, incr), n, t);
    ShareWithin(lower, upper, incr, n, t);
    MultipleMod(share - 1, incr);
    Distribute(share, -1, incr);
  }

  /** A harmful leftover keeps every thread below the upper bound. */
  lemma HarmfulEndsBelow(lower: int, upper: int, incr: int, n: nat, t: nat)
    requires incr > 1 && n > 0 && lower <= upper && t < n
    requires var size := Size(lower, upper, incr); size >= n && LeftOver(size, n) > 0
    ensures var size := Size(lower, upper, incr);
            ShiftedLower(lower, upper, incr, LeftOver(size, n), n, t) + Share(size, n, t) * incr - incr < upper
  {
    var size := Size(lower, upper, incr);
    var left, share, f := LeftOver(size, n), Share(size, n, t), First(size, n, t);
    BaseAndLeftOver(size, n);
    NoShare(size, n, t);
    SharesBefore(size, n, t);
    IterationBounds(lower, upper, incr, size - 1);
    EndOfRange(t, Base(size, n), left, incr, share, f);
    EndIsBelow(size, incr, left, share, f, t < left);
  }

  /** Where every thread has a share, those below the leftover are not the last. */
  lemma SharesBefore(size: int, n: nat, t: nat)
    requires size >= n > t
    ensures First(size, n, t) + Share(size, n, t) <= if t < LeftOver(size, n) then size - 1 else size
  {
    FirstSteps(size, n, t);
    FirstSteps(size, n, n - 1);
    NoShare(size, n, n - 1);
    FirstMonotone(size, n, t + 1, n);
    if t < LeftOver(size, n) {
      FirstMonotone(size, n, t + 1, n - 1);
    }
  }

  lemma EndIsBelow(size: int, incr: int, left: int, share: int, f: int, early: bool)
    requires incr > 1 && left > 0 && f + share <= if early then size - 1 else size
    ensures (f + share - 1) * incr - (if early then 0 else left * incr - left) < (size - 1) * incr
  {
    ScaleOrder(f + share - 1, if early then size - 2 else size - 1, incr);
    Distribute(size - 2, 1, incr);
    StrictlyScaled(left, incr);
  }

  lemma StrictlyScaled(a: int, incr: int)
    requires a > 0 && incr > 1
    ensures a * incr > a
  {
    ScaleOrder(1, incr, a);
  }

  lemma EndOfRange(t: nat, base: int, left: int, incr: int, share: int, f: int)
    requires incr > 0 && share >= 1 && left >= 0 && base >= 0
    requires if t < left then share == base + 1 && f == t * base + t else share == base && f == t * base + left
    ensures t * share * incr + share * incr - incr
         == (f + share - 1) * incr - if t < left then 0 else left * incr
  {
    Distribute(base, 1, t);
    var g := t * share;
    assert g == if t < left then f else f - left;
    Distribute(g, share - 1, incr);
    Distribute(share, -1, incr);
    Distribute(f + share - 1, -left, incr);
    Negated(left, incr);
  }
}
