/**
  The epoch barrier of software/snRuntime/src/barrier.c.

  `snrt_cluster_sw_barrier`, `snrt_global_barrier` and `snrt_barrier` run the same algorithm on a
  `struct snrt_barrier`, so one model serves all three.  A fixed set of `n` harts calls the barrier
  over and over.  Every load, store and atomic of the C code is one step, the steps of different
  harts interleave in any order, and memory is sequentially consistent.

  `entered`, `left` and `bumps` are history: they count what happened and no step reads them.
  */
module Barrier {

  /** `uint32_t` arithmetic wraps at this value. */
  const WRAP: nat := 0x1_0000_0000

  /** Where a hart is inside the barrier function. */
  datatype Pc =
    | Outside                // not in a call
    | Loaded(prev: nat)      // remembered `barrier_iteration`, about to add to `barrier`
    | Waiting(prev: nat)     // not the last to arrive, spins on `barrier_iteration`
    | Resetting              // the last to arrive, about to store 0 to `barrier`
    | Bumping                // about to add 1 to `barrier_iteration`

  datatype Hart = Hart(pc: Pc, entered: nat, left: nat)

  datatype State = State(barrier: nat, iteration: nat, harts: seq<Hart>, bumps: nat)

  /** `n` harts outside an idle barrier whose iteration counter holds any 32-bit value. */
  function Init(n: nat, iteration: nat): State {
    State(0, iteration, seq(n, _ => Hart(Outside, 0, 0)), 0)
  }

  /** One step of hart `h`. */
  function Next(s: State, h: nat): State {
    if h >= |s.harts| then s else
    var me := s.harts[h];
    match me.pc
    case Outside =>
      s.(harts := s.harts[h := Hart(Loaded(s.iteration), me.entered + 1, me.left)])
    case Loaded(prev) =>
      var sum := (s.barrier + 1) % WRAP;
      s.(barrier := sum,
         harts := s.harts[h := me.(pc := if sum == |s.harts| then Resetting else Waiting(prev))])
    case Waiting(prev) =>
      if prev == s.iteration then s
      else s.(harts := s.harts[h := Hart(Outside, me.entered, me.left + 1)])
    case Resetting =>
      s.(barrier := 0, harts := s.harts[h := me.(pc := Bumping)])
    case Bumping =>
      s.(iteration := (s.iteration + 1) % WRAP,
         harts := s.harts[h := Hart(Outside, me.entered, me.left + 1)],
         bumps := s.bumps + 1)
  }

  /** The state after a schedule, a list of the harts that step. */
  function Exec(s: State, schedule: seq<nat>): State {
    if schedule == [] then s
    else Next(Exec(s, schedule[..|schedule| - 1]), schedule[|schedule| - 1])
  }

  // ----- Counting arrived harts -----

  /** The hart has added itself to `barrier` in round `r` and has not been released. */
  predicate Arrived(x: Hart, r: nat) {
    match x.pc
    case Waiting(_) => x.entered == r + 1
    case Resetting => true
    case Bumping => true
    case _ => false
  }

  function CountArrived(harts: seq<Hart>, r: nat): nat {
    if harts == [] then 0
    else CountArrived(harts[..|harts| - 1], r) + (if Arrived(harts[|harts| - 1], r) then 1 else 0)
  }

  lemma {:induction false} CountUpdate(harts: seq<Hart>, h: nat, x: Hart, r: nat)
    requires h < |harts|
    ensures CountArrived(harts[h := x], r)
         == CountArrived(harts, r) - (if Arrived(harts[h], r) then 1 else 0) + (if Arrived(x, r) then 1 else 0)
  {
    var k := |harts| - 1;
    if h < k {
      assert harts[h := x][..k] == harts[..k][h := x];
      CountUpdate(harts[..k], h, x, r);
    } else {
      assert harts[h := x][..k] == harts[..k];
    }
  }

  lemma {:induction false} CountBounds(harts: seq<Hart>, r: nat)
    ensures CountArrived(harts, r) <= |harts|
    ensures CountArrived(harts, r) == |harts| <==> forall i :: 0 <= i < |harts| ==> Arrived(harts[i], r)
    ensures CountArrived(harts, r) == 0 <==> forall i :: 0 <= i < |harts| ==> !Arrived(harts[i], r)
  {
    if harts != [] {
      var k := |harts| - 1;
      CountBounds(harts[..k], r);
      assert forall i :: 0 <= i < k ==> harts[..k][i] == harts[i];
      assert harts[k] == harts[|harts| - 1];
    }
  }

  // ----- The invariant -----

  predicate Last(x: Hart) {
    x.pc.Resetting? || x.pc.Bumping?
  }

  /** `it` is the iteration value of round `r`, `it0` that of round 0. */
  predicate IsRound(it: nat, it0: nat, r: int) {
    r >= 0 && it == (it0 + r) % WRAP
  }

  /** What a hart has remembered and counted, `r` being the current round. */
  predicate HartOk(x: Hart, it0: nat, r: nat) {
    match x.pc
    case Outside => x.entered == r && x.left == r
    case Loaded(prev) => x.entered == r + 1 && x.left == r && IsRound(prev, it0, r)
    case Waiting(prev) =>
      || (x.entered == r + 1 && x.left == r && IsRound(prev, it0, r))
      || (x.entered == r && x.left == r - 1 && IsRound(prev, it0, r - 1))
    case _ => x.entered == r + 1 && x.left == r
  }

  /** `barrier` counts the arrived harts, except between the reset and the bump. */
  predicate CounterOk(s: State) {
    var c := CountArrived(s.harts, s.bumps);
    && (forall i :: 0 <= i < |s.harts| && s.harts[i].pc.Bumping? ==> s.barrier == 0 && c == |s.harts|)
    && (forall i :: 0 <= i < |s.harts| && s.harts[i].pc.Resetting? ==> s.barrier == c == |s.harts|)
    && ((forall i :: 0 <= i < |s.harts| ==> !Last(s.harts[i])) ==> s.barrier == c < |s.harts|)
  }

  predicate Inv(s: State, n: nat, it0: nat) {
    && 0 < n == |s.harts| < WRAP
    && IsRound(s.iteration, it0, s.bumps)
    && (forall i :: 0 <= i < n ==> HartOk(s.harts[i], it0, s.bumps))
    && (forall i, j :: 0 <= i < n && 0 <= j < n && Last(s.harts[i]) && Last(s.harts[j]) ==> i == j)
    && CounterOk(s)
  }

  lemma InitInv(n: nat, it0: nat)
    requires 0 < n < WRAP && it0 < WRAP
    ensures Inv(Init(n, it0), n, it0)
  {
    CountBounds(Init(n, it0).harts, 0);
  }

  lemma NextRound(it: nat, it0: nat, r: nat)
    requires IsRound(it, it0, r)
    ensures IsRound((it + 1) % WRAP, it0, r + 1)
  {}

  /** While some hart has not arrived, no hart is last and `barrier` is below the number of harts. */
  lemma NobodyIsLast(s: State, h: nat, n: nat, it0: nat)
    requires Inv(s, n, it0) && h < n && !Arrived(s.harts[h], s.bumps)
    ensures forall i :: 0 <= i < n ==> !Last(s.harts[i])
    ensures s.barrier == CountArrived(s.harts, s.bumps) < n
  {
    CountBounds(s.harts, s.bumps);
  }

  /** A step of a hart that has not arrived, and is last afterwards exactly if it completes the count. */
  lemma StepBeforeArrival(s: State, t: State, h: nat, n: nat, it0: nat)
    requires Inv(s, n, it0) && h < n == |t.harts| && !Arrived(s.harts[h], s.bumps)
    requires t == State(t.barrier, s.iteration, s.harts[h := t.harts[h]], s.bumps)
    requires HartOk(t.harts[h], it0, s.bumps) && !t.harts[h].pc.Bumping?
    requires t.barrier == CountArrived(t.harts, s.bumps) && (t.harts[h].pc.Resetting? <==> t.barrier == n)
    ensures Inv(t, n, it0)
  {
    NobodyIsLast(s, h, n, it0);
    CountBounds(t.harts, t.bumps);
    forall i | 0 <= i < n && i != h
      ensures HartOk(t.harts[i], it0, t.bumps) && !Last(t.harts[i])
    {
      assert t.harts[i] == s.harts[i];
    }
  }

  lemma StepOutside(s: State, h: nat, n: nat, it0: nat)
    requires Inv(s, n, it0) && h < n && s.harts[h].pc.Outside?
    ensures Inv(Next(s, h), n, it0)
  {
    var t := Next(s, h);
    NobodyIsLast(s, h, n, it0);
    CountUpdate(s.harts, h, t.harts[h], s.bumps);
    StepBeforeArrival(s, t, h, n, it0);
  }

  lemma StepLoaded(s: State, h: nat, n: nat, it0: nat)
    requires Inv(s, n, it0) && h < n && s.harts[h].pc.Loaded?
    ensures Inv(Next(s, h), n, it0)
  {
    var t := Next(s, h);
    NobodyIsLast(s, h, n, it0);
    CountUpdate(s.harts, h, t.harts[h], s.bumps);
    StepBeforeArrival(s, t, h, n, it0);
  }

  lemma StepWaiting(s: State, h: nat, n: nat, it0: nat)
    requires Inv(s, n, it0) && h < n && s.harts[h].pc.Waiting?
    ensures Inv(Next(s, h), n, it0)
  {
    if s.harts[h].pc.prev != s.iteration {
      var t := Next(s, h);
      assert HartOk(s.harts[h], it0, s.bumps);
      NobodyIsLast(s, h, n, it0);
      CountUpdate(s.harts, h, t.harts[h], s.bumps);
      StepBeforeArrival(s, t, h, n, it0);
    }
  }

  lemma StepResetting(s: State, h: nat, n: nat, it0: nat)
    requires Inv(s, n, it0) && h < n && s.harts[h].pc.Resetting?
    ensures Inv(Next(s, h), n, it0)
  {
    CountUpdate(s.harts, h, Next(s, h).harts[h], s.bumps);
    assert Last(Next(s, h).harts[h]);
  }

  /** To a hart that waits in round `r`, the bump is its release. */
  lemma Released(x: Hart, it0: nat, r: nat)
    requires HartOk(x, it0, r) && x.pc.Waiting? && Arrived(x, r)
    ensures HartOk(x, it0, r + 1) && !Arrived(x, r + 1)
  {}

  lemma StepBumping(s: State, h: nat, n: nat, it0: nat)
    requires Inv(s, n, it0) && h < n && s.harts[h].pc.Bumping?
    ensures Inv(Next(s, h), n, it0)
  {
    var t := Next(s, h);
    CountBounds(s.harts, s.bumps);
    assert Last(s.harts[h]) && HartOk(s.harts[h], it0, s.bumps);
    forall i | 0 <= i < n
      ensures HartOk(t.harts[i], it0, t.bumps) && !Last(t.harts[i]) && !Arrived(t.harts[i], t.bumps)
    {
      if i != h {
        assert Arrived(s.harts[i], s.bumps) && HartOk(s.harts[i], it0, s.bumps) && !Last(s.harts[i]);
        Released(s.harts[i], it0, s.bumps);
      }
    }
    NextRound(s.iteration, it0, s.bumps);
    CountBounds(t.harts, t.bumps);
  }

  lemma NextInv(s: State, h: nat, n: nat, it0: nat)
    requires Inv(s, n, it0)
    ensures Inv(Next(s, h), n, it0)
  {
    if h < n {
      match s.harts[h].pc
      case Outside => StepOutside(s, h, n, it0);
      case Loaded(_) => StepLoaded(s, h, n, it0);
      case Waiting(_) => StepWaiting(s, h, n, it0);
      case Resetting => StepResetting(s, h, n, it0);
      case Bumping => StepBumping(s, h, n, it0);
    }
  }

  /** Every schedule of any length keeps the invariant. */
  lemma {:induction false} ExecInv(n: nat, it0: nat, schedule: seq<nat>)
    requires 0 < n < WRAP && it0 < WRAP
    ensures Inv(Exec(Init(n, it0), schedule), n, it0)
  {
    if schedule == [] {
      InitInv(n, it0);
    } else {
      var k := |schedule| - 1;
      ExecInv(n, it0, schedule[..k]);
      NextInv(Exec(Init(n, it0), schedule[..k]), schedule[k], n, it0);
    }
  }

  // ----- Main results -----

  /**
    No hart leaves its k-th call before all harts have entered their k-th call: in every reachable
    state, the number of calls any hart has left is at most the number any other has entered.
    */
  lemma NobodyLeavesEarly(n: nat, it0: nat, schedule: seq<nat>, a: nat, b: nat)
    requires 0 < n < WRAP && it0 < WRAP && a < n && b < n
    ensures var s := Exec(Init(n, it0), schedule);
            |s.harts| == n && s.harts[a].left <= s.harts[b].entered
  {
    ExecInv(n, it0, schedule);
    var s := Exec(Init(n, it0), schedule);
    assert HartOk(s.harts[a], it0, s.bumps) && HartOk(s.harts[b], it0, s.bumps);
  }

  /** Any two harts are at most one round apart, in calls entered and in calls left. */
  lemma AtMostOneRoundApart(n: nat, it0: nat, schedule: seq<nat>, a: nat, b: nat)
    requires 0 < n < WRAP && it0 < WRAP && a < n && b < n
    ensures var s := Exec(Init(n, it0), schedule);
            && |s.harts| == n
            && s.harts[a].entered <= s.harts[b].entered + 1
            && s.harts[a].left <= s.harts[b].left + 1
  {
    ExecInv(n, it0, schedule);
    var s := Exec(Init(n, it0), schedule);
    assert HartOk(s.harts[a], it0, s.bumps) && HartOk(s.harts[b], it0, s.bumps);
  }

  /**
    Outside the window between reset and bump, `barrier` is the number of arrived harts.  Inside the
    window `barrier` is 0, all harts have arrived and all others wait on an unchanged iteration.
    */
  lemma CounterBookkeeping(n: nat, it0: nat, schedule: seq<nat>)
    requires 0 < n < WRAP && it0 < WRAP
    ensures var s := Exec(Init(n, it0), schedule);
            (forall i :: 0 <= i < |s.harts| ==> !s.harts[i].pc.Bumping?)
            ==> s.barrier == CountArrived(s.harts, s.bumps)
    ensures var s := Exec(Init(n, it0), schedule);
            forall i, j :: 0 <= i < |s.harts| && 0 <= j < |s.harts| && i != j && s.harts[i].pc.Bumping?
              ==> s.barrier == 0 && s.harts[j].pc == Waiting(s.iteration)
  {
    ExecInv(n, it0, schedule);
    var s := Exec(Init(n, it0), schedule);
    CountBounds(s.harts, s.bumps);
    if (forall i :: 0 <= i < |s.harts| ==> !s.harts[i].pc.Bumping?)
       && !(forall i :: 0 <= i < |s.harts| ==> !Last(s.harts[i])) {
      var i :| 0 <= i < |s.harts| && Last(s.harts[i]);
      assert s.harts[i].pc.Resetting?;
    }
    forall i, j | 0 <= i < |s.harts| && 0 <= j < |s.harts| && i != j && s.harts[i].pc.Bumping?
      ensures s.barrier == 0 && s.harts[j].pc == Waiting(s.iteration)
    {
      assert Arrived(s.harts[j], s.bumps) && HartOk(s.harts[j], it0, s.bumps);
      assert Last(s.harts[i]) && !Last(s.harts[j]);
    }
  }

  /** The hart's next step changes the state: it is not a failing spin. */
  predicate CanStep(s: State, h: nat) {
    h < |s.harts| && s.harts[h].pc != Waiting(s.iteration)
  }

  /** In every reachable state some hart can make progress. */
  lemma SomeHartCanStep(n: nat, it0: nat, schedule: seq<nat>)
    requires 0 < n < WRAP && it0 < WRAP
    ensures exists h :: CanStep(Exec(Init(n, it0), schedule), h)
  {
    ExecInv(n, it0, schedule);
    var s := Exec(Init(n, it0), schedule);
    if forall h :: 0 <= h < n ==> !CanStep(s, h) {
      forall i | 0 <= i < n
        ensures Arrived(s.harts[i], s.bumps) && !Last(s.harts[i])
      {
        assert !CanStep(s, i) && HartOk(s.harts[i], it0, s.bumps);
        assert s.harts[i].pc == Waiting(s.iteration) && IsRound(s.iteration, it0, s.bumps);
      }
      CountBounds(s.harts, s.bumps);
      assert false;
    }
  }

  /** How far a hart has come since the last bump, `r` being the current round. */
  function Work(x: Hart, r: nat): nat {
    match x.pc
    case Waiting(_) => if x.entered == r + 1 then 3 else 0
    case Outside => 1
    case Loaded(_) => 2
    case Resetting => 3
    case Bumping => 4
  }

  function TotalWork(harts: seq<Hart>, r: nat): nat {
    if harts == [] then 0
    else TotalWork(harts[..|harts| - 1], r) + Work(harts[|harts| - 1], r)
  }

  lemma {:induction false} TotalWorkUpdate(harts: seq<Hart>, h: nat, x: Hart, r: nat)
    requires h < |harts|
    ensures TotalWork(harts[h := x], r) == TotalWork(harts, r) - Work(harts[h], r) + Work(x, r)
  {
    var k := |harts| - 1;
    if h < k {
      assert harts[h := x][..k] == harts[..k][h := x];
      TotalWorkUpdate(harts[..k], h, x, r);
    } else {
      assert harts[h := x][..k] == harts[..k];
    }
  }

  lemma {:induction false} TotalWorkBound(harts: seq<Hart>, r: nat)
    ensures TotalWork(harts, r) <= 4 * |harts|
  {
    if harts != [] {
      TotalWorkBound(harts[..|harts| - 1], r);
    }
  }

  /**
    A round completes: every step that is not a failing spin either bumps the iteration or adds one
    to a total that never exceeds 4n.  With `SomeHartCanStep` this bounds the work between two bumps.
    */
  lemma RoundsComplete(n: nat, it0: nat, schedule: seq<nat>, h: nat)
    requires 0 < n < WRAP && it0 < WRAP
    requires CanStep(Exec(Init(n, it0), schedule), h)
    ensures var s := Exec(Init(n, it0), schedule);
            var t := Exec(Init(n, it0), schedule + [h]);
            && TotalWork(s.harts, s.bumps) <= 4 * n
            && (t.bumps == s.bumps + 1
                || (t.bumps == s.bumps && TotalWork(t.harts, t.bumps) == TotalWork(s.harts, s.bumps) + 1))
  {
    ExecInv(n, it0, schedule);
    var s := Exec(Init(n, it0), schedule);
    assert (schedule + [h])[..|schedule|] == schedule;
    var t := Next(s, h);
    assert HartOk(s.harts[h], it0, s.bumps);
    TotalWorkBound(s.harts, s.bumps);
    TotalWorkUpdate(s.harts, h, t.harts[h], s.bumps);
  }

  // ----- The barrier in memory -----

  /** `struct snrt_barrier` with the program counters of the harts that use it. */
  class SnrtBarrier {
    var barrier: nat
    var barrier_iteration: nat
    var harts: seq<Hart>
    ghost var bumps: nat

    ghost function View(): State
      reads this
    {
      State(barrier, barrier_iteration, harts, bumps)
    }

    constructor (n: nat, iteration: nat)
      ensures View() == Init(n, iteration)
    {
      barrier, barrier_iteration, bumps := 0, iteration, 0;
      harts := seq(n, _ => Hart(Outside, 0, 0));
    }

    /** Executes the next memory access of hart `h`. */
    method Step(h: nat)
      modifies this
      ensures View() == Next(old(View()), h)
    {
      if h < |harts| {
        var me := harts[h];
        match me.pc {
          case Outside =>
            harts := harts[h := Hart(Loaded(barrier_iteration), me.entered + 1, me.left)];
          case Loaded(prev) =>
            barrier := (barrier + 1) % WRAP;
            if barrier == |harts| {
              harts := harts[h := me.(pc := Resetting)];
            } else {
              harts := harts[h := me.(pc := Waiting(prev))];
            }
          case Waiting(prev) =>
            if prev != barrier_iteration {
              harts := harts[h := me.(pc := Outside, left := me.left + 1)];
            }
          case Resetting =>
            barrier := 0;
            harts := harts[h := me.(pc := Bumping)];
          case Bumping =>
            barrier_iteration := (barrier_iteration + 1) % WRAP;
            bumps := bumps + 1;
            harts := harts[h := me.(pc := Outside, left := me.left + 1)];
        }
      }
    }

    /** Executes a whole schedule; whatever it is, nobody leaves early. */
    method Run(schedule: seq<nat>, ghost it0: nat)
      requires 0 < |harts| < WRAP && it0 < WRAP && View() == Init(|harts|, it0)
      modifies this
      ensures View() == Exec(old(View()), schedule)
      ensures forall a, b :: 0 <= a < |harts| && 0 <= b < |harts| ==> harts[a].left <= harts[b].entered
    {
      ghost var n := |harts|;
      for i := 0 to |schedule|
        invariant View() == Exec(old(View()), schedule[..i])
      {
        assert schedule[..i + 1][..i] == schedule[..i];
        Step(schedule[i]);
      }
      assert schedule[..|schedule|] == schedule;
      forall a, b | 0 <= a < |harts| && 0 <= b < |harts| ensures harts[a].left <= harts[b].entered {
        ExecInv(n, it0, schedule);
        NobodyLeavesEarly(n, it0, schedule, a, b);
      }
    }
  }
}
