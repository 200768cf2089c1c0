/**
  What a call of software/tests/benchmark/mcs_lock.c has done when it returns: acquire has got the lock, try_acquire has
  got it exactly if nobody queued for it, and release has passed it on.
  */
module McsCalls {
  import opened McsLock
  import opened McsSlots

  /** From `t` on, along all of `rest`, the hart is inside a call. */
  ghost predicate InCall(t: State, h: nat, rest: seq<Event>) {
    h < |t.pc| && forall k :: 0 <= k <= |rest| ==> !IdleAt(Exec(t, rest[..k]), h)
  }

  /** The last step of `rest` is the one with which the hart's call returns. */
  ghost predicate Returns(t: State, h: nat, rest: seq<Event>) {
    rest != [] && InCall(t, h, rest[..|rest| - 1]) && IdleAt(Exec(t, rest), h)
  }

  lemma InCallBefore(t: State, h: nat, rest: seq<Event>)
    requires rest != [] && InCall(t, h, rest)
    ensures InCall(t, h, rest[..|rest| - 1]) && h < |Exec(t, rest).pc| && !Exec(t, rest).pc[h].Idle?
  {
    var before := rest[..|rest| - 1];
    forall k | 0 <= k <= |before|
      ensures !IdleAt(Exec(t, before[..k]), h)
    {
      assert before[..k] == rest[..k];
    }
    assert rest[..|rest|] == rest;
    assert !IdleAt(Exec(t, rest[..|rest|]), h);
    ExecKeepsShape(t, rest);
  }

  // ----- What a step of another hart leaves alone -----

  /** A step of hart `g` lets only `g` into a lock or out of one. */
  ghost predicate InsideKept(s: State, t: State, g: nat) {
    forall e: (Lock, nat) :: e.1 != g ==> (e in t.inside <==> e in s.inside)
  }

  lemma AcquireKeepsInside(s: State, g: nat)
    requires g < |s.pc|
    ensures InsideKept(s, StepAcquire(s, g, s.pc[g]), g)
  {}

  lemma ReleaseKeepsInside(s: State, g: nat)
    requires g < |s.pc|
    ensures InsideKept(s, StepRelease(s, g, s.pc[g]), g)
  {}

  lemma HeldKept(s: State, g: nat, call: Call, h: nat)
    requires g != h && h < |s.pc|
    ensures var t := Next(s, g, call);
            && Held(t, h) == Held(s, h) && UsedSlots(t, h) == UsedSlots(s, h)
            && h < |t.pc| && t.pc[h] == s.pc[h]
  {
    var t := Next(s, g, call);
    if g < |s.pc| {
      AcquireKeepsInside(s, g);
      ReleaseKeepsInside(s, g);
    }
    assert InsideKept(s, t, g);
    NextKeepsOthers(s, g, call);
    SameHeld(s, t, h);
    SameSlots(s, t, h);
  }

  lemma SameHeld(s: State, t: State, h: nat)
    requires forall e: (Lock, nat) :: e.1 == h ==> (e in t.inside <==> e in s.inside)
    ensures Held(t, h) == Held(s, h)
  {
    forall lock
      ensures lock in Held(t, h) <==> lock in Held(s, h)
    {
      HeldIff(s, h, lock);
      HeldIff(t, h, lock);
    }
  }

  lemma HeldIff(s: State, h: nat, lock: Lock)
    ensures lock in Held(s, h) <==> (lock, h) in s.inside
  {
    if lock in Held(s, h) {
      var e :| e in s.inside && e.1 == h && e.0 == lock;
      assert e == (lock, h);
    }
  }

  lemma SameSlots(s: State, t: State, h: nat)
    requires forall x: Node :: x.hart == h ==> (x in t.bound <==> x in s.bound)
    ensures UsedSlots(t, h) == UsedSlots(s, h)
  {
    forall i
      ensures i in UsedSlots(t, h) <==> i in UsedSlots(s, h)
    {
      UsedIff(s, h, i);
      UsedIff(t, h, i);
    }
  }

  lemma UsedIff(s: State, h: nat, i: nat)
    ensures i in UsedSlots(s, h) <==> Node(h, i) in s.bound
  {
    if i in UsedSlots(s, h) {
      var x :| x in s.bound && x.hart == h && x.slot == i;
      assert x == Node(h, i);
    }
  }

  // ----- Acquire -----

  predicate AcquirePc(p: Pc, lock: Lock) {
    match p
    case Scan(l, tryOnly) => l == lock && !tryOnly
    case InitNode(l, _, _, tryOnly) => l == lock && !tryOnly
    case Swap(l, _, tryOnly) => l == lock && !tryOnly
    case MarkLocked(l, _, _) => l == lock
    case LinkPred(l, _, _) => l == lock
    case Spin(l, _) => l == lock
    case _ => false
  }

  /** The hart is still in the acquire that it began in `s`. */
  predicate Acquiring(s: State, t: State, h: nat, lock: Lock) {
    h < |t.pc| && Held(t, h) == Held(s, h) && AcquirePc(t.pc[h], lock)
  }

  /** From `v` to `w` the hart's call returns with the lock, which it did not hold before. */
  predicate Gets(v: State, w: State, h: nat, lock: Lock) {
    && IdleAt(w, h) && lock !in Held(v, h) && Held(w, h) == Held(v, h) + {lock}
    && Hist(w, lock).granted == Hist(v, lock).granted + [h]
  }

  lemma GrantGets(v: State, w: State, h: nat, lock: Lock)
    requires (lock, h) !in v.inside && w.inside == v.inside + {(lock, h)} && IdleAt(w, h)
    requires Hist(w, lock).granted == Hist(v, lock).granted + [h]
    ensures Gets(v, w, h, lock)
  {
    HeldIff(v, h, lock);
    HeldGrows(v, w, h, lock);
  }

  /** Nobody is inside a lock without a tail. */
  lemma EmptyLock(s: State, lock: Lock, h: nat)
    requires Inv(s) && lock !in s.tail
    ensures (lock, h) !in s.inside
  {
    assert LockOk(s, lock);
  }

  lemma SpinnerIsOutside(s: State, h: nat)
    requires Inv(s) && h < |s.pc| && s.pc[h].Spin? && Node(h, s.pc[h].slot) !in s.locked
    ensures (s.pc[h].lock, h) !in s.inside
  {
    var lock := s.pc[h].lock;
    assert HartOk(s, h) && LockOk(s, lock);
    var k := Position(s, lock, Node(h, s.pc[h].slot));
    assert PhaseOk(s, lock, k);
  }

  lemma PrepareKeepsHeld(v: State, h: nat, call: Call)
    requires h < |v.pc| && (v.pc[h].Scan? || v.pc[h].InitNode? || v.pc[h].MarkLocked? || v.pc[h].LinkPred?)
    ensures var p, w := v.pc[h], Next(v, h, call);
            w.inside == v.inside && h < |w.pc| && (AcquirePc(p, p.lock) ==> AcquirePc(w.pc[h], p.lock))
  {}

  lemma SwapStep(s: State, v: State, h: nat, lock: Lock, call: Call)
    requires Inv(v) && Acquiring(s, v, h, lock) && v.pc[h].Swap?
    ensures var w := Next(v, h, call); Acquiring(s, w, h, lock) || Gets(v, w, h, lock)
  {
    if lock !in v.tail {
      EmptyLock(v, lock, h);
      GrantGets(v, Next(v, h, call), h, lock);
    } else {
      SameHeld(v, Next(v, h, call), h);
    }
  }

  lemma SpinStep(s: State, v: State, h: nat, lock: Lock, call: Call)
    requires Inv(v) && Acquiring(s, v, h, lock) && v.pc[h].Spin?
    ensures var w := Next(v, h, call); Acquiring(s, w, h, lock) || Gets(v, w, h, lock)
  {
    if Node(h, v.pc[h].slot) !in v.locked {
      SpinnerIsOutside(v, h);
      GrantGets(v, Next(v, h, call), h, lock);
    }
  }

  lemma AcquireStep(s: State, v: State, h: nat, lock: Lock, call: Call)
    requires Inv(v) && Acquiring(s, v, h, lock)
    ensures var w := Next(v, h, call); Acquiring(s, w, h, lock) || Gets(v, w, h, lock)
  {
    if v.pc[h].Swap? {
      SwapStep(s, v, h, lock, call);
    } else if v.pc[h].Spin? {
      SpinStep(s, v, h, lock, call);
    } else {
      PrepareKeepsHeld(v, h, call);
      SameHeld(v, Next(v, h, call), h);
    }
  }

  lemma {:induction false} AcquireGoesOn(s: State, t: State, h: nat, lock: Lock, rest: seq<Event>)
    requires Inv(t) && Acquiring(s, t, h, lock) && InCall(t, h, rest)
    ensures Inv(Exec(t, rest)) && Acquiring(s, Exec(t, rest), h, lock)
  {
    if rest != [] {
      var e := rest[|rest| - 1];
      var v := Exec(t, rest[..|rest| - 1]);
      InCallBefore(t, h, rest);
      AcquireGoesOn(s, t, h, lock, rest[..|rest| - 1]);
      NextInv(v, e.hart, e.call);
      if e.hart == h {
        AcquireStep(s, v, h, lock, e.call);
      } else {
        HeldKept(v, e.hart, e.call, h);
      }
    }
  }

  /** A hart that has begun an acquire returns only with the lock newly granted to it; it did not hold it before. */
  lemma AcquireReturns(harts: nat, slots: nat, schedule: seq<Event>, h: nat, lock: Lock, rest: seq<Event>)
    requires var s := Exec(Init(harts, slots), schedule);
             IdleAt(s, h) && Returns(Next(s, h, Acquire(lock)), h, rest)
    ensures var s := Exec(Init(harts, slots), schedule);
            var t := Next(s, h, Acquire(lock));
            var v, u := Exec(t, rest[..|rest| - 1]), Exec(t, rest);
            && rest[|rest| - 1].hart == h && Gets(v, u, h, lock)
            && lock !in Held(s, h) && Held(u, h) == Held(s, h) + {lock}
  {
    var s, e := Exec(Init(harts, slots), schedule), rest[|rest| - 1];
    var t := Next(s, h, Acquire(lock));
    var v := Exec(t, rest[..|rest| - 1]);
    ExecInv(harts, slots, schedule);
    NextInv(s, h, Acquire(lock));
    SameHeld(s, t, h);
    AcquireGoesOn(s, t, h, lock, rest[..|rest| - 1]);
    if e.hart == h {
      AcquireStep(s, v, h, lock, e.call);
    } else {
      HeldKept(v, e.hart, e.call, h);
      assert false;
    }
  }

  // ----- Try -----

  predicate TryPc(p: Pc, lock: Lock) {
    match p
    case Scan(l, tryOnly) => l == lock && tryOnly
    case InitNode(l, _, k, tryOnly) => l == lock && tryOnly && k <= 3
    case Swap(l, _, tryOnly) => l == lock && tryOnly
    case _ => false
  }

  /** The hart has not come to its CAS yet. */
  predicate Trying(s: State, t: State, h: nat, lock: Lock) {
    h < |t.pc| && Held(t, h) == Held(s, h) && TryPc(t.pc[h], lock)
  }

  /** The CAS has failed. */
  predicate HasFailed(s: State, t: State, h: nat, lock: Lock) {
    h < |t.pc| && Held(t, h) == Held(s, h) && t.pc[h].Free? && t.pc[h].lock == lock
  }

  /** Step `k` of `rest` is the hart's exchange or CAS on `tail`. */
  predicate AtCas(t: State, h: nat, rest: seq<Event>, k: nat)
    requires k < |rest|
  {
    var v := Exec(t, rest[..k]);
    rest[k].hart == h < |v.pc| && v.pc[h].Swap?
  }

  /** Step `k` is the hart's only one. */
  ghost predicate OnlyCas(t: State, h: nat, rest: seq<Event>, k: nat) {
    k < |rest| && forall j :: 0 <= j < |rest| ==> (AtCas(t, h, rest, j) <==> j == k)
  }

  ghost predicate NoCas(t: State, h: nat, rest: seq<Event>) {
    forall j :: 0 <= j < |rest| ==> !AtCas(t, h, rest, j)
  }

  /** The CAS has found a tail, and has left the lock's queue and its tail alone. */
  ghost predicate FailedAt(t: State, h: nat, rest: seq<Event>, k: nat, lock: Lock) {
    && OnlyCas(t, h, rest, k)
    && var v, w := Exec(t, rest[..k]), Exec(t, rest[..k + 1]);
       lock in v.tail && w.tail == v.tail && w.hist == v.hist
  }

  lemma CasBefore(t: State, h: nat, rest: seq<Event>)
    requires rest != []
    ensures forall j :: 0 <= j < |rest| - 1 ==> AtCas(t, h, rest, j) == AtCas(t, h, rest[..|rest| - 1], j)
  {
    forall j | 0 <= j < |rest| - 1
      ensures AtCas(t, h, rest, j) == AtCas(t, h, rest[..|rest| - 1], j)
    {
      assert rest[..|rest| - 1][..j] == rest[..j];
    }
  }

  lemma FailedStays(t: State, h: nat, rest: seq<Event>, k: nat, lock: Lock)
    requires rest != [] && FailedAt(t, h, rest[..|rest| - 1], k, lock) && !AtCas(t, h, rest, |rest| - 1)
    ensures FailedAt(t, h, rest, k, lock)
  {
    var before := rest[..|rest| - 1];
    CasBefore(t, h, rest);
    assert before[..k] == rest[..k] && before[..k + 1] == rest[..k + 1];
    forall j | 0 <= j < |rest|
      ensures AtCas(t, h, rest, j) <==> j == k
    {
      if j < |before| {
        assert AtCas(t, h, before, j) <==> j == k;
      }
    }
  }

  lemma FirstCas(t: State, h: nat, rest: seq<Event>)
    requires rest != [] && NoCas(t, h, rest[..|rest| - 1])
    ensures if AtCas(t, h, rest, |rest| - 1) then OnlyCas(t, h, rest, |rest| - 1) else NoCas(t, h, rest)
  {
    CasBefore(t, h, rest);
  }

  /** What one step of the trying hart comes to. */
  predicate TryStepOutcome(s: State, v: State, w: State, h: nat, lock: Lock)
    requires h < |v.pc|
  {
    if !v.pc[h].Swap? then Trying(s, w, h, lock)
    else if lock in v.tail then HasFailed(s, w, h, lock) && w.tail == v.tail && w.hist == v.hist
    else Gets(v, w, h, lock)
  }

  lemma TryCasStep(s: State, v: State, h: nat, lock: Lock, call: Call)
    requires Inv(v) && Trying(s, v, h, lock) && v.pc[h].Swap?
    ensures TryStepOutcome(s, v, Next(v, h, call), h, lock)
  {
    if lock !in v.tail {
      EmptyLock(v, lock, h);
      GrantGets(v, Next(v, h, call), h, lock);
    } else {
      SameHeld(v, Next(v, h, call), h);
    }
  }

  lemma TryPrepares(v: State, h: nat, lock: Lock, call: Call)
    requires h < |v.pc| && TryPc(v.pc[h], lock) && !v.pc[h].Swap?
    ensures var w := Next(v, h, call); w.inside == v.inside && h < |w.pc| && TryPc(w.pc[h], lock)
  {
    if v.pc[h].Scan? {
      assert TryPc(StepScan(v, h, v.pc[h]).pc[h], lock);
    } else {
      assert TryPc(StepInitNode(v, h, v.pc[h]).pc[h], lock);
    }
  }

  lemma TryStep(s: State, v: State, h: nat, lock: Lock, call: Call)
    requires Inv(v) && Trying(s, v, h, lock)
    ensures TryStepOutcome(s, v, Next(v, h, call), h, lock)
  {
    if v.pc[h].Swap? {
      TryCasStep(s, v, h, lock, call);
    } else {
      TryPrepares(v, h, lock, call);
      SameHeld(v, Next(v, h, call), h);
    }
  }

  lemma FailedStep(s: State, v: State, h: nat, lock: Lock, call: Call)
    requires HasFailed(s, v, h, lock)
    ensures var w := Next(v, h, call); IdleAt(w, h) && Held(w, h) == Held(s, h)
  {
    SameHeld(v, Next(v, h, call), h);
  }

  /** How far a try has come after `rest`. */
  ghost predicate TryIsAt(s: State, t: State, h: nat, lock: Lock, rest: seq<Event>) {
    var u := Exec(t, rest);
    || (Trying(s, u, h, lock) && NoCas(t, h, rest))
    || (HasFailed(s, u, h, lock) && exists k :: FailedAt(t, h, rest, k, lock))
  }

  lemma {:induction false} TryGoesOn(s: State, t: State, h: nat, lock: Lock, rest: seq<Event>)
    requires Inv(t) && Trying(s, t, h, lock) && InCall(t, h, rest)
    ensures Inv(Exec(t, rest)) && TryIsAt(s, t, h, lock, rest)
  {
    if rest != [] {
      var e := rest[|rest| - 1];
      InCallBefore(t, h, rest);
      TryGoesOn(s, t, h, lock, rest[..|rest| - 1]);
      NextInv(Exec(t, rest[..|rest| - 1]), e.hart, e.call);
      TryGoesOnce(s, t, h, lock, rest);
    }
  }

  lemma TryingStays(s: State, t: State, h: nat, lock: Lock, rest: seq<Event>)
    requires rest != [] && Inv(Exec(t, rest[..|rest| - 1])) && !IdleAt(Exec(t, rest), h)
    requires Trying(s, Exec(t, rest[..|rest| - 1]), h, lock) && NoCas(t, h, rest[..|rest| - 1])
    ensures TryIsAt(s, t, h, lock, rest)
  {
    var e, k := rest[|rest| - 1], |rest| - 1;
    var v := Exec(t, rest[..k]);
    assert rest[..|rest|] == rest;
    FirstCas(t, h, rest);
    if e.hart != h {
      HeldKept(v, e.hart, e.call, h);
    } else {
      TryStep(s, v, h, lock, e.call);
      CasDecides(s, t, h, lock, rest, k);
    }
  }

  lemma CasDecides(s: State, t: State, h: nat, lock: Lock, rest: seq<Event>, k: nat)
    requires k == |rest| - 1 && rest[..k + 1] == rest && rest[k].hart == h < |Exec(t, rest[..k]).pc|
    requires TryStepOutcome(s, Exec(t, rest[..k]), Exec(t, rest), h, lock) && !IdleAt(Exec(t, rest), h)
    requires if AtCas(t, h, rest, k) then OnlyCas(t, h, rest, k) else NoCas(t, h, rest)
    ensures TryIsAt(s, t, h, lock, rest)
  {
    if Exec(t, rest[..k]).pc[h].Swap? {
      assert FailedAt(t, h, rest, k, lock);
    }
  }

  lemma FailedEnds(s: State, t: State, h: nat, lock: Lock, rest: seq<Event>, k: nat)
    requires rest != [] && !IdleAt(Exec(t, rest), h)
    requires HasFailed(s, Exec(t, rest[..|rest| - 1]), h, lock) && FailedAt(t, h, rest[..|rest| - 1], k, lock)
    ensures TryIsAt(s, t, h, lock, rest)
  {
    var e := rest[|rest| - 1];
    var v := Exec(t, rest[..|rest| - 1]);
    FailedStays(t, h, rest, k, lock);
    if e.hart == h {
      FailedStep(s, v, h, lock, e.call);
    } else {
      HeldKept(v, e.hart, e.call, h);
    }
  }

  lemma TryGoesOnce(s: State, t: State, h: nat, lock: Lock, rest: seq<Event>)
    requires rest != [] && Inv(Exec(t, rest[..|rest| - 1])) && TryIsAt(s, t, h, lock, rest[..|rest| - 1])
    requires !IdleAt(Exec(t, rest), h)
    ensures TryIsAt(s, t, h, lock, rest)
  {
    var before := rest[..|rest| - 1];
    if Trying(s, Exec(t, before), h, lock) {
      TryingStays(s, t, h, lock, rest);
    } else {
      var k :| FailedAt(t, h, before, k, lock);
      FailedEnds(s, t, h, lock, rest, k);
    }
  }

  /** The outcome of a try whose CAS is step `k`. */
  ghost predicate TryOutcome(s: State, t: State, h: nat, lock: Lock, rest: seq<Event>, k: nat) {
    && OnlyCas(t, h, rest, k)
    && var v, w, u := Exec(t, rest[..k]), Exec(t, rest[..k + 1]), Exec(t, rest);
       if lock in v.tail then w.tail == v.tail && w.hist == v.hist && Held(u, h) == Held(s, h)
       else k == |rest| - 1 && Gets(v, u, h, lock) && Held(v, h) == Held(s, h)
  }

  /**
    A hart that has begun a try_acquire comes to exactly one CAS.  If that finds a tail, the lock is left alone and the
    call returns without it; if it finds none, the call returns at once with the lock newly granted.
    */
  lemma TryReturns(harts: nat, slots: nat, schedule: seq<Event>, h: nat, lock: Lock, rest: seq<Event>) returns (k: nat)
    requires var s := Exec(Init(harts, slots), schedule);
             IdleAt(s, h) && Returns(Next(s, h, TryAcquire(lock)), h, rest)
    ensures var s := Exec(Init(harts, slots), schedule);
            TryOutcome(s, Next(s, h, TryAcquire(lock)), h, lock, rest, k)
  {
    var s := Exec(Init(harts, slots), schedule);
    var t := Next(s, h, TryAcquire(lock));
    ExecInv(harts, slots, schedule);
    NextInv(s, h, TryAcquire(lock));
    SameHeld(s, t, h);
    TryGoesOn(s, t, h, lock, rest[..|rest| - 1]);
    k := TryEnds(s, t, h, lock, rest);
  }

  lemma TryEnds(s: State, t: State, h: nat, lock: Lock, rest: seq<Event>) returns (k: nat)
    requires rest != [] && Inv(Exec(t, rest[..|rest| - 1])) && TryIsAt(s, t, h, lock, rest[..|rest| - 1])
    requires IdleAt(Exec(t, rest), h)
    ensures TryOutcome(s, t, h, lock, rest, k)
  {
    var e, before := rest[|rest| - 1], rest[..|rest| - 1];
    var v := Exec(t, before);
    assert rest[..|rest|] == rest;
    if e.hart != h {
      HeldKept(v, e.hart, e.call, h);
    }
    if Trying(s, v, h, lock) {
      FirstCas(t, h, rest);
      TryStep(s, v, h, lock, e.call);
      k := |before|;
    } else {
      k :| FailedAt(t, h, before, k, lock);
      FailedStays(t, h, rest, k, lock);
      FailedStep(s, v, h, lock, e.call);
      assert rest[..k] == before[..k];
    }
  }

  /** The steps that the hart has made in its try since it got a slot. */
  function TrySteps(t: State, h: nat, rest: seq<Event>): nat {
    if rest == [] then 0
    else
      var before := rest[..|rest| - 1];
      TrySteps(t, h, before) + if rest[|rest| - 1].hart == h && !Scanning(Exec(t, before), h) then 1 else 0
  }

  function TryRank(p: Pc): int {
    match p
    case Scan(_, _) => 6
    case InitNode(_, _, k, _) => 6 - k
    case Swap(_, _, _) => 2
    case Free(_, _) => 1
    case _ => 0
  }

  lemma ScanRank(v: State, h: nat, call: Call)
    requires h < |v.pc| && v.pc[h].Scan?
    ensures var w := Next(v, h, call); h < |w.pc| && TryRank(w.pc[h]) == 6
  {
    assert TryRank(StepScan(v, h, v.pc[h]).pc[h]) == 6;
  }

  lemma InitRank(v: State, h: nat, lock: Lock, call: Call)
    requires h < |v.pc| && v.pc[h].InitNode? && TryPc(v.pc[h], lock)
    ensures var w := Next(v, h, call); h < |w.pc| && TryRank(w.pc[h]) < TryRank(v.pc[h])
  {
    assert TryRank(StepInitNode(v, h, v.pc[h]).pc[h]) < TryRank(v.pc[h]);
  }

  lemma TryRankStep(v: State, h: nat, lock: Lock, call: Call)
    requires h < |v.pc| && (TryPc(v.pc[h], lock) || v.pc[h].Free?)
    ensures var w := Next(v, h, call);
            h < |w.pc| && (if Scanning(v, h) then TryRank(w.pc[h]) == 6 else TryRank(w.pc[h]) < TryRank(v.pc[h]))
  {
    if v.pc[h].Scan? {
      ScanRank(v, h, call);
    } else if v.pc[h].InitNode? {
      InitRank(v, h, lock, call);
    }
  }

  lemma {:induction false} TryStepsBound(s: State, t: State, h: nat, lock: Lock, rest: seq<Event>)
    requires Inv(t) && Trying(s, t, h, lock) && t.pc[h].Scan? && InCall(t, h, rest)
    ensures var u := Exec(t, rest);
            h < |u.pc| && 1 <= TryRank(u.pc[h]) <= 6 - TrySteps(t, h, rest)
  {
    TryGoesOn(s, t, h, lock, rest);
    if rest != [] {
      var e, before := rest[|rest| - 1], rest[..|rest| - 1];
      var v := Exec(t, before);
      InCallBefore(t, h, rest);
      TryStepsBound(s, t, h, lock, before);
      TryGoesOn(s, t, h, lock, before);
      if e.hart == h {
        TryRankStep(v, h, lock, e.call);
      } else {
        HeldKept(v, e.hart, e.call, h);
      }
    }
  }

  /** A try that has a slot waits for nobody: with its sixth step since then it has returned. */
  lemma TryNeverWaits(harts: nat, slots: nat, schedule: seq<Event>, h: nat, lock: Lock, rest: seq<Event>)
    requires var s := Exec(Init(harts, slots), schedule);
             IdleAt(s, h) && InCall(Next(s, h, TryAcquire(lock)), h, rest)
    ensures var s := Exec(Init(harts, slots), schedule);
            TrySteps(Next(s, h, TryAcquire(lock)), h, rest) < 6
  {
    var s := Exec(Init(harts, slots), schedule);
    var t := Next(s, h, TryAcquire(lock));
    ExecInv(harts, slots, schedule);
    NextInv(s, h, TryAcquire(lock));
    SameHeld(s, t, h);
    TryStepsBound(s, t, h, lock, rest);
  }

  // ----- Release -----

  /** The release that the hart began in `s` works on slot `i` and still holds the lock. */
  predicate Leaving(s: State, t: State, h: nat, lock: Lock, i: nat) {
    && h < |t.pc| && Held(t, h) == Held(s, h) && UsedSlots(t, h) == UsedSlots(s, h) && lock in Held(s, h)
    && (t.pc[h].LoadNext? || t.pc[h].CasTail? || t.pc[h].AwaitNext? || t.pc[h].Handoff?)
    && t.pc[h].lock == lock && t.pc[h].slot == i
  }

  /** It has given the lock up and still has to free its slot. */
  predicate HasLeft(s: State, t: State, h: nat, lock: Lock, i: nat) {
    && h < |t.pc| && Held(t, h) == Held(s, h) - {lock} && UsedSlots(t, h) == UsedSlots(s, h)
    && t.pc[h] == Free(lock, i)
  }

  /**
    From `v` to `w` hart `h` gives the lock up: if it is alone in the queue, the lock has no tail afterwards; otherwise
    its follower is woken, and gets the lock with its next step.
    */
  ghost predicate Passes(v: State, w: State, h: nat, lock: Lock) {
    && (lock, h) in v.inside && (lock, h) !in w.inside
    && Q(v, lock) != [] && Q(v, lock)[0].hart == h && Q(w, lock) == Q(v, lock)[1..]
    && if |Q(v, lock)| == 1 then lock in v.tail && lock !in w.tail
       else
         var x := Q(v, lock)[1];
         && x in v.locked && x !in w.locked && w.tail == v.tail
         && forall call :: (lock, x.hart) in Next(w, x.hart, call).inside
  }

  lemma HolderIsFirst(v: State, h: nat, lock: Lock)
    requires Inv(v) && (lock, h) in v.inside
    ensures Q(v, lock) != [] && Q(v, lock)[0].hart == h && TailOk(v, lock) && Distinct(Q(v, lock))
  {
    assert LockOk(v, lock);
  }

  lemma LeaverIsFirst(s: State, v: State, h: nat, lock: Lock, i: nat)
    requires Inv(v) && Leaving(s, v, h, lock, i)
    ensures Q(v, lock) != [] && Q(v, lock)[0] == Node(h, i) && TailOk(v, lock) && Distinct(Q(v, lock))
  {
    HeldIff(v, h, lock);
    HolderIsFirst(v, h, lock);
    assert HartOk(v, h);
    var k := Position(v, lock, Node(h, i));
    assert PhaseOk(v, lock, k) && LockOk(v, lock);
  }

  lemma CasTailStep(s: State, v: State, h: nat, lock: Lock, i: nat, call: Call)
    requires Inv(v) && Leaving(s, v, h, lock, i) && v.pc[h].CasTail?
    ensures var w := Next(v, h, call);
            Leaving(s, w, h, lock, i) || (HasLeft(s, w, h, lock, i) && Passes(v, w, h, lock))
  {
    var w := Next(v, h, call);
    LeaverIsFirst(s, v, h, lock, i);
    HeldIff(v, h, lock);
    if lock in v.tail && v.tail[lock] == Node(h, i) {
      var q := Q(v, lock);
      assert q[|q| - 1] == q[0];
      assert |q| == 1;
      HeldShrinks(v, w, h, lock);
      SameSlots(v, w, h);
    } else {
      SameHeld(v, w, h);
      SameSlots(v, w, h);
    }
  }

  lemma HeldShrinks(v: State, w: State, h: nat, lock: Lock)
    requires w.inside == v.inside - {(lock, h)}
    ensures Held(w, h) == Held(v, h) - {lock}
  {
    forall l
      ensures l in Held(w, h) <==> l in Held(v, h) - {lock}
    {
      HeldIff(v, h, l);
      HeldIff(w, h, l);
    }
  }

  lemma HandoffStep(s: State, v: State, h: nat, lock: Lock, i: nat, call: Call)
    requires Inv(v) && Leaving(s, v, h, lock, i) && v.pc[h].Handoff?
    ensures var w := Next(v, h, call); HasLeft(s, w, h, lock, i) && Passes(v, w, h, lock)
  {
    var w, x := Next(v, h, call), v.pc[h].succ;
    LeaverIsFirst(s, v, h, lock, i);
    HeldIff(v, h, lock);
    HeldShrinks(v, w, h, lock);
    SameSlots(v, w, h);
    assert HartOk(v, h) && LockOk(v, lock) && NodeOk(v, lock, 1);
    WokenGetsLock(v, w, h, lock, x);
  }

  lemma WokenGetsLock(v: State, w: State, h: nat, lock: Lock, x: Node)
    requires |Q(v, lock)| >= 2 && Q(v, lock)[1] == x && NodeOk(v, lock, 1) && Phase(v, x).Spin? && x.hart != h
    requires h < |w.pc| == |v.pc| && w.pc == v.pc[h := w.pc[h]] && x !in w.locked
    ensures x in v.locked && forall call :: (lock, x.hart) in Next(w, x.hart, call).inside
  {
    assert PhaseOk(v, lock, 1);
  }

  lemma LeaveStep(s: State, v: State, h: nat, lock: Lock, i: nat, call: Call)
    requires Inv(v) && Leaving(s, v, h, lock, i)
    ensures var w := Next(v, h, call);
            Leaving(s, w, h, lock, i) || (HasLeft(s, w, h, lock, i) && Passes(v, w, h, lock))
  {
    if v.pc[h].CasTail? {
      CasTailStep(s, v, h, lock, i, call);
    } else if v.pc[h].Handoff? {
      HandoffStep(s, v, h, lock, i, call);
    } else {
      SameHeld(v, Next(v, h, call), h);
      SameSlots(v, Next(v, h, call), h);
    }
  }

  lemma FreeStep(s: State, v: State, h: nat, lock: Lock, i: nat, call: Call)
    requires HasLeft(s, v, h, lock, i)
    ensures var w := Next(v, h, call);
            IdleAt(w, h) && Held(w, h) == Held(s, h) - {lock} && UsedSlots(w, h) == UsedSlots(s, h) - {i}
  {
    var w := Next(v, h, call);
    SameHeld(v, w, h);
    forall j
      ensures j in UsedSlots(w, h) <==> j in UsedSlots(v, h) - {i}
    {
      UsedIff(v, h, j);
      UsedIff(w, h, j);
    }
  }

  /** Step `k` of `rest` gives the lock up. */
  ghost predicate PassesAt(t: State, h: nat, lock: Lock, rest: seq<Event>, k: nat) {
    k < |rest| && rest[k].hart == h && Passes(Exec(t, rest[..k]), Exec(t, rest[..k + 1]), h, lock)
  }

  /** How far a release has come after `rest`. */
  ghost predicate ReleaseIsAt(s: State, t: State, h: nat, lock: Lock, i: nat, rest: seq<Event>) {
    var u := Exec(t, rest);
    || Leaving(s, u, h, lock, i)
    || (HasLeft(s, u, h, lock, i) && exists k :: PassesAt(t, h, lock, rest, k))
  }

  lemma PassesStays(t: State, h: nat, lock: Lock, rest: seq<Event>, k: nat)
    requires rest != [] && PassesAt(t, h, lock, rest[..|rest| - 1], k)
    ensures PassesAt(t, h, lock, rest, k)
  {
    var before := rest[..|rest| - 1];
    assert before[..k] == rest[..k] && before[..k + 1] == rest[..k + 1];
  }

  lemma LeavingGoesOn(s: State, t: State, h: nat, lock: Lock, i: nat, rest: seq<Event>)
    requires rest != [] && Inv(Exec(t, rest[..|rest| - 1])) && Leaving(s, Exec(t, rest[..|rest| - 1]), h, lock, i)
    ensures ReleaseIsAt(s, t, h, lock, i, rest)
  {
    var e, k := rest[|rest| - 1], |rest| - 1;
    var v := Exec(t, rest[..k]);
    assert rest[..|rest|] == rest;
    if e.hart == h {
      LeaveStep(s, v, h, lock, i, e.call);
      if !Leaving(s, Exec(t, rest), h, lock, i) {
        assert PassesAt(t, h, lock, rest, k);
      }
    } else {
      HeldKept(v, e.hart, e.call, h);
    }
  }

  lemma {:induction false} ReleaseGoesOn(s: State, t: State, h: nat, lock: Lock, i: nat, rest: seq<Event>)
    requires Inv(t) && Leaving(s, t, h, lock, i) && InCall(t, h, rest)
    ensures Inv(Exec(t, rest)) && ReleaseIsAt(s, t, h, lock, i, rest)
  {
    if rest != [] {
      var e, before := rest[|rest| - 1], rest[..|rest| - 1];
      var v := Exec(t, before);
      InCallBefore(t, h, rest);
      ReleaseGoesOn(s, t, h, lock, i, before);
      NextInv(v, e.hart, e.call);
      if Leaving(s, v, h, lock, i) {
        LeavingGoesOn(s, t, h, lock, i, rest);
      } else {
        var k :| PassesAt(t, h, lock, before, k);
        PassesStays(t, h, lock, rest, k);
        if e.hart == h {
          FreeStep(s, v, h, lock, i, e.call);
        } else {
          HeldKept(v, e.hart, e.call, h);
        }
      }
    }
  }

  /** Beginning a release of a lock that the hart does not hold does nothing; otherwise the hart is inside the call. */
  lemma ReleaseBegins(harts: nat, slots: nat, schedule: seq<Event>, h: nat, lock: Lock)
    requires IdleAt(Exec(Init(harts, slots), schedule), h)
    ensures var s := Exec(Init(harts, slots), schedule);
            var t := Next(s, h, Release(lock));
            if lock in Held(s, h) then Q(s, lock) != [] && Leaving(s, t, h, lock, Q(s, lock)[0].slot) else t == s
  {
    var s := Exec(Init(harts, slots), schedule);
    FindReturnsTheHoldingSlot(harts, slots, schedule, h, lock);
    HeldIff(s, h, lock);
    SameHeld(s, Next(s, h, Release(lock)), h);
    SameSlots(s, Next(s, h, Release(lock)), h);
  }

  /**
    A hart that has begun to release a lock that it holds returns without the lock and with its slot free, and one of
    its steps in between has passed the lock on.
    */
  lemma ReleaseReturns(harts: nat, slots: nat, schedule: seq<Event>, h: nat, lock: Lock, rest: seq<Event>)
    returns (k: nat)
    requires var s := Exec(Init(harts, slots), schedule);
             IdleAt(s, h) && lock in Held(s, h) && Returns(Next(s, h, Release(lock)), h, rest)
    ensures var s := Exec(Init(harts, slots), schedule);
            var t := Next(s, h, Release(lock));
            var u := Exec(t, rest);
            && PassesAt(t, h, lock, rest, k) && Held(u, h) == Held(s, h) - {lock}
            && Q(s, lock) != [] && UsedSlots(u, h) == UsedSlots(s, h) - {Q(s, lock)[0].slot}
  {
    var s := Exec(Init(harts, slots), schedule);
    var t := Next(s, h, Release(lock));
    ReleaseBegins(harts, slots, schedule, h, lock);
    ExecInv(harts, slots, schedule);
    NextInv(s, h, Release(lock));
    ReleaseGoesOn(s, t, h, lock, Q(s, lock)[0].slot, rest[..|rest| - 1]);
    k := ReleaseEnds(s, t, h, lock, Q(s, lock)[0].slot, rest);
  }

  lemma ReleaseEnds(s: State, t: State, h: nat, lock: Lock, i: nat, rest: seq<Event>) returns (k: nat)
    requires rest != [] && Inv(Exec(t, rest[..|rest| - 1])) && ReleaseIsAt(s, t, h, lock, i, rest[..|rest| - 1])
    requires IdleAt(Exec(t, rest), h)
    ensures PassesAt(t, h, lock, rest, k)
    ensures var u := Exec(t, rest);
            Held(u, h) == Held(s, h) - {lock} && UsedSlots(u, h) == UsedSlots(s, h) - {i}
  {
    var e, before := rest[|rest| - 1], rest[..|rest| - 1];
    var v := Exec(t, before);
    if Leaving(s, v, h, lock, i) {
      LeavingGoesOn(s, t, h, lock, i, rest);
    }
    k :| PassesAt(t, h, lock, before, k);
    PassesStays(t, h, lock, rest, k);
    if e.hart == h {
      FreeStep(s, v, h, lock, i, e.call);
    } else {
      HeldKept(v, e.hart, e.call, h);
    }
  }

  // ----- Release returns -----

  lemma {:induction false} ExecFirst(s: State, e: Event, more: seq<Event>)
    ensures Exec(s, [e] + more) == Exec(Next(s, e.hart, e.call), more)
  {
    var all := [e] + more;
    if more == [] {
      assert all == [] + [e];
      ExecOne(s, [], e);
    } else {
      var k := |more| - 1;
      ExecFirst(s, e, more[..k]);
      assert all == ([e] + more[..k]) + [more[k]] && more == more[..k] + [more[k]];
      ExecOne(s, [e] + more[..k], more[k]);
      ExecOne(Next(s, e.hart, e.call), more[..k], more[k]);
    }
  }

  /** The steps that a release still needs, its follower's included. */
  function ReleaseRank(s: State, p: Pc): nat {
    match p
    case LoadNext(_, _) => 8
    case CasTail(_, _) => 7
    case AwaitNext(lock, _) => 4 + if |Q(s, lock)| >= 2 then LinkSteps(Phase(s, Q(s, lock)[1])) else 0
    case Handoff(_, _, _) => 2
    case Free(_, _) => 1
    case _ => 0
  }

  lemma LastReleaseSteps(s: State, h: nat, call: Call)
    requires h < |s.pc| && (s.pc[h].LoadNext? || s.pc[h].Handoff? || s.pc[h].Free?)
    ensures var t := Next(s, h, call);
            && h < |t.pc| && ReleaseRank(t, t.pc[h]) < ReleaseRank(s, s.pc[h])
            && (Releasing(t.pc[h]) || t.pc[h].Idle?)
  {}

  lemma CasTailRank(s: State, h: nat, call: Call)
    requires h < |s.pc| && s.pc[h].CasTail?
    ensures var t := Next(s, h, call);
            && h < |t.pc| && ReleaseRank(t, t.pc[h]) < ReleaseRank(s, s.pc[h])
            && (Releasing(t.pc[h]) || t.pc[h].Idle?)
  {}

  lemma OwnReleaseStep(s: State, h: nat, call: Call)
    requires h < |s.pc| && Releasing(s.pc[h]) && !s.pc[h].AwaitNext?
    ensures var t := Next(s, h, call);
            && h < |t.pc| && ReleaseRank(t, t.pc[h]) < ReleaseRank(s, s.pc[h])
            && (Releasing(t.pc[h]) || t.pc[h].Idle?)
  {
    if s.pc[h].CasTail? {
      CasTailRank(s, h, call);
    } else {
      LastReleaseSteps(s, h, call);
    }
  }

  /** A hart whose step brings the release closer to its end. */
  lemma HelpfulHart(s: State, h: nat, call: Call) returns (g: nat)
    requires Inv(s) && h < |s.pc| && Releasing(s.pc[h])
    ensures var t := Next(s, g, call);
            && h < |t.pc| && ReleaseRank(t, t.pc[h]) < ReleaseRank(s, s.pc[h])
            && (Releasing(t.pc[h]) || t.pc[h].Idle?)
  {
    g := h;
    if s.pc[h].AwaitNext? {
      HandoffDue(s, h, h, call);
      var x := Q(s, s.pc[h].lock)[1];
      if LinkSteps(Phase(s, x)) > 0 {
        g := x.hart;
        HandoffDue(s, h, g, call);
      }
    } else {
      OwnReleaseStep(s, h, call);
    }
  }

  /** From every reachable state inside a release some continuation of at most eight steps lets it return. */
  lemma ReleaseCanReturn(harts: nat, slots: nat, schedule: seq<Event>, h: nat) returns (more: seq<Event>)
    requires var s := Exec(Init(harts, slots), schedule); h < |s.pc| && Releasing(s.pc[h])
    ensures IdleAt(Exec(Exec(Init(harts, slots), schedule), more), h) && |more| <= 8
  {
    ExecInv(harts, slots, schedule);
    more := StepsToReturn(Exec(Init(harts, slots), schedule), h);
  }

  lemma StepsToReturn(s: State, h: nat) returns (more: seq<Event>)
    requires Inv(s) && h < |s.pc| && (Releasing(s.pc[h]) || s.pc[h].Idle?)
    ensures IdleAt(Exec(s, more), h) && |more| <= ReleaseRank(s, s.pc[h]) <= 8
    decreases ReleaseRank(s, s.pc[h])
  {
    if s.pc[h].Idle? {
      more := [];
    } else {
      var g := HelpfulHart(s, h, Release(0));
      NextInv(s, g, Release(0));
      var later := StepsToReturn(Next(s, g, Release(0)), h);
      ExecFirst(s, Event(g, Release(0)), later);
      more := [Event(g, Release(0))] + later;
    }
  }
}
