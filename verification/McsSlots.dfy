/**
  How many locks a hart can hold: the binding slots of software/tests/benchmark/mcs_lock.c.  The scans of a hart's
  row start at the hart's own number, so hart `h` can use only the slots from `h` on.
  */
module McsSlots {
  import opened McsLock

  // ----- Finite sets -----

  function Range(lo: nat, hi: nat): (r: set<nat>)
    ensures forall i :: i in r <==> lo <= i < hi
    ensures |r| == if lo < hi then hi - lo else 0
    decreases hi
  {
    if lo < hi then Range(lo, hi - 1) + {hi - 1} else {}
  }

  /** A set of numbers in a range is as large as the range exactly if it contains all of it. */
  lemma FillsRange(s: set<nat>, lo: nat, hi: nat)
    requires s <= Range(lo, hi)
    ensures |s| <= |Range(lo, hi)|
    ensures |s| == |Range(lo, hi)| <==> forall i :: lo <= i < hi ==> i in s
  {
    var rest := Range(lo, hi) - s;
    assert Range(lo, hi) == s + rest;
    if rest != {} {
      var i :| i in rest;
      assert |rest| > 0;
    }
  }

  /** Distinct slots with distinct locks: as many locks as slots. */
  lemma {:induction false} AsManyImages(slots: set<nat>, h: nat, bound: map<Node, Lock>)
    requires forall i :: i in slots ==> Node(h, i) in bound
    requires forall i, j :: i in slots && j in slots && bound[Node(h, i)] == bound[Node(h, j)] ==> i == j
    ensures |set i | i in slots :: bound[Node(h, i)]| == |slots|
    decreases |slots|
  {
    if slots != {} {
      var i :| i in slots;
      var rest := slots - {i};
      AsManyImages(rest, h, bound);
      assert (set j | j in slots :: bound[Node(h, j)]) ==
             (set j | j in rest :: bound[Node(h, j)]) + {bound[Node(h, i)]};
    }
  }

  // ----- Slots and locks of a hart -----

  /** The slots of a hart that are in use. */
  function UsedSlots(s: State, h: nat): set<nat> {
    set x | x in s.bound && x.hart == h :: x.slot
  }

  /** The locks that a hart holds. */
  function Held(s: State, h: nat): set<Lock> {
    set e | e in s.inside && e.1 == h :: e.0
  }

  /** Between calls, each slot in use is the head of the queue of a lock that the hart holds. */
  lemma UsedSlotHolds(s: State, h: nat, i: nat)
    requires Inv(s) && h < |s.pc| && s.pc[h].Idle? && Node(h, i) in s.bound
    ensures var lock := s.bound[Node(h, i)];
            (lock, h) in s.inside && Q(s, lock) != [] && Q(s, lock)[0] == Node(h, i)
  {
    var x := Node(h, i);
    assert SlotOk(s, x);
    var k := Position(s, s.bound[x], x);
    assert LockOk(s, s.bound[x]);
  }

  /** Each lock that a hart holds has a slot of the hart. */
  lemma HeldHasSlot(s: State, h: nat, lock: Lock) returns (i: nat)
    requires Inv(s) && (lock, h) in s.inside
    ensures Node(h, i) in s.bound && s.bound[Node(h, i)] == lock
  {
    assert LockOk(s, lock);
    assert NodeOk(s, lock, 0);
    i := Q(s, lock)[0].slot;
  }

  /** Between calls a hart has as many slots in use as it holds locks. */
  lemma SlotPerLock(s: State, h: nat)
    requires Inv(s) && h < |s.pc| && s.pc[h].Idle?
    ensures |UsedSlots(s, h)| == |Held(s, h)|
  {
    var slots := UsedSlots(s, h);
    forall i | i in slots
      ensures Node(h, i) in s.bound && s.bound[Node(h, i)] in Held(s, h)
    {
      UsedSlotHolds(s, h, i);
      assert (s.bound[Node(h, i)], h) in s.inside;
    }
    forall i, j | i in slots && j in slots && s.bound[Node(h, i)] == s.bound[Node(h, j)]
      ensures i == j
    {
      UsedSlotHolds(s, h, i);
      UsedSlotHolds(s, h, j);
    }
    AsManyImages(slots, h, s.bound);
    var locks := set i | i in slots :: s.bound[Node(h, i)];
    forall lock | lock in Held(s, h)
      ensures lock in locks
    {
      var i := HeldHasSlot(s, h, lock);
      assert Node(h, i) in s.bound && i in slots;
    }
    assert locks == Held(s, h);
  }

  lemma UsedSlotsInRow(s: State, h: nat)
    requires Inv(s)
    ensures UsedSlots(s, h) <= Range(h, s.slots)
    ensures RowFull(s, h) <==> forall i :: h <= i < s.slots ==> i in UsedSlots(s, h)
  {
    forall x | x in s.bound && x.hart == h
      ensures h <= x.slot < s.slots
    {
      assert SlotOk(s, x);
    }
    forall i | h <= i < s.slots
      ensures i in UsedSlots(s, h) <==> Node(h, i) in s.bound
    {
      assert Node(h, i) in s.bound ==> Node(h, i).slot in UsedSlots(s, h);
    }
  }

  lemma FullIffHeld(s: State, h: nat)
    requires Inv(s) && h < |s.pc| && s.pc[h].Idle?
    ensures RowFull(s, h) <==> |Held(s, h)| >= s.slots - h
    ensures |Held(s, h)| <= if h < s.slots then s.slots - h else 0
  {
    SlotPerLock(s, h);
    UsedSlotsInRow(s, h);
    FillsRange(UsedSlots(s, h), h, s.slots);
  }

  lemma ExecKeepsShape(s: State, schedule: seq<Event>)
    ensures Exec(s, schedule).slots == s.slots && |Exec(s, schedule).pc| == |s.pc|
  {
    if schedule != [] {
      var k := |schedule| - 1;
      ExecKeepsShape(s, schedule[..k]);
      NextKeepsOthers(Exec(s, schedule[..k]), schedule[k].hart, schedule[k].call);
    }
  }

  /**
    A hart between calls has all the slots of its row in use if and only if it holds as many locks as the row has
    slots from its own number on; and it never holds more.
    */
  lemma RowFullIff(harts: nat, slots: nat, schedule: seq<Event>, h: nat)
    requires h < harts
    ensures var s := Exec(Init(harts, slots), schedule);
            && |s.pc| == harts && s.slots == slots
            && (s.pc[h].Idle? ==> (RowFull(s, h) <==> |Held(s, h)| >= slots - h))
            && (s.pc[h].Idle? ==> |Held(s, h)| <= if h < slots then slots - h else 0)
  {
    ExecInv(harts, slots, schedule);
    ExecKeepsShape(Init(harts, slots), schedule);
    var s := Exec(Init(harts, slots), schedule);
    if s.pc[h].Idle? {
      FullIffHeld(s, h);
    }
  }

  // ----- When acquire gets a slot -----

  /** The hart is still looking for a slot. */
  predicate Scanning(s: State, h: nat) {
    h < |s.pc| && s.pc[h].Scan?
  }

  lemma ScanFindsSlot(s: State, h: nat, call: Call)
    requires Scanning(s, h)
    ensures Scanning(Next(s, h, call), h) <==> RowFull(s, h)
  {
    FirstFreeSpec(s.bound, h, h, s.slots);
  }

  predicate IdleAt(s: State, h: nat) {
    h < |s.pc| && s.pc[h].Idle?
  }

  /** Whatever happens from `t` on, the hart finds no slot. */
  ghost predicate WaitsForever(t: State, h: nat) {
    forall rest :: Scanning(Exec(t, rest), h)
  }

  lemma ScansForeverIff(t: State, h: nat, call: Call)
    requires Scanning(t, h)
    ensures WaitsForever(t, h) <==> RowFull(t, h)
  {
    if RowFull(t, h) {
      forall rest
        ensures Scanning(Exec(t, rest), h)
      {
        FullRowWaitsForever(t, h, rest);
      }
    } else {
      ScanFindsSlot(t, h, call);
      ExecOne(t, [], Event(h, call));
      assert !Scanning(Exec(t, [] + [Event(h, call)]), h);
    }
  }

  lemma ExecOne(s: State, schedule: seq<Event>, e: Event)
    ensures Exec(s, schedule + [e]) == Next(Exec(s, schedule), e.hart, e.call)
  {
    assert (schedule + [e])[..|schedule|] == schedule;
  }

  /** Beginning an acquire or a try_acquire is no access to memory. */
  lemma BeginScans(s: State, h: nat, call: Call)
    requires IdleAt(s, h) && !call.Release?
    ensures Scanning(Next(s, h, call), h) && (RowFull(Next(s, h, call), h) <==> RowFull(s, h))
  {}

  /**
    A hart that begins an acquire or a try_acquire waits for a slot forever, whatever the others do, if and only if
    it already holds as many locks as its row has slots from its own number on.
    */
  lemma WaitsForeverIff(harts: nat, slots: nat, schedule: seq<Event>, h: nat, call: Call)
    requires h < harts && !call.Release? && IdleAt(Exec(Init(harts, slots), schedule), h)
    ensures var s := Exec(Init(harts, slots), schedule);
            WaitsForever(Next(s, h, call), h) <==> |Held(s, h)| >= slots - h
  {
    var s := Exec(Init(harts, slots), schedule);
    RowFullIff(harts, slots, schedule, h);
    BeginScans(s, h, call);
    ScansForeverIff(Next(s, h, call), h, call);
  }

  // ----- A run that fills a row -----

  /** What the steps of a hart that prepares its node leave alone. */
  predicate Preparing(s: State, t: State, h: nat) {
    t.slots == s.slots && |t.pc| == |s.pc| && t.inside == s.inside && t.tail == s.tail && h < |s.pc|
  }

  lemma PrepareStep(s: State, h: nat, call: Call)
    requires h < |s.pc| && s.pc[h].InitNode? && !s.pc[h].tryOnly
    ensures var t, p := Next(s, h, call), s.pc[h];
            && Preparing(s, t, h)
            && t.pc[h] == if p.k == 2 then Swap(p.lock, p.slot, false) else InitNode(p.lock, p.slot, p.k + 1, false)
  {}

  lemma TakeFreeLock(s: State, h: nat, call: Call)
    requires h < |s.pc| && s.pc[h].Swap? && s.pc[h].lock !in s.tail
    ensures var t, lock := Next(s, h, call), s.pc[h].lock;
            && t.slots == s.slots && |t.pc| == |s.pc| && t.pc[h].Idle?
            && t.inside == s.inside + {(lock, h)} && t.tail.Keys == s.tail.Keys + {lock}
  {}

  lemma FindSlot(s: State, h: nat, call: Call)
    requires h < |s.pc| && s.pc[h].Scan? && !s.pc[h].tryOnly && !RowFull(s, h)
    ensures var t := Next(s, h, call);
            && Preparing(s, t, h)
            && t.pc[h].InitNode? && !t.pc[h].tryOnly && t.pc[h].k == 0 && t.pc[h].lock == s.pc[h].lock
  {
    FirstFreeSpec(s.bound, h, h, s.slots);
  }

  /** Hart `h` alone takes a lock that nobody queues for. */
  lemma AcquireAlone(s0: State, schedule: seq<Event>, h: nat, lock: Lock) returns (more: seq<Event>)
    requires var s := Exec(s0, schedule); IdleAt(s, h) && !RowFull(s, h) && lock !in s.tail
    ensures var s, t := Exec(s0, schedule), Exec(s0, more);
            && t.slots == s.slots && |t.pc| == |s.pc| && IdleAt(t, h)
            && t.inside == s.inside + {(lock, h)} && t.tail.Keys == s.tail.Keys + {lock}
  {
    var s, e := Exec(s0, schedule), Event(h, Acquire(lock));
    BeginScans(s, h, e.call);
    ExecOne(s0, schedule, e);
    more := schedule + [e];
    FindSlot(Exec(s0, more), h, e.call);
    ExecOne(s0, more, e);
    more := more + [e];
    for k := 0 to 3
      invariant Preparing(s, Exec(s0, more), h)
      invariant var p := Exec(s0, more).pc[h];
                if k < 3 then p.InitNode? && p.k == k && p.lock == lock && !p.tryOnly else p.Swap? && p.lock == lock
    {
      PrepareStep(Exec(s0, more), h, e.call);
      ExecOne(s0, more, e);
      more := more + [e];
    }
    TakeFreeLock(Exec(s0, more), h, e.call);
    ExecOne(s0, more, e);
    more := more + [e];
  }

  /** For every hart some run fills its row: it takes one lock after the other. */
  lemma RowCanBeFilled(harts: nat, slots: nat, h: nat) returns (schedule: seq<Event>)
    requires h < harts
    ensures IdleAt(Exec(Init(harts, slots), schedule), h) && RowFull(Exec(Init(harts, slots), schedule), h)
  {
    schedule := [];
    var k := 0;
    while k < slots - h
      invariant k <= if h < slots then slots - h else 0
      invariant IdleAt(Exec(Init(harts, slots), schedule), h)
      invariant Held(Exec(Init(harts, slots), schedule), h) == Range(0, k)
      invariant Exec(Init(harts, slots), schedule).tail.Keys == Range(0, k)
    {
      RowFullIff(harts, slots, schedule, h);
      var s := Exec(Init(harts, slots), schedule);
      schedule := AcquireAlone(Init(harts, slots), schedule, h, k);
      HeldGrows(s, Exec(Init(harts, slots), schedule), h, k);
      k := k + 1;
    }
    RowFullIff(harts, slots, schedule, h);
  }

  lemma HeldGrows(s: State, t: State, h: nat, lock: Lock)
    requires t.inside == s.inside + {(lock, h)}
    ensures Held(t, h) == Held(s, h) + {lock}
  {
    assert (lock, h) in t.inside;
    forall l | l in Held(s, h)
      ensures l in Held(t, h)
    {
      assert (l, h) in t.inside;
    }
  }
}
