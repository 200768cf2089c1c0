/**
  The MCS queue lock of software/tests/benchmark/mcs_lock.c.

  Any number of harts call acquire, try_acquire and release on any number of locks, in any order and
  without any discipline.  A hart owns one row of binding slots; a slot holds the queue node that the
  hart uses for one lock.  Every access to a node or to a lock word is one step and the steps of
  different harts interleave in any order.  A slot's `in_use` flag and `lock` pointer are touched by
  their own hart only; `bound` holds them together: the slots in use, each with its lock.

  NULL is modelled by absence: a lock with no tail is not in `tail`, a node with no successor is not in
  `next`.  `hist` and `inside` are history and no step reads them.
  */
module McsLock {

  type Lock = nat

  /** The node in slot `slot` of the row of hart `hart`. */
  datatype Node = Node(hart: nat, slot: nat)

  datatype Option<T> = None | Some(value: T)

  datatype Call = Acquire(lock: Lock) | TryAcquire(lock: Lock) | Release(lock: Lock)

  datatype Pc =
    | Idle                                                        // between calls
    | Scan(lock: Lock, tryOnly: bool)                             // looks for a free slot
    | InitNode(lock: Lock, slot: nat, k: nat, tryOnly: bool)      // k-th initialising store
    | Swap(lock: Lock, slot: nat, tryOnly: bool)                  // exchange or CAS on `tail`
    | MarkLocked(lock: Lock, slot: nat, pred: Node)               // me->locked = true
    | LinkPred(lock: Lock, slot: nat, pred: Node)                 // pred->next = me
    | Spin(lock: Lock, slot: nat)                                 // while (me->locked)
    | LoadNext(lock: Lock, slot: nat)                             // succ = me->next
    | CasTail(lock: Lock, slot: nat)                              // CAS tail from me to NULL
    | AwaitNext(lock: Lock, slot: nat)                            // do succ = me->next while (!succ)
    | Handoff(lock: Lock, slot: nat, succ: Node)                  // succ->locked = false
    | Free(lock: Lock, slot: nat)                                 // release the slot

  /** Of one lock: the nodes from holder to tail, all harts that swapped in, all that got the lock. */
  datatype History = History(queue: seq<Node>, enqueued: seq<nat>, granted: seq<nat>)

  datatype State = State(
    slots: nat,
    tail: map<Lock, Node>,
    bound: map<Node, Lock>,
    next: map<Node, Node>,
    locked: set<Node>,
    pc: seq<Pc>,
    hist: map<Lock, History>,
    inside: set<(Lock, nat)>)

  function Init(harts: nat, slots: nat): State {
    State(slots, map[], map[], map[], {}, seq(harts, _ => Idle), map[], {})
  }

  function Hist(s: State, lock: Lock): History {
    if lock in s.hist then s.hist[lock] else History([], [], [])
  }

  function Q(s: State, lock: Lock): seq<Node> {
    Hist(s, lock).queue
  }

  // ----- The slot table -----

  /** The first free slot of a row, from slot `i` on. */
  function FirstFree(bound: map<Node, Lock>, hart: nat, i: nat, slots: nat): Option<nat>
    decreases slots - i
  {
    if i >= slots then None
    else if Node(hart, i) !in bound then Some(i)
    else FirstFree(bound, hart, i + 1, slots)
  }

  /** The first slot of a row that is in use for `lock`, from slot `i` on. */
  function Find(bound: map<Node, Lock>, hart: nat, lock: Lock, i: nat, slots: nat): Option<nat>
    decreases slots - i
  {
    if i >= slots then None
    else if Node(hart, i) in bound && bound[Node(hart, i)] == lock then Some(i)
    else Find(bound, hart, lock, i + 1, slots)
  }

  lemma {:induction false} FirstFreeSpec(bound: map<Node, Lock>, hart: nat, i: nat, slots: nat)
    ensures match FirstFree(bound, hart, i, slots)
            case Some(j) => i <= j < slots && Node(hart, j) !in bound
            case None => forall j :: i <= j < slots ==> Node(hart, j) in bound
    decreases slots - i
  {
    if i < slots && Node(hart, i) in bound {
      FirstFreeSpec(bound, hart, i + 1, slots);
    }
  }

  lemma {:induction false} FindSpec(bound: map<Node, Lock>, hart: nat, lock: Lock, i: nat, slots: nat)
    ensures match Find(bound, hart, lock, i, slots)
            case Some(j) => i <= j < slots && Node(hart, j) in bound && bound[Node(hart, j)] == lock
            case None => forall j :: i <= j < slots && Node(hart, j) in bound ==> bound[Node(hart, j)] != lock
    decreases slots - i
  {
    if i < slots && !(Node(hart, i) in bound && bound[Node(hart, i)] == lock) {
      FindSpec(bound, hart, lock, i + 1, slots);
    }
  }

  // ----- Steps -----

  function SetPc(s: State, h: nat, p: Pc): State
    requires h < |s.pc|
  {
    s.(pc := s.pc[h := p])
  }

  /** Hart `h` gets the lock: its acquire or try_acquire returns with success. */
  function Grant(s: State, h: nat, lock: Lock): State
    requires h < |s.pc|
  {
    var hi := Hist(s, lock);
    s.(pc := s.pc[h := Idle],
       hist := s.hist[lock := hi.(granted := hi.granted + [h])],
       inside := s.inside + {(lock, h)})
  }

  /** `me` becomes the tail of `lock`. */
  function Enqueue(s: State, lock: Lock, me: Node): State {
    var hi := Hist(s, lock);
    s.(tail := s.tail[lock := me],
       hist := s.hist[lock := hi.(queue := hi.queue + [me], enqueued := hi.enqueued + [me.hart])])
  }

  /** The holder of `lock` leaves the queue. */
  function Dequeue(s: State, h: nat, lock: Lock): State {
    var hi := Hist(s, lock);
    s.(hist := s.hist[lock := hi.(queue := if hi.queue == [] then [] else hi.queue[1..])],
       inside := s.inside - {(lock, h)})
  }

  /** Begins a call, if the hart is idle. */
  function Begin(s: State, h: nat, call: Call): State
    requires h < |s.pc|
  {
    match call
    case Acquire(lock) => SetPc(s, h, Scan(lock, false))
    case TryAcquire(lock) => SetPc(s, h, Scan(lock, true))
    case Release(lock) =>
      match Find(s.bound, h, lock, h, s.slots)
      case None => s
      case Some(i) => SetPc(s, h, LoadNext(lock, i))
  }

  function StepScan(s: State, h: nat, p: Pc): State
    requires h < |s.pc| && p.Scan?
  {
    match FirstFree(s.bound, h, h, s.slots)
    case None => s
    case Some(i) => SetPc(s, h, InitNode(p.lock, i, 0, p.tryOnly)).(bound := s.bound[Node(h, i) := p.lock])
  }

  function StepInitNode(s: State, h: nat, p: Pc): State
    requires h < |s.pc| && p.InitNode?
  {
    var me := Node(h, p.slot);
    var last := if p.tryOnly then 3 else 2;
    SetPc(if p.k % 2 == 0 then s.(next := s.next - {me}) else s.(locked := s.locked - {me}),
          h,
          if p.k == last then Swap(p.lock, p.slot, p.tryOnly) else InitNode(p.lock, p.slot, p.k + 1, p.tryOnly))
  }

  function StepSwap(s: State, h: nat, p: Pc): State
    requires h < |s.pc| && p.Swap?
  {
    var me := Node(h, p.slot);
    if p.lock !in s.tail then Grant(Enqueue(s, p.lock, me), h, p.lock)
    else if p.tryOnly then SetPc(s, h, Free(p.lock, p.slot))
    else SetPc(Enqueue(s, p.lock, me), h, MarkLocked(p.lock, p.slot, s.tail[p.lock]))
  }

  function StepCasTail(s: State, h: nat, p: Pc): State
    requires h < |s.pc| && p.CasTail?
  {
    if p.lock in s.tail && s.tail[p.lock] == Node(h, p.slot) then
      SetPc(Dequeue(s, h, p.lock), h, Free(p.lock, p.slot)).(tail := s.tail - {p.lock})
    else SetPc(s, h, AwaitNext(p.lock, p.slot))
  }

  function StepLinkPred(s: State, h: nat, p: Pc): State
    requires h < |s.pc| && p.LinkPred?
  {
    SetPc(s, h, Spin(p.lock, p.slot)).(next := s.next[p.pred := Node(h, p.slot)])
  }

  function StepSpin(s: State, h: nat, p: Pc): State
    requires h < |s.pc| && p.Spin?
  {
    if Node(h, p.slot) in s.locked then s else Grant(s, h, p.lock)
  }

  function StepHandoff(s: State, h: nat, p: Pc): State
    requires h < |s.pc| && p.Handoff?
  {
    SetPc(Dequeue(s, h, p.lock), h, Free(p.lock, p.slot)).(locked := s.locked - {p.succ})
  }

  /** One step of acquire or try_acquire. */
  function StepAcquire(s: State, h: nat, p: Pc): State
    requires h < |s.pc|
  {
    match p
    case Scan(_, _) => StepScan(s, h, p)
    case InitNode(_, _, _, _) => StepInitNode(s, h, p)
    case Swap(_, _, _) => StepSwap(s, h, p)
    case MarkLocked(lock, i, pred) =>
      SetPc(s, h, LinkPred(lock, i, pred)).(locked := s.locked + {Node(h, i)})
    case LinkPred(_, _, _) => StepLinkPred(s, h, p)
    case Spin(_, _) => StepSpin(s, h, p)
    case _ => s
  }

  /** One step of release. */
  function StepRelease(s: State, h: nat, p: Pc): State
    requires h < |s.pc|
  {
    match p
    case LoadNext(lock, i) =>
      SetPc(s, h, if Node(h, i) in s.next then Handoff(lock, i, s.next[Node(h, i)]) else CasTail(lock, i))
    case CasTail(_, _) => StepCasTail(s, h, p)
    case AwaitNext(lock, i) =>
      if Node(h, i) in s.next then SetPc(s, h, Handoff(lock, i, s.next[Node(h, i)])) else s
    case Handoff(_, _, _) => StepHandoff(s, h, p)
    case Free(_, i) =>
      SetPc(s, h, Idle).(bound := s.bound - {Node(h, i)})
    case _ => s
  }

  predicate Releasing(p: Pc) {
    p.LoadNext? || p.CasTail? || p.AwaitNext? || p.Handoff? || p.Free?
  }

  /** One step of hart `h`; `call` is the call it begins if it is between calls. */
  function Next(s: State, h: nat, call: Call): State {
    if h >= |s.pc| then s
    else if s.pc[h].Idle? then Begin(s, h, call)
    else if Releasing(s.pc[h]) then StepRelease(s, h, s.pc[h])
    else StepAcquire(s, h, s.pc[h])
  }

  datatype Event = Event(hart: nat, call: Call)

  function Exec(s: State, schedule: seq<Event>): State {
    if schedule == [] then s
    else
      var e := schedule[|schedule| - 1];
      Next(Exec(s, schedule[..|schedule| - 1]), e.hart, e.call)
  }

  // ----- The invariant -----

  /** The hart's current call works on slot `i`. */
  predicate OnSlot(p: Pc, i: nat) {
    !p.Idle? && !p.Scan? && p.slot == i
  }

  /** What the hart of `x` is doing with `x`: its program counter, or Idle if its call is about another node. */
  function Phase(s: State, x: Node): Pc {
    if x.hart < |s.pc| && OnSlot(s.pc[x.hart], x.slot) then s.pc[x.hart] else Idle
  }

  /** The node of the current call is in no queue. */
  predicate Private(p: Pc) {
    p.InitNode? || p.Swap? || p.Free?
  }

  /** What the hart of the k-th node of a queue may be doing with it. */
  predicate PhaseOk(s: State, lock: Lock, k: nat)
    requires k < |Q(s, lock)|
  {
    var x := Q(s, lock)[k];
    var p := Phase(s, x);
    if p.Idle? then k == 0
    else
      && p.lock == lock
      && !Private(p)
      && (if p.MarkLocked? then k > 0 && p.pred == Q(s, lock)[k - 1]
          else if p.LinkPred? then k > 0 && p.pred == Q(s, lock)[k - 1] && x in s.locked
          else if p.Spin? then k == 0 <==> x !in s.locked
          else k == 0)
  }

  /** `next` points to the following node exactly when that node has been linked. */
  predicate LinkOk(s: State, lock: Lock, k: nat)
    requires k < |Q(s, lock)|
  {
    var q := Q(s, lock);
    if k + 1 < |q| && Phase(s, q[k + 1]).Spin? then q[k] in s.next && s.next[q[k]] == q[k + 1]
    else q[k] !in s.next
  }

  ghost predicate NodeOk(s: State, lock: Lock, k: nat)
    requires k < |Q(s, lock)|
  {
    var x := Q(s, lock)[k];
    && x.hart < |s.pc|
    && x in s.bound && s.bound[x] == lock
    && PhaseOk(s, lock, k)
    && LinkOk(s, lock, k)
  }

  ghost predicate Distinct(q: seq<Node>) {
    forall i, j :: 0 <= i < j < |q| ==> q[i] != q[j]
  }

  ghost predicate TailOk(s: State, lock: Lock) {
    var q := Q(s, lock);
    if q == [] then lock !in s.tail else lock in s.tail && s.tail[lock] == q[|q| - 1]
  }

  /** What the current call knows about its node. */
  ghost predicate HartOk(s: State, h: nat)
    requires h < |s.pc|
  {
    var p := s.pc[h];
    p.Idle? || p.Scan? ||
    var me := Node(h, p.slot);
    && me in s.bound && s.bound[me] == p.lock
    && (Private(p) <==> me !in Q(s, p.lock))
    && (p.InitNode? ==> p.k <= 3 && (p.k == 3 ==> p.tryOnly && me !in s.next))
    && (p.Swap? ==> me !in s.next)
    && (p.AwaitNext? ==> |Q(s, p.lock)| >= 2)
    && (p.Handoff? ==> |Q(s, p.lock)| >= 2 && p.succ == Q(s, p.lock)[1] && Phase(s, p.succ).Spin?)
  }

  /** A slot in use belongs to a queue or to the current call of its hart. */
  ghost predicate SlotOk(s: State, x: Node)
    requires x in s.bound
  {
    && x.hart < |s.pc| && x.hart <= x.slot < s.slots
    && (x in Q(s, s.bound[x]) || Private(Phase(s, x)))
  }

  /** The head of a queue holds the lock, unless it has been woken and has not noticed yet. */
  ghost predicate Granted(s: State, lock: Lock) {
    Q(s, lock) != [] && !Phase(s, Q(s, lock)[0]).Spin?
  }

  ghost predicate InsideOk(s: State, lock: Lock) {
    forall h :: (lock, h) in s.inside <==> Granted(s, lock) && Q(s, lock)[0].hart == h
  }

  /** The queue is the end of `enqueued`, and `granted` is all of `enqueued` up to the holder, if there is one. */
  ghost predicate InOrder(hi: History, held: bool) {
    var served := |hi.enqueued| - |hi.queue|;
    && served >= 0
    && (forall k :: 0 <= k < |hi.queue| ==> hi.enqueued[served + k] == hi.queue[k].hart)
    && |hi.granted| == served + (if held then 1 else 0) <= |hi.enqueued|
    && hi.granted == hi.enqueued[..|hi.granted|]
  }

  ghost predicate FifoOk(s: State, lock: Lock) {
    InOrder(Hist(s, lock), Granted(s, lock))
  }

  lemma OrderAfterEnqueue(hi: History, held: bool, x: Node)
    requires InOrder(hi, held)
    ensures InOrder(hi.(queue := hi.queue + [x], enqueued := hi.enqueued + [x.hart]), held)
  {}

  lemma OrderAfterFirst(hi: History, x: Node)
    requires InOrder(hi, false) && hi.queue == []
    ensures InOrder(History([x], hi.enqueued + [x.hart], hi.granted + [x.hart]), true)
  {}

  lemma OrderAfterGrant(hi: History)
    requires InOrder(hi, false) && hi.queue != []
    ensures InOrder(hi.(granted := hi.granted + [hi.queue[0].hart]), true)
  {
    assert hi.enqueued[|hi.granted| + 0] == hi.queue[0].hart;
  }

  lemma OrderAfterDequeue(hi: History)
    requires InOrder(hi, true) && hi.queue != []
    ensures InOrder(hi.(queue := hi.queue[1..]), false)
  {
    var served := |hi.enqueued| - |hi.queue|;
    forall k | 0 <= k < |hi.queue[1..]| ensures hi.enqueued[served + 1 + k] == hi.queue[1..][k].hart {
      assert hi.enqueued[served + (k + 1)] == hi.queue[k + 1].hart;
    }
  }

  ghost predicate LockOk(s: State, lock: Lock) {
    && (forall k :: 0 <= k < |Q(s, lock)| ==> NodeOk(s, lock, k))
    && Distinct(Q(s, lock))
    && TailOk(s, lock)
    && InsideOk(s, lock)
    && FifoOk(s, lock)
  }

  ghost predicate Inv(s: State) {
    && (forall lock :: LockOk(s, lock))
    && (forall h :: 0 <= h < |s.pc| ==> HartOk(s, h))
    && (forall x :: x in s.bound ==> SlotOk(s, x))
  }

  // ----- Every step keeps the invariant -----

  lemma Position(s: State, lock: Lock, x: Node) returns (k: nat)
    requires Inv(s) && x in Q(s, lock)
    ensures k < |Q(s, lock)| && Q(s, lock)[k] == x && NodeOk(s, lock, k)
    ensures x in s.bound && s.bound[x] == lock && x.hart < |s.pc|
  {
    k :| 0 <= k < |Q(s, lock)| && Q(s, lock)[k] == x;
    assert LockOk(s, lock);
  }

  /** `t` differs from `s` only in the program counter of `h` and in the memory of its node `me`. */
  ghost predicate OnlyNode(s: State, t: State, h: nat, me: Node) {
    && me.hart == h < |s.pc| == |t.pc|
    && t.slots == s.slots && t.hist == s.hist && t.tail == s.tail && t.inside == s.inside
    && (forall g :: 0 <= g < |s.pc| && g != h ==> t.pc[g] == s.pc[g])
    && (forall x :: x != me ==> Phase(t, x) == Phase(s, x))
    && t.bound - {me} == s.bound - {me}
    && t.next - {me} == s.next - {me}
    && t.locked - {me} == s.locked - {me}
  }

  /** `me` is the j-th node of the queue of `lock`, or in no queue if `j` is negative. */
  ghost predicate At(s: State, me: Node, lock: Lock, j: int) {
    if j < 0 then me in s.bound ==> me !in Q(s, s.bound[me])
    else j < |Q(s, lock)| && Q(s, lock)[j] == me
  }

  /** Outside `me` the two states agree. */
  lemma OtherNode(s: State, t: State, h: nat, me: Node, x: Node)
    requires OnlyNode(s, t, h, me) && x != me
    ensures Phase(t, x) == Phase(s, x)
    ensures (x in t.bound <==> x in s.bound) && (x in s.bound ==> t.bound[x] == s.bound[x])
    ensures (x in t.next <==> x in s.next) && (x in s.next ==> t.next[x] == s.next[x])
    ensures x in t.locked <==> x in s.locked
  {
    assert x in t.bound <==> x in t.bound - {me};
    assert x in s.bound ==> (s.bound - {me})[x] == s.bound[x];
    assert x in t.next <==> x in t.next - {me};
    assert x in s.next ==> (s.next - {me})[x] == s.next[x];
    assert x in t.locked <==> x in t.locked - {me};
  }

  lemma OwnNodeLocks(s: State, t: State, h: nat, me: Node, lock: Lock, j: int, l: Lock)
    requires Inv(s) && OnlyNode(s, t, h, me)
    requires At(s, me, lock, j) && (j >= 0 ==> NodeOk(t, lock, j))
    requires Phase(t, me).Spin? == Phase(s, me).Spin?
    ensures LockOk(t, l)
  {
    var q := Q(s, l);
    assert LockOk(s, l) && LockOk(s, lock);
    forall k | 0 <= k < |q|
      ensures NodeOk(t, l, k)
    {
      assert NodeOk(s, l, k);
      if q[k] != me {
        OtherNode(s, t, h, me, q[k]);
        if k + 1 < |q| && q[k + 1] != me {
          OtherNode(s, t, h, me, q[k + 1]);
        }
      } else if j >= 0 {
        assert NodeOk(s, lock, j);
      }
    }
    if q != [] && q[0] != me {
      OtherNode(s, t, h, me, q[0]);
    }
    assert Granted(t, l) == Granted(s, l);
  }

  /** A step inside one's own node keeps the invariant if that node stays in order. */
  lemma OwnNodeStep(s: State, t: State, h: nat, me: Node, lock: Lock, j: int)
    requires Inv(s) && OnlyNode(s, t, h, me)
    requires HartOk(t, h)
    requires me in t.bound ==> SlotOk(t, me)
    requires At(s, me, lock, j) && (j >= 0 ==> NodeOk(t, lock, j))
    requires Phase(t, me).Spin? == Phase(s, me).Spin?
    ensures Inv(t)
  {
    forall l
      ensures LockOk(t, l)
    {
      OwnNodeLocks(s, t, h, me, lock, j, l);
    }
    forall g | 0 <= g < |t.pc|
      ensures HartOk(t, g)
    {
      assert HartOk(s, g);
      if g != h && !s.pc[g].Idle? && !s.pc[g].Scan? {
        OtherNode(s, t, h, me, Node(g, s.pc[g].slot));
      }
    }
    forall x | x in t.bound
      ensures SlotOk(t, x)
    {
      if x != me {
        OtherNode(s, t, h, me, x);
        assert SlotOk(s, x);
      }
    }
  }

  lemma InvIdle(s: State, h: nat, call: Call)
    requires Inv(s) && h < |s.pc| && s.pc[h].Idle?
    ensures Inv(Next(s, h, call))
  {
    var t := Next(s, h, call);
    FindSpec(s.bound, h, call.lock, h, s.slots);
    if t.pc[h].LoadNext? {
      var me := Node(h, t.pc[h].slot);
      assert SlotOk(s, me);
      var j := Position(s, call.lock, me);
      OwnNodeStep(s, t, h, me, call.lock, j);
    } else {
      var none := Node(h, s.slots);
      assert none in s.bound ==> SlotOk(s, none);
      OwnNodeStep(s, t, h, none, call.lock, -1);
    }
  }

  lemma InvScan(s: State, h: nat, call: Call)
    requires Inv(s) && h < |s.pc| && s.pc[h].Scan?
    ensures Inv(Next(s, h, call))
  {
    var t := Next(s, h, call);
    FirstFreeSpec(s.bound, h, h, s.slots);
    if t.pc[h].InitNode? {
      var me := Node(h, t.pc[h].slot);
      if me in Q(s, s.pc[h].lock) {
        var k := Position(s, s.pc[h].lock, me);
      }
      OwnNodeStep(s, t, h, me, s.pc[h].lock, -1);
    }
  }

  lemma InvInitNext(s: State, h: nat, call: Call)
    requires Inv(s) && h < |s.pc| && s.pc[h].InitNode? && s.pc[h].k % 2 == 0
    ensures Inv(Next(s, h, call))
  {
    var t := StepInitNode(s, h, s.pc[h]);
    var me := Node(h, s.pc[h].slot);
    assert HartOk(s, h) && SlotOk(s, me);
    assert OnlyNode(s, t, h, me);
    assert HartOk(t, h);
    OwnNodeStep(s, t, h, me, s.pc[h].lock, -1);
  }

  lemma InvInitLocked(s: State, h: nat, call: Call)
    requires Inv(s) && h < |s.pc| && s.pc[h].InitNode? && s.pc[h].k % 2 == 1
    ensures Inv(Next(s, h, call))
  {
    var t := StepInitNode(s, h, s.pc[h]);
    var me := Node(h, s.pc[h].slot);
    assert HartOk(s, h) && SlotOk(s, me);
    assert OnlyNode(s, t, h, me);
    assert HartOk(t, h);
    OwnNodeStep(s, t, h, me, s.pc[h].lock, -1);
  }

  lemma InvSwapFail(s: State, h: nat, call: Call)
    requires Inv(s) && h < |s.pc| && s.pc[h].Swap? && s.pc[h].tryOnly && s.pc[h].lock in s.tail
    ensures Inv(Next(s, h, call))
  {
    var t := Next(s, h, call);
    var me := Node(h, s.pc[h].slot);
    assert HartOk(s, h);
    OwnNodeStep(s, t, h, me, s.pc[h].lock, -1);
  }

  lemma InvMarkLocked(s: State, h: nat, call: Call)
    requires Inv(s) && h < |s.pc| && s.pc[h].MarkLocked?
    ensures Inv(Next(s, h, call))
  {
    var t := Next(s, h, call);
    var me := Node(h, s.pc[h].slot);
    assert HartOk(s, h);
    var j := Position(s, s.pc[h].lock, me);
    OwnNodeStep(s, t, h, me, s.pc[h].lock, j);
  }

  lemma InvLoadNext(s: State, h: nat, call: Call)
    requires Inv(s) && h < |s.pc| && s.pc[h].LoadNext?
    ensures Inv(Next(s, h, call))
  {
    var t := Next(s, h, call);
    var me := Node(h, s.pc[h].slot);
    assert HartOk(s, h);
    var j := Position(s, s.pc[h].lock, me);
    OwnNodeStep(s, t, h, me, s.pc[h].lock, j);
  }

  lemma InvCasTailLose(s: State, h: nat, call: Call)
    requires Inv(s) && h < |s.pc| && s.pc[h].CasTail?
    requires !(s.pc[h].lock in s.tail && s.tail[s.pc[h].lock] == Node(h, s.pc[h].slot))
    ensures Inv(Next(s, h, call))
  {
    var t := Next(s, h, call);
    var me := Node(h, s.pc[h].slot);
    assert HartOk(s, h);
    var j := Position(s, s.pc[h].lock, me);
    assert LockOk(s, s.pc[h].lock);
    OwnNodeStep(s, t, h, me, s.pc[h].lock, j);
  }

  lemma InvAwaitNext(s: State, h: nat, call: Call)
    requires Inv(s) && h < |s.pc| && s.pc[h].AwaitNext?
    ensures Inv(Next(s, h, call))
  {
    var t := Next(s, h, call);
    var me := Node(h, s.pc[h].slot);
    assert HartOk(s, h);
    var j := Position(s, s.pc[h].lock, me);
    OwnNodeStep(s, t, h, me, s.pc[h].lock, j);
  }

  lemma InvFree(s: State, h: nat, call: Call)
    requires Inv(s) && h < |s.pc| && s.pc[h].Free?
    ensures Inv(Next(s, h, call))
  {
    var t := Next(s, h, call);
    var me := Node(h, s.pc[h].slot);
    assert HartOk(s, h);
    OwnNodeStep(s, t, h, me, s.pc[h].lock, -1);
  }

  lemma SwapEmptyNodes(s: State, h: nat, l: Lock, k: nat)
    requires Inv(s) && h < |s.pc| && s.pc[h].Swap? && s.pc[h].lock !in s.tail
    requires k < |Q(StepSwap(s, h, s.pc[h]), l)|
    ensures NodeOk(StepSwap(s, h, s.pc[h]), l, k)
  {
    var p := s.pc[h];
    var me := Node(h, p.slot);
    assert HartOk(s, h) && LockOk(s, l) && LockOk(s, p.lock);
    assert l != p.lock ==> NodeOk(s, l, k);
    assert l != p.lock && k + 1 < |Q(s, l)| ==> NodeOk(s, l, k + 1);
  }

  lemma SwapEmptyInside(s: State, h: nat, l: Lock)
    requires Inv(s) && h < |s.pc| && s.pc[h].Swap? && s.pc[h].lock !in s.tail
    ensures InsideOk(StepSwap(s, h, s.pc[h]), l)
  {
    var p := s.pc[h];
    assert HartOk(s, h) && LockOk(s, l) && LockOk(s, p.lock);
    assert Q(s, l) != [] ==> NodeOk(s, l, 0);
  }

  lemma SwapEmptyElsewhere(s: State, h: nat, l: Lock)
    requires Inv(s) && h < |s.pc| && s.pc[h].Swap? && s.pc[h].lock !in s.tail && l != s.pc[h].lock
    ensures var t := StepSwap(s, h, s.pc[h]);
            Hist(t, l) == Hist(s, l) && Granted(t, l) == Granted(s, l)
  {
    assert HartOk(s, h) && LockOk(s, l);
    if Q(s, l) != [] {
      assert NodeOk(s, l, 0);
    }
  }

  lemma SwapEmptyHere(s: State, h: nat)
    requires Inv(s) && h < |s.pc| && s.pc[h].Swap? && s.pc[h].lock !in s.tail
    ensures var lock := s.pc[h].lock;
            var t := StepSwap(s, h, s.pc[h]);
            && Granted(t, lock) && InOrder(Hist(s, lock), false)
            && Hist(s, lock).queue == []
            && Hist(t, lock) ==
               History([Node(h, s.pc[h].slot)], Hist(s, lock).enqueued + [h], Hist(s, lock).granted + [h])
  {
    assert HartOk(s, h) && LockOk(s, s.pc[h].lock);
  }

  lemma SwapEmptyFifo(s: State, h: nat, l: Lock)
    requires Inv(s) && h < |s.pc| && s.pc[h].Swap? && s.pc[h].lock !in s.tail
    ensures FifoOk(StepSwap(s, h, s.pc[h]), l)
  {
    if l == s.pc[h].lock {
      SwapEmptyHere(s, h);
      OrderAfterFirst(Hist(s, l), Node(h, s.pc[h].slot));
    } else {
      SwapEmptyElsewhere(s, h, l);
      assert LockOk(s, l);
    }
  }

  lemma SwapEmptyLocks(s: State, h: nat, l: Lock)
    requires Inv(s) && h < |s.pc| && s.pc[h].Swap? && s.pc[h].lock !in s.tail
    ensures LockOk(StepSwap(s, h, s.pc[h]), l)
  {
    var t := StepSwap(s, h, s.pc[h]);
    assert LockOk(s, l) && TailOk(s, l) && HartOk(s, h);
    SwapEmptyInside(s, h, l);
    SwapEmptyFifo(s, h, l);
    forall k | 0 <= k < |Q(t, l)| ensures NodeOk(t, l, k) { SwapEmptyNodes(s, h, l, k); }
  }

  lemma SwapEmptyHarts(s: State, h: nat, g: nat)
    requires Inv(s) && h < |s.pc| && s.pc[h].Swap? && s.pc[h].lock !in s.tail && g < |s.pc|
    ensures HartOk(StepSwap(s, h, s.pc[h]), g)
  {
    var p := s.pc[h];
    var me := Node(h, p.slot);
    assert HartOk(s, h) && HartOk(s, g) && LockOk(s, p.lock);
  }

  lemma SwapEmptySlots(s: State, h: nat, x: Node)
    requires Inv(s) && h < |s.pc| && s.pc[h].Swap? && s.pc[h].lock !in s.tail && x in s.bound
    ensures SlotOk(StepSwap(s, h, s.pc[h]), x)
  {
    var p := s.pc[h];
    var me := Node(h, p.slot);
    assert HartOk(s, h) && SlotOk(s, x) && LockOk(s, p.lock);
  }

  lemma InvSwapEmpty(s: State, h: nat, call: Call)
    requires Inv(s) && h < |s.pc| && s.pc[h].Swap? && s.pc[h].lock !in s.tail
    ensures Inv(Next(s, h, call))
  {
    var t := Next(s, h, call);
    forall l ensures LockOk(t, l) { SwapEmptyLocks(s, h, l); }
    forall g | 0 <= g < |t.pc| ensures HartOk(t, g) { SwapEmptyHarts(s, h, g); }
    forall x | x in t.bound ensures SlotOk(t, x) { SwapEmptySlots(s, h, x); }
  }

  lemma SwapBusyOldNodes(s: State, h: nat, l: Lock, k: nat)
    requires Inv(s) && h < |s.pc| && s.pc[h].Swap? && !s.pc[h].tryOnly && s.pc[h].lock in s.tail
    requires k < |Q(s, l)|
    ensures k < |Q(StepSwap(s, h, s.pc[h]), l)| && NodeOk(StepSwap(s, h, s.pc[h]), l, k)
  {
    assert HartOk(s, h) && LockOk(s, l) && LockOk(s, s.pc[h].lock);
    assert NodeOk(s, l, k);
    if k + 1 < |Q(s, l)| {
      assert NodeOk(s, l, k + 1);
      SwapBusyKeeps(s, h, Q(s, l)[k + 1]);
    }
    SwapBusyKeeps(s, h, Q(s, l)[k]);
  }

  /** A node in a queue is not the one that the exchange puts on the tail. */
  lemma SwapBusyKeeps(s: State, h: nat, x: Node)
    requires Inv(s) && h < |s.pc| && s.pc[h].Swap? && !s.pc[h].tryOnly && s.pc[h].lock in s.tail
    requires x in s.bound && x in Q(s, s.bound[x])
    ensures x != Node(h, s.pc[h].slot) && Phase(StepSwap(s, h, s.pc[h]), x) == Phase(s, x)
  {
    assert HartOk(s, h);
  }

  lemma SwapBusyNewNode(s: State, h: nat, l: Lock, k: nat)
    requires Inv(s) && h < |s.pc| && s.pc[h].Swap? && !s.pc[h].tryOnly && s.pc[h].lock in s.tail
    requires |Q(s, l)| <= k < |Q(StepSwap(s, h, s.pc[h]), l)|
    ensures NodeOk(StepSwap(s, h, s.pc[h]), l, k)
  {
    assert HartOk(s, h) && LockOk(s, l) && LockOk(s, s.pc[h].lock);
  }

  lemma SwapBusyNodes(s: State, h: nat, l: Lock, k: nat)
    requires Inv(s) && h < |s.pc| && s.pc[h].Swap? && !s.pc[h].tryOnly && s.pc[h].lock in s.tail
    requires k < |Q(StepSwap(s, h, s.pc[h]), l)|
    ensures NodeOk(StepSwap(s, h, s.pc[h]), l, k)
  {
    if k < |Q(s, l)| {
      SwapBusyOldNodes(s, h, l, k);
    } else {
      SwapBusyNewNode(s, h, l, k);
    }
  }

  lemma SwapBusyInside(s: State, h: nat, l: Lock)
    requires Inv(s) && h < |s.pc| && s.pc[h].Swap? && !s.pc[h].tryOnly && s.pc[h].lock in s.tail
    ensures InsideOk(StepSwap(s, h, s.pc[h]), l)
  {
    var p := s.pc[h];
    assert HartOk(s, h) && LockOk(s, l) && LockOk(s, p.lock);
    assert Q(s, l) != [] ==> NodeOk(s, l, 0);
  }

  lemma SwapBusyFifo(s: State, h: nat, l: Lock)
    requires Inv(s) && h < |s.pc| && s.pc[h].Swap? && !s.pc[h].tryOnly && s.pc[h].lock in s.tail
    ensures FifoOk(StepSwap(s, h, s.pc[h]), l)
  {
    var p := s.pc[h];
    var me := Node(h, p.slot);
    assert HartOk(s, h) && LockOk(s, l) && FifoOk(s, l);
    assert Q(s, l) != [] ==> NodeOk(s, l, 0);
    OrderAfterEnqueue(Hist(s, l), Granted(s, l), me);
  }

  lemma SwapBusyLocks(s: State, h: nat, l: Lock)
    requires Inv(s) && h < |s.pc| && s.pc[h].Swap? && !s.pc[h].tryOnly && s.pc[h].lock in s.tail
    ensures LockOk(StepSwap(s, h, s.pc[h]), l)
  {
    var t := StepSwap(s, h, s.pc[h]);
    assert LockOk(s, l) && TailOk(s, l) && HartOk(s, h);
    SwapBusyInside(s, h, l);
    SwapBusyFifo(s, h, l);
    forall k | 0 <= k < |Q(t, l)| ensures NodeOk(t, l, k) { SwapBusyNodes(s, h, l, k); }
  }

  lemma SwapBusyHarts(s: State, h: nat, g: nat)
    requires Inv(s) && h < |s.pc| && s.pc[h].Swap? && !s.pc[h].tryOnly && s.pc[h].lock in s.tail && g < |s.pc|
    ensures HartOk(StepSwap(s, h, s.pc[h]), g)
  {
    var p := s.pc[h];
    var me := Node(h, p.slot);
    assert HartOk(s, h) && HartOk(s, g) && LockOk(s, p.lock);
  }

  lemma SwapBusySlots(s: State, h: nat, x: Node)
    requires Inv(s) && h < |s.pc| && s.pc[h].Swap? && !s.pc[h].tryOnly && s.pc[h].lock in s.tail && x in s.bound
    ensures SlotOk(StepSwap(s, h, s.pc[h]), x)
  {
    var p := s.pc[h];
    var me := Node(h, p.slot);
    assert HartOk(s, h) && SlotOk(s, x) && LockOk(s, p.lock);
  }

  lemma InvSwapBusy(s: State, h: nat, call: Call)
    requires Inv(s) && h < |s.pc| && s.pc[h].Swap? && !s.pc[h].tryOnly && s.pc[h].lock in s.tail
    ensures Inv(Next(s, h, call))
  {
    var t := StepSwap(s, h, s.pc[h]);
    assert Next(s, h, call) == t;
    forall l ensures LockOk(t, l) { SwapBusyLocks(s, h, l); }
    forall g | 0 <= g < |t.pc| ensures HartOk(t, g) { SwapBusyHarts(s, h, g); }
    forall x | x in t.bound ensures SlotOk(t, x) { SwapBusySlots(s, h, x); }
  }

  lemma LinkPredPhases(s: State, h: nat, l: Lock, k: nat)
    requires Inv(s) && h < |s.pc| && s.pc[h].LinkPred? && k < |Q(s, l)|
    ensures PhaseOk(StepLinkPred(s, h, s.pc[h]), l, k)
  {
    assert HartOk(s, h) && LockOk(s, l) && NodeOk(s, l, k);
  }

  lemma LinkPredLinks(s: State, h: nat, l: Lock, k: nat)
    requires Inv(s) && h < |s.pc| && s.pc[h].LinkPred? && k < |Q(s, l)|
    ensures LinkOk(StepLinkPred(s, h, s.pc[h]), l, k)
  {
    var p := s.pc[h];
    assert HartOk(s, h) && LockOk(s, l);
    var j := Position(s, p.lock, Node(h, p.slot));
    if l == p.lock && k == j - 1 {
      LinkPredOwn(s, h, k);
    } else {
      assert NodeOk(s, l, k);
      LinkPredOther(s, h, l, k, j);
    }
  }

  /** The link that the step writes. */
  lemma LinkPredOwn(s: State, h: nat, k: nat)
    requires h < |s.pc| && s.pc[h].LinkPred? && k + 1 < |Q(s, s.pc[h].lock)|
    requires Q(s, s.pc[h].lock)[k + 1] == Node(h, s.pc[h].slot)
    requires PhaseOk(s, s.pc[h].lock, k + 1)
    ensures LinkOk(StepLinkPred(s, h, s.pc[h]), s.pc[h].lock, k)
  {}

  /** All other links. */
  lemma LinkPredOther(s: State, h: nat, l: Lock, k: nat, j: nat)
    requires Inv(s) && h < |s.pc| && s.pc[h].LinkPred? && k < |Q(s, l)| && LinkOk(s, l, k)
    requires j < |Q(s, s.pc[h].lock)| && Q(s, s.pc[h].lock)[j] == Node(h, s.pc[h].slot)
    requires NodeOk(s, s.pc[h].lock, j) && !(l == s.pc[h].lock && k == j - 1)
    ensures LinkOk(StepLinkPred(s, h, s.pc[h]), l, k)
  {
    var p, q := s.pc[h], Q(s, l);
    assert LockOk(s, l) && LockOk(s, p.lock) && NodeOk(s, l, k) && NodeOk(s, p.lock, j - 1);
    assert q[k] != p.pred;
    assert k + 1 < |q| ==> NodeOk(s, l, k + 1) && q[k + 1] != Node(h, p.slot);
  }

  lemma LinkPredNodes(s: State, h: nat, l: Lock, k: nat)
    requires Inv(s) && h < |s.pc| && s.pc[h].LinkPred?
    requires k < |Q(StepLinkPred(s, h, s.pc[h]), l)|
    ensures NodeOk(StepLinkPred(s, h, s.pc[h]), l, k)
  {
    LinkPredPhases(s, h, l, k);
    LinkPredLinks(s, h, l, k);
    assert LockOk(s, l) && NodeOk(s, l, k);
  }

  lemma LinkPredLocks(s: State, h: nat, l: Lock)
    requires Inv(s) && h < |s.pc| && s.pc[h].LinkPred?
    ensures LockOk(StepLinkPred(s, h, s.pc[h]), l)
  {
    var t := StepLinkPred(s, h, s.pc[h]);
    var p := s.pc[h];
    var me := Node(h, p.slot);
    assert HartOk(s, h) && LockOk(s, l) && LockOk(s, p.lock);
    var j := Position(s, p.lock, me);
    assert Q(s, p.lock)[j - 1] == p.pred && NodeOk(s, p.lock, j - 1);
    assert Q(s, l) != [] ==> NodeOk(s, l, 0);
    forall k | 0 <= k < |Q(t, l)| ensures NodeOk(t, l, k) { LinkPredNodes(s, h, l, k); }
  }

  lemma LinkPredHarts(s: State, h: nat, g: nat)
    requires Inv(s) && h < |s.pc| && s.pc[h].LinkPred? && g < |s.pc|
    ensures HartOk(StepLinkPred(s, h, s.pc[h]), g)
  {
    var p := s.pc[h];
    var me := Node(h, p.slot);
    assert HartOk(s, h) && HartOk(s, g) && LockOk(s, p.lock);
    var j := Position(s, p.lock, me);
    assert Q(s, p.lock)[j - 1] == p.pred && NodeOk(s, p.lock, j - 1);
  }

  lemma LinkPredSlots(s: State, h: nat, x: Node)
    requires Inv(s) && h < |s.pc| && s.pc[h].LinkPred? && x in s.bound
    ensures SlotOk(StepLinkPred(s, h, s.pc[h]), x)
  {
    var p := s.pc[h];
    var me := Node(h, p.slot);
    assert HartOk(s, h) && SlotOk(s, x) && LockOk(s, p.lock);
    var j := Position(s, p.lock, me);
    assert Q(s, p.lock)[j - 1] == p.pred && NodeOk(s, p.lock, j - 1);
  }

  lemma InvLinkPred(s: State, h: nat, call: Call)
    requires Inv(s) && h < |s.pc| && s.pc[h].LinkPred?
    ensures Inv(Next(s, h, call))
  {
    var t := Next(s, h, call);
    forall l ensures LockOk(t, l) { LinkPredLocks(s, h, l); }
    forall g | 0 <= g < |t.pc| ensures HartOk(t, g) { LinkPredHarts(s, h, g); }
    forall x | x in t.bound ensures SlotOk(t, x) { LinkPredSlots(s, h, x); }
  }

  lemma SpinNodes(s: State, h: nat, l: Lock, k: nat)
    requires Inv(s) && h < |s.pc| && s.pc[h].Spin?
    requires k < |Q(StepSpin(s, h, s.pc[h]), l)|
    ensures NodeOk(StepSpin(s, h, s.pc[h]), l, k)
  {
    var p, t := s.pc[h], StepSpin(s, h, s.pc[h]);
    var me, q := Node(h, p.slot), Q(s, l);
    assert HartOk(s, h);
    var j := Position(s, p.lock, me);
    assert LockOk(s, l) && LockOk(s, p.lock) && NodeOk(s, l, k);
    if t != s {
      assert j == 0;
      if k + 1 < |q| {
        assert NodeOk(s, l, k + 1);
        assert q[k + 1] != me;
      }
    }
  }

  lemma SpinInside(s: State, h: nat, l: Lock)
    requires Inv(s) && h < |s.pc| && s.pc[h].Spin?
    ensures InsideOk(StepSpin(s, h, s.pc[h]), l)
  {
    var p := s.pc[h];
    var me := Node(h, p.slot);
    assert HartOk(s, h) && LockOk(s, l) && LockOk(s, p.lock);
    var j := Position(s, p.lock, me);
    assert Q(s, l) != [] ==> NodeOk(s, l, 0);
  }

  lemma SpinFifo(s: State, h: nat, l: Lock)
    requires Inv(s) && h < |s.pc| && s.pc[h].Spin?
    ensures FifoOk(StepSpin(s, h, s.pc[h]), l)
  {
    var p := s.pc[h];
    var me := Node(h, p.slot);
    assert HartOk(s, h) && LockOk(s, l) && FifoOk(s, l);
    var j := Position(s, p.lock, me);
    assert Q(s, l) != [] ==> NodeOk(s, l, 0);
    if l == p.lock && me !in s.locked {
      assert Q(s, l)[0] == me;
      OrderAfterGrant(Hist(s, l));
    }
  }

  lemma SpinLocks(s: State, h: nat, l: Lock)
    requires Inv(s) && h < |s.pc| && s.pc[h].Spin?
    ensures LockOk(StepSpin(s, h, s.pc[h]), l)
  {
    var t := StepSpin(s, h, s.pc[h]);
    assert LockOk(s, l);
    SpinInside(s, h, l);
    SpinFifo(s, h, l);
    forall k | 0 <= k < |Q(t, l)| ensures NodeOk(t, l, k) { SpinNodes(s, h, l, k); }
  }

  lemma SpinHarts(s: State, h: nat, g: nat)
    requires Inv(s) && h < |s.pc| && s.pc[h].Spin? && g < |s.pc|
    ensures HartOk(StepSpin(s, h, s.pc[h]), g)
  {
    var p := s.pc[h];
    var me := Node(h, p.slot);
    assert HartOk(s, h) && HartOk(s, g) && LockOk(s, p.lock);
    var j := Position(s, p.lock, me);
    if s.pc[g].Handoff? {
      assert LockOk(s, s.pc[g].lock) && NodeOk(s, s.pc[g].lock, 1);
    }
  }

  lemma SpinSlots(s: State, h: nat, x: Node)
    requires Inv(s) && h < |s.pc| && s.pc[h].Spin? && x in s.bound
    ensures SlotOk(StepSpin(s, h, s.pc[h]), x)
  {
    var p := s.pc[h];
    var me := Node(h, p.slot);
    assert HartOk(s, h) && SlotOk(s, x) && LockOk(s, p.lock);
    var j := Position(s, p.lock, me);
  }

  lemma InvSpin(s: State, h: nat, call: Call)
    requires Inv(s) && h < |s.pc| && s.pc[h].Spin?
    ensures Inv(Next(s, h, call))
  {
    var t := Next(s, h, call);
    forall l ensures LockOk(t, l) { SpinLocks(s, h, l); }
    forall g | 0 <= g < |t.pc| ensures HartOk(t, g) { SpinHarts(s, h, g); }
    forall x | x in t.bound ensures SlotOk(t, x) { SpinSlots(s, h, x); }
  }

  lemma CasTailWinNodes(s: State, h: nat, l: Lock, k: nat)
    requires Inv(s) && h < |s.pc| && s.pc[h].CasTail? && s.pc[h].lock in s.tail
    requires s.tail[s.pc[h].lock] == Node(h, s.pc[h].slot)
    requires k < |Q(StepCasTail(s, h, s.pc[h]), l)|
    ensures NodeOk(StepCasTail(s, h, s.pc[h]), l, k)
  {
    var p := s.pc[h];
    var me := Node(h, p.slot);
    assert HartOk(s, h) && LockOk(s, l) && LockOk(s, p.lock);
    var j := Position(s, p.lock, me);
    assert Q(s, p.lock) == [me];
    assert NodeOk(s, l, k);
  }

  lemma CasTailWinInside(s: State, h: nat, l: Lock)
    requires Inv(s) && h < |s.pc| && s.pc[h].CasTail? && s.pc[h].lock in s.tail
    requires s.tail[s.pc[h].lock] == Node(h, s.pc[h].slot)
    ensures InsideOk(StepCasTail(s, h, s.pc[h]), l)
  {
    var p := s.pc[h];
    assert HartOk(s, h) && LockOk(s, l) && LockOk(s, p.lock);
    var j := Position(s, p.lock, Node(h, p.slot));
    assert Q(s, l) != [] ==> NodeOk(s, l, 0);
  }

  lemma CasTailWinFifo(s: State, h: nat, l: Lock)
    requires Inv(s) && h < |s.pc| && s.pc[h].CasTail? && s.pc[h].lock in s.tail
    requires s.tail[s.pc[h].lock] == Node(h, s.pc[h].slot)
    ensures FifoOk(StepCasTail(s, h, s.pc[h]), l)
  {
    var p := s.pc[h];
    var me := Node(h, p.slot);
    assert HartOk(s, h) && LockOk(s, l) && FifoOk(s, l);
    var j := Position(s, p.lock, me);
    if l == p.lock {
      OrderAfterDequeue(Hist(s, l));
    } else {
      assert Q(s, l) != [] ==> NodeOk(s, l, 0);
    }
  }

  lemma CasTailWinLocks(s: State, h: nat, l: Lock)
    requires Inv(s) && h < |s.pc| && s.pc[h].CasTail? && s.pc[h].lock in s.tail
    requires s.tail[s.pc[h].lock] == Node(h, s.pc[h].slot)
    ensures LockOk(StepCasTail(s, h, s.pc[h]), l)
  {
    var t := StepCasTail(s, h, s.pc[h]);
    assert LockOk(s, l) && TailOk(s, l) && HartOk(s, h);
    assert LockOk(s, s.pc[h].lock);
    var j := Position(s, s.pc[h].lock, Node(h, s.pc[h].slot));
    CasTailWinInside(s, h, l);
    CasTailWinFifo(s, h, l);
    forall k | 0 <= k < |Q(t, l)| ensures NodeOk(t, l, k) { CasTailWinNodes(s, h, l, k); }
  }

  lemma CasTailWinHarts(s: State, h: nat, g: nat)
    requires Inv(s) && h < |s.pc| && s.pc[h].CasTail? && s.pc[h].lock in s.tail
    requires s.tail[s.pc[h].lock] == Node(h, s.pc[h].slot) && g < |s.pc|
    ensures HartOk(StepCasTail(s, h, s.pc[h]), g)
  {
    var p := s.pc[h];
    var me := Node(h, p.slot);
    assert HartOk(s, h) && HartOk(s, g) && LockOk(s, p.lock);
    var j := Position(s, p.lock, me);
    assert Q(s, p.lock) == [me];
  }

  lemma CasTailWinSlots(s: State, h: nat, x: Node)
    requires Inv(s) && h < |s.pc| && s.pc[h].CasTail? && s.pc[h].lock in s.tail
    requires s.tail[s.pc[h].lock] == Node(h, s.pc[h].slot) && x in s.bound
    ensures SlotOk(StepCasTail(s, h, s.pc[h]), x)
  {
    var p := s.pc[h];
    var me := Node(h, p.slot);
    assert HartOk(s, h) && SlotOk(s, x) && LockOk(s, p.lock);
    var j := Position(s, p.lock, me);
    assert Q(s, p.lock) == [me];
  }

  lemma InvCasTailWin(s: State, h: nat, call: Call)
    requires Inv(s) && h < |s.pc| && s.pc[h].CasTail? && s.pc[h].lock in s.tail
    requires s.tail[s.pc[h].lock] == Node(h, s.pc[h].slot)
    ensures Inv(Next(s, h, call))
  {
    var t := Next(s, h, call);
    forall l ensures LockOk(t, l) { CasTailWinLocks(s, h, l); }
    forall g | 0 <= g < |t.pc| ensures HartOk(t, g) { CasTailWinHarts(s, h, g); }
    forall x | x in t.bound ensures SlotOk(t, x) { CasTailWinSlots(s, h, x); }
  }

  lemma HandoffNodes(s: State, h: nat, l: Lock, k: nat)
    requires Inv(s) && h < |s.pc| && s.pc[h].Handoff?
    requires k < |Q(StepHandoff(s, h, s.pc[h]), l)|
    ensures NodeOk(StepHandoff(s, h, s.pc[h]), l, k)
  {
    if l == s.pc[h].lock {
      HandoffSameQueue(s, h, k);
    } else {
      HandoffOtherQueue(s, h, l, k);
    }
  }

  lemma HandoffSameQueue(s: State, h: nat, k: nat)
    requires Inv(s) && h < |s.pc| && s.pc[h].Handoff?
    requires k < |Q(StepHandoff(s, h, s.pc[h]), s.pc[h].lock)|
    ensures NodeOk(StepHandoff(s, h, s.pc[h]), s.pc[h].lock, k)
  {
    var p := s.pc[h];
    var q := Q(s, p.lock);
    assert HartOk(s, h) && LockOk(s, p.lock);
    var j := Position(s, p.lock, Node(h, p.slot));
    assert NodeOk(s, p.lock, k + 1) && Q(StepHandoff(s, h, p), p.lock)[k] == q[k + 1];
    assert k + 2 < |q| ==> NodeOk(s, p.lock, k + 2);
  }

  lemma HandoffOtherQueue(s: State, h: nat, l: Lock, k: nat)
    requires Inv(s) && h < |s.pc| && s.pc[h].Handoff? && l != s.pc[h].lock
    requires k < |Q(s, l)|
    ensures NodeOk(StepHandoff(s, h, s.pc[h]), l, k)
  {
    var t := StepHandoff(s, h, s.pc[h]);
    var me, x := Node(h, s.pc[h].slot), Q(s, l)[k];
    assert HartOk(s, h);
    assert LockOk(s, l) && LockOk(s, s.pc[h].lock) && NodeOk(s, s.pc[h].lock, 1) && NodeOk(s, l, k);
    assert x != me && x != s.pc[h].succ && Phase(t, x) == Phase(s, x);
    if k + 1 < |Q(s, l)| {
      assert NodeOk(s, l, k + 1);
      assert Phase(t, Q(s, l)[k + 1]) == Phase(s, Q(s, l)[k + 1]);
    }
  }

  lemma HandoffInside(s: State, h: nat, l: Lock)
    requires Inv(s) && h < |s.pc| && s.pc[h].Handoff?
    ensures InsideOk(StepHandoff(s, h, s.pc[h]), l)
  {
    assert LockOk(s, l);
    if l == s.pc[h].lock {
      HandoffOwnInside(s, h);
    } else {
      HandoffOtherInside(s, h, l);
    }
  }

  /** Until the woken follower notices, nobody is inside. */
  lemma HandoffOwnInside(s: State, h: nat)
    requires Inv(s) && h < |s.pc| && s.pc[h].Handoff?
    ensures InsideOk(StepHandoff(s, h, s.pc[h]), s.pc[h].lock)
  {
    var p := s.pc[h];
    assert HartOk(s, h) && LockOk(s, p.lock);
    var j := Position(s, p.lock, Node(h, p.slot));
    assert NodeOk(s, p.lock, 1);
  }

  lemma HandoffOtherInside(s: State, h: nat, l: Lock)
    requires Inv(s) && h < |s.pc| && s.pc[h].Handoff? && l != s.pc[h].lock
    ensures InsideOk(StepHandoff(s, h, s.pc[h]), l)
  {
    assert HartOk(s, h) && LockOk(s, l);
    assert Q(s, l) != [] ==> NodeOk(s, l, 0);
  }

  lemma HandoffFifo(s: State, h: nat, l: Lock)
    requires Inv(s) && h < |s.pc| && s.pc[h].Handoff?
    ensures FifoOk(StepHandoff(s, h, s.pc[h]), l)
  {
    assert LockOk(s, l);
    if l == s.pc[h].lock {
      HandoffOwnFifo(s, h);
    } else {
      HandoffOtherFifo(s, h, l);
    }
  }

  lemma HandoffOwnFifo(s: State, h: nat)
    requires Inv(s) && h < |s.pc| && s.pc[h].Handoff?
    ensures FifoOk(StepHandoff(s, h, s.pc[h]), s.pc[h].lock)
  {
    var p := s.pc[h];
    var l, t := p.lock, StepHandoff(s, h, p);
    assert HartOk(s, h) && LockOk(s, l);
    var j := Position(s, l, Node(h, p.slot));
    assert NodeOk(s, l, 0);
    assert Q(t, l)[0] == p.succ && Phase(t, p.succ) == Phase(s, p.succ);
    OrderAfterDequeue(Hist(s, l));
  }

  lemma HandoffOtherFifo(s: State, h: nat, l: Lock)
    requires Inv(s) && h < |s.pc| && s.pc[h].Handoff? && l != s.pc[h].lock
    ensures FifoOk(StepHandoff(s, h, s.pc[h]), l)
  {
    assert HartOk(s, h) && LockOk(s, l);
    assert Q(s, l) != [] ==> NodeOk(s, l, 0);
  }

  lemma HandoffLocks(s: State, h: nat, l: Lock)
    requires Inv(s) && h < |s.pc| && s.pc[h].Handoff?
    ensures LockOk(StepHandoff(s, h, s.pc[h]), l)
  {
    var t := StepHandoff(s, h, s.pc[h]);
    HandoffInside(s, h, l);
    HandoffFifo(s, h, l);
    forall k | 0 <= k < |Q(t, l)| ensures NodeOk(t, l, k) { HandoffNodes(s, h, l, k); }
    assert HartOk(s, h) && LockOk(s, l) && TailOk(s, l) && Distinct(Q(s, l));
  }

  lemma HandoffHarts(s: State, h: nat, g: nat)
    requires Inv(s) && h < |s.pc| && s.pc[h].Handoff? && g < |s.pc|
    ensures HartOk(StepHandoff(s, h, s.pc[h]), g)
  {
    var p, q := s.pc[h], s.pc[g];
    assert HartOk(s, h) && HartOk(s, g) && LockOk(s, p.lock);
    var j := Position(s, p.lock, Node(h, p.slot));
    if g == h {
      assert Distinct(Q(s, p.lock));
    } else if !q.Idle? && !q.Scan? {
      HandoffOtherHart(s, h, g);
    }
  }

  lemma HandoffOtherHart(s: State, h: nat, g: nat)
    requires Inv(s) && h < |s.pc| && s.pc[h].Handoff? && g < |s.pc| && g != h
    requires !s.pc[g].Idle? && !s.pc[g].Scan?
    ensures HartOk(StepHandoff(s, h, s.pc[h]), g)
  {
    var t := StepHandoff(s, h, s.pc[h]);
    var p, q := s.pc[h], s.pc[g];
    var other := Node(g, q.slot);
    assert HartOk(s, h) && HartOk(s, g) && LockOk(s, p.lock);
    var j := Position(s, p.lock, Node(h, p.slot));
    assert t.pc[g] == q && t.bound == s.bound && t.next == s.next;
    if Private(q) {
      assert other !in Q(t, q.lock);
    } else {
      var i := Position(s, q.lock, other);
      if q.lock == p.lock {
        assert i > 0;
        assert Q(t, p.lock)[i - 1] == other;
      } else {
        assert Q(t, q.lock) == Q(s, q.lock);
        if q.Handoff? {
          assert NodeOk(s, q.lock, 0) && LockOk(s, q.lock) && NodeOk(s, q.lock, 1);
        }
      }
    }
  }

  lemma HandoffSlots(s: State, h: nat, x: Node)
    requires Inv(s) && h < |s.pc| && s.pc[h].Handoff? && x in s.bound
    ensures SlotOk(StepHandoff(s, h, s.pc[h]), x)
  {
    var p := s.pc[h];
    var me := Node(h, p.slot);
    assert HartOk(s, h) && SlotOk(s, x) && LockOk(s, p.lock);
    var j := Position(s, p.lock, me);
    assert NodeOk(s, p.lock, 1);
  }

  lemma InvHandoff(s: State, h: nat, call: Call)
    requires Inv(s) && h < |s.pc| && s.pc[h].Handoff?
    ensures Inv(Next(s, h, call))
  {
    var t := Next(s, h, call);
    forall l ensures LockOk(t, l) { HandoffLocks(s, h, l); }
    forall g | 0 <= g < |t.pc| ensures HartOk(t, g) { HandoffHarts(s, h, g); }
    forall x | x in t.bound ensures SlotOk(t, x) { HandoffSlots(s, h, x); }
  }

  lemma NextInv(s: State, h: nat, call: Call)
    requires Inv(s)
    ensures Inv(Next(s, h, call))
  {
    if h < |s.pc| {
      match s.pc[h]
      case Idle => InvIdle(s, h, call);
      case Scan(_, _) => InvScan(s, h, call);
      case InitNode(_, _, k, _) => if k % 2 == 0 { InvInitNext(s, h, call); } else { InvInitLocked(s, h, call); }
      case Swap(lock, _, tryOnly) =>
        if lock !in s.tail {
          InvSwapEmpty(s, h, call);
        } else if tryOnly {
          InvSwapFail(s, h, call);
        } else {
          InvSwapBusy(s, h, call);
        }
      case MarkLocked(_, _, _) => InvMarkLocked(s, h, call);
      case LinkPred(_, _, _) => InvLinkPred(s, h, call);
      case Spin(_, _) => InvSpin(s, h, call);
      case LoadNext(_, _) => InvLoadNext(s, h, call);
      case CasTail(lock, i) =>
        if lock in s.tail && s.tail[lock] == Node(h, i) {
          InvCasTailWin(s, h, call);
        } else {
          InvCasTailLose(s, h, call);
        }
      case AwaitNext(_, _) => InvAwaitNext(s, h, call);
      case Handoff(_, _, _) => InvHandoff(s, h, call);
      case Free(_, _) => InvFree(s, h, call);
    }
  }

  lemma {:induction false} ExecInv(harts: nat, slots: nat, schedule: seq<Event>)
    ensures Inv(Exec(Init(harts, slots), schedule))
  {
    if schedule != [] {
      var k := |schedule| - 1;
      ExecInv(harts, slots, schedule[..k]);
      NextInv(Exec(Init(harts, slots), schedule[..k]), schedule[k].hart, schedule[k].call);
    }
  }

  // ----- Main results, for every reachable state -----

  /** At most one hart is between getting a lock and giving it up. */
  lemma MutualExclusion(harts: nat, slots: nat, schedule: seq<Event>, lock: Lock, a: nat, b: nat)
    requires var s := Exec(Init(harts, slots), schedule);
             (lock, a) in s.inside && (lock, b) in s.inside
    ensures a == b
  {
    ExecInv(harts, slots, schedule);
    assert LockOk(Exec(Init(harts, slots), schedule), lock);
  }

  /** The k-th node of the queue waits, linked to the node before it or with that link its next-but-one step. */
  ghost predicate Waits(s: State, lock: Lock, k: nat)
    requires 0 < k < |Q(s, lock)|
  {
    var me, before := Q(s, lock)[k], Q(s, lock)[k - 1];
    match Phase(s, me)
    case MarkLocked(_, _, pred) => pred == before && before !in s.next
    case LinkPred(_, _, pred) => pred == before && before !in s.next
    case Spin(_, _) => me in s.locked && before in s.next && s.next[before] == me
    case _ => false
  }

  /** The hart is in an acquire that has entered the queue and has not returned. */
  predicate Enqueued(s: State, h: nat, lock: Lock) {
    h < |s.pc| && (s.pc[h].MarkLocked? || s.pc[h].LinkPred? || s.pc[h].Spin?) && s.pc[h].lock == lock
  }

  lemma EnqueuedIsQueued(s: State, lock: Lock)
    requires Inv(s)
    ensures forall h: nat :: Enqueued(s, h, lock) ==> Node(h, s.pc[h].slot) in Q(s, lock)
  {
    forall h: nat | Enqueued(s, h, lock)
      ensures Node(h, s.pc[h].slot) in Q(s, lock)
    {
      assert HartOk(s, h);
    }
  }

  lemma FollowerWaits(s: State, lock: Lock, k: nat)
    requires LockOk(s, lock) && 0 < k < |Q(s, lock)|
    ensures Waits(s, lock, k)
  {
    assert NodeOk(s, lock, k) && NodeOk(s, lock, k - 1);
  }

  /** The queue without repetition, its tail, and the links between its nodes. */
  ghost predicate IsQueue(s: State, lock: Lock) {
    && Distinct(Q(s, lock))
    && TailOk(s, lock)
    && (forall k :: 0 < k < |Q(s, lock)| ==> Waits(s, lock, k))
    && (forall h: nat :: Enqueued(s, h, lock) ==> Node(h, s.pc[h].slot) in Q(s, lock))
  }

  /**
    The holder and the waiters of a lock form one duplicate-free queue that ends in `tail`.  Every hart
    past its exchange stands in it, and each link is either written or will be written by the follower.
    */
  lemma OneQueue(harts: nat, slots: nat, schedule: seq<Event>, lock: Lock)
    ensures IsQueue(Exec(Init(harts, slots), schedule), lock)
  {
    ExecInv(harts, slots, schedule);
    QueueOf(Exec(Init(harts, slots), schedule), lock);
  }

  lemma QueueOf(s: State, lock: Lock)
    requires Inv(s)
    ensures IsQueue(s, lock)
  {
    assert LockOk(s, lock);
    EnqueuedIsQueued(s, lock);
    forall k | 0 < k < |Q(s, lock)|
      ensures Waits(s, lock, k)
    {
      FollowerWaits(s, lock, k);
    }
  }

  /** The node is free, or being prepared or freed by its own hart. */
  predicate OutOfUse(s: State, x: Node) {
    x !in s.bound || Private(Phase(s, x))
  }

  /**
    Nothing shared refers to a node that is out of use: no tail, no hart about to write through its
    `pred` pointer or about to wake it, and no node of any queue.  Rebinding its slot is safe.
    */
  lemma RecyclingIsSafe(harts: nat, slots: nat, schedule: seq<Event>, x: Node)
    requires OutOfUse(Exec(Init(harts, slots), schedule), x)
    ensures var s := Exec(Init(harts, slots), schedule);
            && (forall lock :: lock in s.tail ==> s.tail[lock] != x)
            && (forall h :: 0 <= h < |s.pc| && (s.pc[h].MarkLocked? || s.pc[h].LinkPred?) ==> s.pc[h].pred != x)
            && (forall h :: 0 <= h < |s.pc| && s.pc[h].Handoff? ==> s.pc[h].succ != x)
    ensures var s := Exec(Init(harts, slots), schedule);
            forall lock, y :: y in Q(s, lock) && y in s.next ==> s.next[y] != x
  {
    ExecInv(harts, slots, schedule);
    var s := Exec(Init(harts, slots), schedule);
    forall lock
      ensures x !in Q(s, lock)
    {
      if x in Q(s, lock) {
        var k := Position(s, lock, x);
      }
    }
    forall lock | lock in s.tail ensures s.tail[lock] in Q(s, lock) { assert LockOk(s, lock); }
    forall h | 0 <= h < |s.pc| && (s.pc[h].MarkLocked? || s.pc[h].LinkPred?)
      ensures s.pc[h].pred in Q(s, s.pc[h].lock)
    {
      assert HartOk(s, h);
      var k := Position(s, s.pc[h].lock, Node(h, s.pc[h].slot));
    }
    forall h | 0 <= h < |s.pc| && s.pc[h].Handoff?
      ensures s.pc[h].succ in Q(s, s.pc[h].lock)
    {
      assert HartOk(s, h);
    }
    forall lock, y | y in Q(s, lock) && y in s.next
      ensures s.next[y] in Q(s, lock)
    {
      var k := Position(s, lock, y);
    }
  }

  /**
    For a hart between calls, the slot that a release finds for a lock is exactly the one at the head of
    that lock's queue, and it finds none exactly if the hart does not hold the lock.
    */
  lemma FindReturnsTheHoldingSlot(harts: nat, slots: nat, schedule: seq<Event>, h: nat, lock: Lock)
    requires var s := Exec(Init(harts, slots), schedule);
             h < |s.pc| && s.pc[h].Idle?
    ensures var s := Exec(Init(harts, slots), schedule);
            match Find(s.bound, h, lock, h, s.slots)
            case Some(i) => (lock, h) in s.inside && Q(s, lock) != [] && Q(s, lock)[0] == Node(h, i)
            case None => (lock, h) !in s.inside
  {
    ExecInv(harts, slots, schedule);
    var s := Exec(Init(harts, slots), schedule);
    FindSpec(s.bound, h, lock, h, s.slots);
    assert LockOk(s, lock);
    match Find(s.bound, h, lock, h, s.slots)
    case Some(i) =>
      assert SlotOk(s, Node(h, i));
      var k := Position(s, lock, Node(h, i));
    case None =>
      if Q(s, lock) != [] {
        assert NodeOk(s, lock, 0) && SlotOk(s, Q(s, lock)[0]);
      }
  }

  lemma LockAlwaysOk(harts: nat, slots: nat, schedule: seq<Event>, lock: Lock)
    ensures LockOk(Exec(Init(harts, slots), schedule), lock)
  {
    ExecInv(harts, slots, schedule);
  }

  /** The grants are a prefix of the entries, and the others stand in the queue, behind the holder if there is one. */
  ghost predicate Served(hi: History, holders: nat) {
    && hi.granted <= hi.enqueued
    && |hi.enqueued| - |hi.granted| == |hi.queue| - holders
    && (forall k :: holders <= k < |hi.queue| ==> hi.enqueued[|hi.granted| - holders + k] == hi.queue[k].hart)
  }

  lemma EntriesInOrder(hi: History, held: bool)
    requires InOrder(hi, held)
    ensures Served(hi, if held then 1 else 0)
  {}

  /**
    Harts get a lock in the order in which their exchange or CAS put them on its tail: those that have
    got it are a prefix, and the harts waiting in the queue are all the others, in the same order.
    */
  lemma FirstComeFirstServed(harts: nat, slots: nat, schedule: seq<Event>, lock: Lock)
    ensures var s := Exec(Init(harts, slots), schedule);
            Served(Hist(s, lock), if Granted(s, lock) then 1 else 0)
  {
    LockAlwaysOk(harts, slots, schedule, lock);
    var s := Exec(Init(harts, slots), schedule);
    EntriesInOrder(Hist(s, lock), Granted(s, lock));
  }

  // ----- Progress -----

  /** A step leaves other harts' program counters and rows alone. */
  ghost predicate OthersKept(s: State, t: State, g: nat) {
    && t.slots == s.slots && |t.pc| == |s.pc|
    && (g < |s.pc| ==> t.pc == s.pc[g := t.pc[g]])
    && (forall x: Node :: x.hart != g ==> (x in t.bound <==> x in s.bound))
  }

  lemma ScanKeepsOthers(s: State, g: nat)
    requires g < |s.pc| && s.pc[g].Scan?
    ensures OthersKept(s, StepScan(s, g, s.pc[g]), g)
  {}

  lemma SwapKeepsOthers(s: State, g: nat)
    requires g < |s.pc| && s.pc[g].Swap?
    ensures OthersKept(s, StepSwap(s, g, s.pc[g]), g)
  {}

  lemma AcquireKeepsOthers(s: State, g: nat)
    requires g < |s.pc|
    ensures OthersKept(s, StepAcquire(s, g, s.pc[g]), g)
  {
    if s.pc[g].Scan? {
      ScanKeepsOthers(s, g);
    } else if s.pc[g].Swap? {
      SwapKeepsOthers(s, g);
    }
  }

  lemma CasTailKeepsOthers(s: State, g: nat)
    requires g < |s.pc| && s.pc[g].CasTail?
    ensures OthersKept(s, StepCasTail(s, g, s.pc[g]), g)
  {}

  lemma HandoffKeepsOthers(s: State, g: nat)
    requires g < |s.pc| && s.pc[g].Handoff?
    ensures OthersKept(s, StepHandoff(s, g, s.pc[g]), g)
  {}

  lemma ReleaseKeepsOthers(s: State, g: nat)
    requires g < |s.pc|
    ensures OthersKept(s, StepRelease(s, g, s.pc[g]), g)
  {
    if s.pc[g].CasTail? {
      CasTailKeepsOthers(s, g);
    } else if s.pc[g].Handoff? {
      HandoffKeepsOthers(s, g);
    }
  }

  lemma NextKeepsOthers(s: State, g: nat, call: Call)
    ensures OthersKept(s, Next(s, g, call), g)
  {
    if g < |s.pc| {
      AcquireKeepsOthers(s, g);
      ReleaseKeepsOthers(s, g);
    }
  }

  /** The steps that the follower of a releasing holder still needs to link itself. */
  function LinkSteps(p: Pc): nat {
    match p
    case MarkLocked(_, _, _) => 2
    case LinkPred(_, _, _) => 1
    case _ => 0
  }

  /** A step of a hart other than the head's leaves the first two nodes of a queue in place. */
  lemma FrontStays(s: State, lock: Lock, g: nat, call: Call)
    requires Inv(s) && |Q(s, lock)| >= 2 && g != Q(s, lock)[0].hart
    ensures var t := Next(s, g, call);
            |Q(t, lock)| >= 2 && Q(t, lock)[1] == Q(s, lock)[1]
  {
    if g < |s.pc| {
      if s.pc[g].CasTail? || s.pc[g].Handoff? {
        assert HartOk(s, g) && LockOk(s, lock);
        var i := Position(s, s.pc[g].lock, Node(g, s.pc[g].slot));
      }
      AcquireKeepsFront(s, g, lock);
      ReleaseKeepsFront(s, g, lock);
    }
  }

  lemma AcquireKeepsFront(s: State, g: nat, lock: Lock)
    requires g < |s.pc|
    ensures Q(s, lock) <= Q(StepAcquire(s, g, s.pc[g]), lock)
  {}

  lemma ReleaseKeepsFront(s: State, g: nat, lock: Lock)
    requires g < |s.pc| && ((s.pc[g].CasTail? || s.pc[g].Handoff?) ==> s.pc[g].lock != lock)
    ensures Q(StepRelease(s, g, s.pc[g]), lock) == Q(s, lock)
  {}

  /** What one step does to the work that a waiting node still has to do to link itself. */
  lemma FollowerStep(s: State, x: Node, g: nat, call: Call)
    requires x.hart < |s.pc|
    requires Phase(s, x).MarkLocked? || Phase(s, x).LinkPred? || Phase(s, x).Spin?
    ensures var t := Next(s, g, call);
            && (g != x.hart ==> Phase(t, x) == Phase(s, x))
            && LinkSteps(Phase(t, x)) <= LinkSteps(Phase(s, x))
            && (g == x.hart && LinkSteps(Phase(s, x)) > 0 ==> LinkSteps(Phase(t, x)) < LinkSteps(Phase(s, x)))
  {
    NextKeepsOthers(s, g, call);
    if g == x.hart {
      assert s.pc[g] == Phase(s, x);
    }
  }

  /** What a step of hart `g` does while hart `h` waits for its successor to link itself. */
  ghost predicate HandoffComes(s: State, t: State, h: nat, g: nat) {
    && h < |s.pc| == |t.pc| && s.pc[h].AwaitNext? && |Q(s, s.pc[h].lock)| >= 2
    && var lock := s.pc[h].lock;
       var follower := Q(s, lock)[1];
       var work := LinkSteps(Phase(s, follower));
       && follower.hart != h
       && (g != h ==> t.pc[h] == s.pc[h] && |Q(t, lock)| >= 2 && Q(t, lock)[1] == follower
                      && LinkSteps(Phase(t, follower)) <= work)
       && (g == follower.hart && work > 0 ==> LinkSteps(Phase(t, follower)) < work)
       && (g == h && work == 0 ==> t.pc[h] == Handoff(lock, s.pc[h].slot, follower))
  }

  lemma HandoffDue(s: State, h: nat, g: nat, call: Call)
    requires Inv(s) && h < |s.pc| && s.pc[h].AwaitNext?
    ensures HandoffComes(s, Next(s, g, call), h, g)
  {
    var lock := s.pc[h].lock;
    assert HartOk(s, h) && LockOk(s, lock);
    var j := Position(s, lock, Node(h, s.pc[h].slot));
    assert NodeOk(s, lock, 0) && NodeOk(s, lock, 1);
    NextKeepsOthers(s, g, call);
    FollowerStep(s, Q(s, lock)[1], g, call);
    if g != h {
      FrontStays(s, lock, g, call);
    }
  }

  /**
    A holder that waits for its successor to link itself waits for one specific hart.  No step of
    anybody else makes that hart's remaining work grow or ends its turn; each of its own steps shrinks
    the work, and when nothing is left the holder's next load succeeds.
    */
  lemma HandoffIsDue(harts: nat, slots: nat, schedule: seq<Event>, h: nat, g: nat, call: Call)
    requires var s := Exec(Init(harts, slots), schedule);
             h < |s.pc| && s.pc[h].AwaitNext?
    ensures var s := Exec(Init(harts, slots), schedule);
            HandoffComes(s, Next(s, g, call), h, g)
  {
    ExecInv(harts, slots, schedule);
    HandoffDue(Exec(Init(harts, slots), schedule), h, g, call);
  }

  /** The hart's next step changes the state. */
  ghost predicate CanStep(s: State, h: nat) {
    h < |s.pc| && !s.pc[h].Idle? && Next(s, h, Release(0)) != s
  }

  /** The head of the queue, at rest or able to step, or waiting for a follower that can step. */
  ghost predicate Moves(s: State, lock: Lock)
    requires Q(s, lock) != []
  {
    var q := Q(s, lock);
    || ((lock, q[0].hart) in s.inside && Phase(s, q[0]).Idle?)
    || CanStep(s, q[0].hart)
    || (Phase(s, q[0]).AwaitNext? && |q| > 1 && CanStep(s, q[1].hart))
  }

  lemma FollowerMoves(s: State, lock: Lock)
    requires Inv(s) && |Q(s, lock)| > 1 && Phase(s, Q(s, lock)[0]).AwaitNext?
    ensures Moves(s, lock)
  {
    var x, y := Q(s, lock)[0], Q(s, lock)[1];
    assert LockOk(s, lock) && NodeOk(s, lock, 0) && NodeOk(s, lock, 1) && HartOk(s, y.hart);
    assert LinkSteps(Phase(s, y)) > 0 ==> Next(s, y.hart, Release(0)).pc[y.hart] != s.pc[y.hart];
    assert x in s.next ==> Next(s, x.hart, Release(0)).pc[x.hart] != s.pc[x.hart];
  }

  lemma HeadMoves(s: State, lock: Lock)
    requires Inv(s) && Q(s, lock) != [] && !Phase(s, Q(s, lock)[0]).AwaitNext?
    ensures Moves(s, lock)
  {
    var x := Q(s, lock)[0];
    assert LockOk(s, lock) && NodeOk(s, lock, 0) && HartOk(s, x.hart);
    if !Phase(s, x).Idle? {
      assert Next(s, x.hart, Release(0)).pc[x.hart] != s.pc[x.hart];
    }
  }

  /**
    A lock that anybody queues for is never stuck: its head hart is between lock calls or in the middle
    of another call, still holding it, or the head hart can step, or the hart it waits for can.
    */
  lemma NeverStuck(harts: nat, slots: nat, schedule: seq<Event>, lock: Lock)
    requires Q(Exec(Init(harts, slots), schedule), lock) != []
    ensures Moves(Exec(Init(harts, slots), schedule), lock)
  {
    ExecInv(harts, slots, schedule);
    var s := Exec(Init(harts, slots), schedule);
    if Phase(s, Q(s, lock)[0]).AwaitNext? {
      HeadWaits(s, lock);
      FollowerMoves(s, lock);
    } else {
      HeadMoves(s, lock);
    }
  }

  /** A head that waits for its successor's link has a successor. */
  lemma HeadWaits(s: State, lock: Lock)
    requires Inv(s) && Q(s, lock) != [] && Phase(s, Q(s, lock)[0]).AwaitNext?
    ensures |Q(s, lock)| > 1
  {
    assert LockOk(s, lock) && NodeOk(s, lock, 0) && HartOk(s, Q(s, lock)[0].hart);
  }

  /** All slots of the row of `h` are in use. */
  ghost predicate RowFull(s: State, h: nat) {
    forall i :: h <= i < s.slots ==> Node(h, i) in s.bound
  }

  lemma RowStaysFull(s: State, h: nat, g: nat, call: Call)
    requires h < |s.pc| && s.pc[h].Scan? && RowFull(s, h)
    ensures var t := Next(s, g, call);
            t.slots == s.slots && |t.pc| == |s.pc| && t.pc[h] == s.pc[h] && RowFull(t, h)
  {
    FirstFreeSpec(s.bound, h, h, s.slots);
    if g == h {
      assert Next(s, g, call) == s;
    } else {
      NextKeepsOthers(s, g, call);
    }
  }

  /**
    The loop that waits for a slot to become free never ends: only the waiting hart could free one.  So
    a hart that acquires a lock while all slots of its row are in use waits forever, whatever others do.
    */
  lemma {:induction false} FullRowWaitsForever(s: State, h: nat, schedule: seq<Event>)
    requires h < |s.pc| && s.pc[h].Scan? && RowFull(s, h)
    ensures var t := Exec(s, schedule);
            t.slots == s.slots && |t.pc| == |s.pc| && t.pc[h] == s.pc[h] && RowFull(t, h)
  {
    if schedule != [] {
      var k := |schedule| - 1;
      FullRowWaitsForever(s, h, schedule[..k]);
      RowStaysFull(Exec(s, schedule[..k]), h, schedule[k].hart, schedule[k].call);
    }
  }

  // ----- The locks in memory -----

  /** The lock words and the binding table, with the program counters of all harts. */
  class McsLocks {
    const slots: nat
    var tail: map<Lock, Node>
    var bound: map<Node, Lock>
    var next: map<Node, Node>
    var locked: set<Node>
    var pc: seq<Pc>
    ghost var hist: map<Lock, History>
    ghost var inside: set<(Lock, nat)>

    ghost function View(): State
      reads this
    {
      State(slots, tail, bound, next, locked, pc, hist, inside)
    }

    constructor (harts: nat, slots: nat)
      ensures View() == Init(harts, slots)
    {
      this.slots := slots;
      tail, bound, next, locked, hist, inside := map[], map[], map[], {}, map[], {};
      pc := seq(harts, _ => Idle);
    }

    /** The scan of `mcs_bind_acquire_slot`. */
    method BindScan(h: nat) returns (r: Option<nat>)
      ensures r == FirstFree(bound, h, h, slots)
    {
      var i := h;
      while i < slots
        invariant FirstFree(bound, h, i, slots) == FirstFree(bound, h, h, slots)
        decreases slots - i
      {
        if Node(h, i) !in bound {
          return Some(i);
        }
        i := i + 1;
      }
      return None;
    }

    /** `mcs_bind_find`. */
    method BindFind(h: nat, lock: Lock) returns (r: Option<nat>)
      ensures r == Find(bound, h, lock, h, slots)
    {
      var i := h;
      while i < slots
        invariant Find(bound, h, lock, i, slots) == Find(bound, h, lock, h, slots)
        decreases slots - i
      {
        if Node(h, i) in bound && bound[Node(h, i)] == lock {
          return Some(i);
        }
        i := i + 1;
      }
      return None;
    }

    /** The hart's call returns with the lock. */
    method TakeLock(h: nat, lock: Lock)
      requires h < |pc|
      modifies this
      ensures View() == Grant(old(View()), h, lock)
    {
      hist, inside := Grant(View(), h, lock).hist, Grant(View(), h, lock).inside;
      pc := pc[h := Idle];
    }

    /** Starts a call of hart `h`. */
    method BeginCall(h: nat, call: Call)
      requires h < |pc|
      modifies this
      ensures View() == Begin(old(View()), h, call)
    {
      match call {
        case Acquire(lock) => pc := pc[h := Scan(lock, false)];
        case TryAcquire(lock) => pc := pc[h := Scan(lock, true)];
        case Release(lock) =>
          var b := BindFind(h, lock);
          if b.Some? {
            pc := pc[h := LoadNext(lock, b.value)];
          }
      }
    }

    /** The steps of `mcs_bind_acquire_slot` and of acquire and try_acquire up to the access to `tail`. */
    method Prepare(h: nat)
      requires h < |pc| && (pc[h].Scan? || pc[h].InitNode?)
      modifies this
      ensures View() == Next(old(View()), h, Release(0))
    {
      match pc[h] {
        case Scan(lock, tryOnly) =>
          var b := BindScan(h);
          if b.Some? {
            bound := bound[Node(h, b.value) := lock];
            pc := pc[h := InitNode(lock, b.value, 0, tryOnly)];
          }
        case InitNode(lock, i, k, tryOnly) =>
          if k % 2 == 0 {
            next := next - {Node(h, i)};
          } else {
            locked := locked - {Node(h, i)};
          }
          pc := pc[h := if k == (if tryOnly then 3 else 2) then Swap(lock, i, tryOnly)
                        else InitNode(lock, i, k + 1, tryOnly)];
      }
    }

    /** The exchange or CAS on `tail` and the rest of acquire and try_acquire. */
    method Enter(h: nat)
      requires h < |pc| && (pc[h].Swap? || pc[h].MarkLocked? || pc[h].LinkPred? || pc[h].Spin?)
      modifies this
      ensures View() == Next(old(View()), h, Release(0))
    {
      match pc[h] {
        case Swap(lock, i, tryOnly) =>
          if lock !in tail || !tryOnly {
            var empty, pred := lock !in tail, if lock in tail then tail[lock] else Node(h, i);
            hist := Enqueue(View(), lock, Node(h, i)).hist;
            tail := tail[lock := Node(h, i)];
            if empty {
              TakeLock(h, lock);
            } else {
              pc := pc[h := MarkLocked(lock, i, pred)];
            }
          } else {
            pc := pc[h := Free(lock, i)];
          }
        case MarkLocked(lock, i, pred) =>
          locked := locked + {Node(h, i)};
          pc := pc[h := LinkPred(lock, i, pred)];
        case LinkPred(lock, i, pred) =>
          next := next[pred := Node(h, i)];
          pc := pc[h := Spin(lock, i)];
        case Spin(lock, i) =>
          if Node(h, i) !in locked {
            TakeLock(h, lock);
          }
      }
    }

    /** The steps of release. */
    method Leave(h: nat)
      requires h < |pc| && Releasing(pc[h])
      modifies this
      ensures View() == Next(old(View()), h, Release(0))
    {
      match pc[h] {
        case LoadNext(lock, i) =>
          pc := pc[h := if Node(h, i) in next then Handoff(lock, i, next[Node(h, i)]) else CasTail(lock, i)];
        case CasTail(lock, i) =>
          if lock in tail && tail[lock] == Node(h, i) {
            hist, inside := Dequeue(View(), h, lock).hist, Dequeue(View(), h, lock).inside;
            tail := tail - {lock};
            pc := pc[h := Free(lock, i)];
          } else {
            pc := pc[h := AwaitNext(lock, i)];
          }
        case AwaitNext(lock, i) =>
          if Node(h, i) in next {
            pc := pc[h := Handoff(lock, i, next[Node(h, i)])];
          }
        case Handoff(lock, i, succ) =>
          hist, inside := Dequeue(View(), h, lock).hist, Dequeue(View(), h, lock).inside;
          locked := locked - {succ};
          pc := pc[h := Free(lock, i)];
        case Free(_, i) =>
          bound := bound - {Node(h, i)};
          pc := pc[h := Idle];
      }
    }

    /** Executes the next step of hart `h`. */
    method Step(h: nat, call: Call)
      modifies this
      ensures View() == Next(old(View()), h, call)
    {
      if h < |pc| {
        match pc[h] {
          case Idle => BeginCall(h, call);
          case Scan(_, _) => Prepare(h);
          case InitNode(_, _, _, _) => Prepare(h);
          case Swap(_, _, _) => Enter(h);
          case MarkLocked(_, _, _) => Enter(h);
          case LinkPred(_, _, _) => Enter(h);
          case Spin(_, _) => Enter(h);
          case _ => Leave(h);
        }
      }
    }

    /** Executes a whole schedule; whatever it is, no two harts are inside the same lock. */
    method Run(schedule: seq<Event>)
      requires View() == Init(|pc|, slots)
      modifies this
      ensures View() == Exec(old(View()), schedule)
      ensures forall lock, a, b :: (lock, a) in inside && (lock, b) in inside ==> a == b
    {
      ghost var harts := |pc|;
      for i := 0 to |schedule|
        invariant View() == Exec(old(View()), schedule[..i])
      {
        assert schedule[..i + 1][..i] == schedule[..i];
        Step(schedule[i].hart, schedule[i].call);
      }
      assert schedule[..|schedule|] == schedule;
      forall lock, a, b | (lock, a) in inside && (lock, b) in inside ensures a == b {
        MutualExclusion(harts, slots, schedule, lock, a, b);
      }
    }
  }
}
