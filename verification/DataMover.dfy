/**
  The data mover of software/snRuntime/src/dm.c (cluster-local interrupts) with a single client hart.

  The client makes any sequence of calls to dm_memcpy_async, dm_memcpy2d_async, dm_start and dm_wait.
  The data mover runs dm_main.  The DMA engine finishes started transfers in any order and at any time, and
  may refuse to take another one while it is busy.  Every load, store, atomic, interrupt access and engine
  access is one step, and steps interleave in any order.  `wfi` returns exactly when the interrupt is pending.
  With a single client the mutex is always free, so it does not appear.

  `pushed`, `woken`, `requests` and `answers` are history and no step reads them.
  */
module DataMover {

  const QUEUE_SIZE: nat := 4

  /** The arguments of a transfer, as `__builtin_sdma_start_oned` and `__builtin_sdma_start_twod` take them. */
  datatype Transfer =
    | OneD(src: int, dst: int, size: int, cfg: int)
    | TwoD(src: int, dst: int, size: int, sstrd: int, dstrd: int, nreps: int, cfg: int)

  // The words of a `dm_task_t`.
  const SRC: nat := 0
  const DST: nat := 1
  const SIZE: nat := 2
  const SSTRD: nat := 3
  const DSTRD: nat := 4
  const NREPS: nat := 5
  const CFG: nat := 6
  const TWOD: nat := 7

  type Slot = s: seq<int> | |s| == 8 witness [0, 0, 0, 0, 0, 0, 0, 0]

  type Word = w: nat | w < 8

  /** The words that a push writes, in program order. */
  function WriteOrder(d: Transfer): seq<Word> {
    match d
    case OneD(_, _, _, _) => [SRC, DST, SIZE, TWOD, CFG]
    case TwoD(_, _, _, _, _, _, _) => [SRC, DST, SIZE, SSTRD, DSTRD, NREPS, TWOD, CFG]
  }

  function Value(d: Transfer, w: Word): int {
    if w == SRC then d.src
    else if w == DST then d.dst
    else if w == SIZE then d.size
    else if w == CFG then d.cfg
    else if w == TWOD then (if d.TwoD? then 1 else 0)
    else match d
      case OneD(_, _, _, _) => 0
      case TwoD(_, _, _, sstrd, dstrd, nreps, _) => if w == SSTRD then sstrd else if w == DSTRD then dstrd else nreps
  }

  /** The words that the data mover reads after `twod`. */
  function ReadOrder(twod: bool): seq<Word> {
    if twod then [SRC, DST, SIZE, SSTRD, DSTRD, NREPS, CFG] else [SRC, DST, SIZE, CFG]
  }

  function FromWords(twod: bool, got: seq<int>): Transfer
    requires |got| == |ReadOrder(twod)|
  {
    if twod then TwoD(got[0], got[1], got[2], got[3], got[4], got[5], got[6])
    else OneD(got[0], got[1], got[2], got[3])
  }

  datatype Call = Push(transfer: Transfer) | Start | Wait

  /** Which call a wakeup belongs to: dm_start, or the first or second wakeup of dm_wait. */
  datatype Reason = ForStart | ForQueue | ForRequest

  datatype ClientPc =
    | Free                                  // between calls
    | Poll(d: Transfer)                     // while (queue_fill >= 4)
    | Put(d: Transfer, k: nat)              // k-th store into the slot at queue_front
    | AddFill(d: Transfer)                  // queue_fill + 1
    | BumpFront(d: Transfer)
    | SpinWfi(why: Reason)                  // while (!dm_wfi)
    | SetIrq(why: Reason)
    | PollEmpty                             // while (queue_fill != 0)
    | PollStat                              // while (stat_q)
    | ClearValid                            // stat_pvalid = 0
    | Request                               // stat_q = STAT_WAIT_IDLE
    | AwaitValid                            // while (!stat_pvalid)

  datatype MoverPc =
    | CheckFill                             // if (queue_fill)
    | Blocked                               // while (sdma_stat(WOULD_BLOCK))
    | ReadKind                              // if (t->twod)
    | ReadWord(twod: bool, got: seq<int>)   // load the next argument
    | Launch(d: Transfer)
    | BumpBack
    | SubFill                               // queue_fill - 1
    | CheckStat                             // if (stat_q)
    | Dispatch                              // switch (stat_q)
    | CheckBusy                             // if (sdma_stat(BUSY) == 0)
    | SetValid                              // stat_pvalid = 1
    | ClearStat                             // stat_q = 0
    | SleepFill                             // if (!queue_fill && ...
    | SleepStat                             // ... !stat_q)
    | AddWfi
    | Asleep                                // wfi
    | ClearIrq
    | SubWfi

  datatype State = State(
    queue: seq<Slot>,
    back: nat,
    front: nat,
    fill: int,
    statQ: bool,
    valid: bool,
    dmWfi: int,
    irq: bool,
    client: ClientPc,
    mover: MoverPc,
    started: seq<Transfer>,
    finished: set<nat>,
    pushed: seq<Transfer>,
    woken: nat,
    requests: nat,
    answers: nat)

  function Init(): State {
    var slot: Slot := [0, 0, 0, 0, 0, 0, 0, 0];
    State([slot, slot, slot, slot], 0, 0, 0, false, false, 0, false, Free, CheckFill, [], {}, [], 0, 0, 0)
  }

  /** The engine has started transfers that it has not finished. */
  predicate Busy(s: State) {
    exists i :: 0 <= i < |s.started| && i !in s.finished
  }

  // ----- Steps of the client -----

  function ClientBegin(s: State, call: Call): State {
    s.(client := match call
                 case Push(d) => Poll(d)
                 case Start => SpinWfi(ForStart)
                 case Wait => SpinWfi(ForQueue))
  }

  function ClientPush(s: State): State {
    match s.client
    case Poll(d) => if s.fill >= QUEUE_SIZE then s else s.(client := Put(d, 0))
    case Put(d, k) =>
      if k < |WriteOrder(d)| && s.front < |s.queue| then
        var w := WriteOrder(d)[k];
        s.(queue := s.queue[s.front := s.queue[s.front][w := Value(d, w)]],
           client := if k + 1 < |WriteOrder(d)| then Put(d, k + 1) else AddFill(d))
      else s
    case AddFill(d) => s.(fill := s.fill + 1, client := BumpFront(d), pushed := s.pushed + [d])
    case BumpFront(_) => s.(front := (s.front + 1) % QUEUE_SIZE, client := Free)
    case _ => s
  }

  function ClientWait(s: State): State {
    match s.client
    case SpinWfi(why) => if s.dmWfi == 0 then s else s.(client := SetIrq(why))
    case SetIrq(why) =>
      s.(irq := true, woken := |s.pushed|,
         client := match why
                   case ForStart => Free
                   case ForQueue => PollEmpty
                   case ForRequest => AwaitValid)
    case PollEmpty => if s.fill != 0 then s else s.(client := PollStat)
    case PollStat => if s.statQ then s else s.(client := ClearValid)
    case ClearValid => s.(valid := false, client := Request)
    case Request => s.(statQ := true, requests := s.requests + 1, client := SpinWfi(ForRequest))
    case AwaitValid => if s.valid then s.(client := Free) else s
    case _ => s
  }

  predicate InPush(c: ClientPc) {
    c.Poll? || c.Put? || c.AddFill? || c.BumpFront?
  }

  function ClientStep(s: State, call: Call): State {
    if s.client.Free? then ClientBegin(s, call)
    else if InPush(s.client) then ClientPush(s)
    else ClientWait(s)
  }

  // ----- Steps of the data mover -----

  function MoverIssue(s: State, refused: bool): State {
    match s.mover
    case CheckFill => s.(mover := if s.fill != 0 then Blocked else CheckStat)
    case Blocked => if refused && Busy(s) then s else s.(mover := ReadKind)
    case ReadKind =>
      if s.back < |s.queue| then s.(mover := ReadWord(s.queue[s.back][TWOD] != 0, [])) else s
    case ReadWord(twod, got) =>
      if s.back < |s.queue| && |got| < |ReadOrder(twod)| then
        var all := got + [s.queue[s.back][ReadOrder(twod)[|got|]]];
        s.(mover := if |all| == |ReadOrder(twod)| then Launch(FromWords(twod, all)) else ReadWord(twod, all))
      else s
    case Launch(d) => s.(started := s.started + [d], mover := BumpBack)
    case BumpBack => s.(back := (s.back + 1) % QUEUE_SIZE, mover := SubFill)
    case SubFill => s.(fill := s.fill - 1, mover := CheckStat)
    case _ => s
  }

  function MoverStat(s: State): State {
    match s.mover
    case CheckStat => s.(mover := if s.statQ then Dispatch else SleepFill)
    case Dispatch => s.(mover := if s.statQ then CheckBusy else SleepFill)
    case CheckBusy => s.(mover := if Busy(s) then SleepFill else SetValid)
    case SetValid => s.(valid := true, answers := s.answers + 1, mover := ClearStat)
    case ClearStat => s.(statQ := false, mover := SleepFill)
    case _ => s
  }

  function MoverSleep(s: State): State {
    match s.mover
    case SleepFill => s.(mover := if s.fill == 0 then SleepStat else CheckFill)
    case SleepStat => s.(mover := if !s.statQ then AddWfi else CheckFill)
    case AddWfi => s.(dmWfi := s.dmWfi + 1, mover := Asleep)
    case Asleep => if s.irq then s.(mover := ClearIrq) else s
    case ClearIrq => s.(irq := false, mover := SubWfi)
    case SubWfi => s.(dmWfi := s.dmWfi - 1, mover := CheckFill)
    case _ => s
  }

  predicate Issuing(m: MoverPc) {
    m.CheckFill? || Reading(m) || m.BumpBack? || m.SubFill?
  }

  /** The mover has found the queue filled and has not started the transfer at its back yet. */
  predicate Reading(m: MoverPc) {
    m.Blocked? || m.ReadKind? || m.ReadWord? || m.Launch?
  }

  predicate InStat(m: MoverPc) {
    m.CheckStat? || m.Dispatch? || m.CheckBusy? || m.SetValid? || m.ClearStat?
  }

  function MoverStep(s: State, refused: bool): State {
    if Issuing(s.mover) then MoverIssue(s, refused)
    else if InStat(s.mover) then MoverStat(s)
    else MoverSleep(s)
  }

  /** A step of the client (with the call it begins if it is between calls), of the data mover (with the
      engine's answer whether it refuses another transfer), or of the engine, which finishes a transfer. */
  datatype Event = Client(call: Call) | Mover(refused: bool) | Finish(i: nat)

  function Next(s: State, e: Event): State {
    match e
    case Client(call) => ClientStep(s, call)
    case Mover(refused) => MoverStep(s, refused)
    case Finish(i) => if i < |s.started| then s.(finished := s.finished + {i}) else s
  }

  function Exec(s: State, schedule: seq<Event>): State {
    if schedule == [] then s
    else Next(Exec(s, schedule[..|schedule| - 1]), schedule[|schedule| - 1])
  }

  // ----- The invariant -----

  /** How many transfers the data mover has taken out of the ring: started, and `queue_back` advanced. */
  function Taken(s: State): int {
    |s.started| - (if s.mover.BumpBack? then 1 else 0)
  }

  /** How many transfers have left the count `queue_fill`. */
  function Freed(s: State): int {
    |s.started| - (if s.mover.BumpBack? || s.mover.SubFill? then 1 else 0)
  }

  predicate Holds(slot: Slot, d: Transfer) {
    forall w :: w in WriteOrder(d) ==> slot[w] == Value(d, w)
  }

  predicate RingOk(s: State) {
    var n := |s.pushed|;
    && |s.queue| == QUEUE_SIZE
    && 0 <= Freed(s)
    && s.fill == n - Freed(s) <= QUEUE_SIZE
    && |s.started| <= n && s.started == s.pushed[..|s.started|]
    && s.back == Taken(s) % QUEUE_SIZE
    && s.front == (if s.client.BumpFront? then n - 1 else n) % QUEUE_SIZE
    && (s.client.BumpFront? ==> n > 0)
    && (forall j :: |s.started| <= j < n ==> Holds(s.queue[j % QUEUE_SIZE], s.pushed[j]))
  }

  predicate PutOk(s: State)
    requires RingOk(s)
  {
    match s.client
    case Put(d, k) =>
      && s.fill < QUEUE_SIZE && k < |WriteOrder(d)|
      && (forall i :: 0 <= i < k ==> s.queue[s.front][WriteOrder(d)[i]] == Value(d, WriteOrder(d)[i]))
    case AddFill(d) => s.fill < QUEUE_SIZE && Holds(s.queue[s.front], d)
    case _ => true
  }

  predicate ReadOk(s: State) {
    && (Reading(s.mover) ==> |s.started| < |s.pushed|)
    && (match s.mover
        case ReadWord(twod, got) =>
          var d := s.pushed[|s.started|];
          && twod == d.TwoD? && |got| < |ReadOrder(twod)|
          && (forall i :: 0 <= i < |got| ==> got[i] == Value(d, ReadOrder(twod)[i]))
        case Launch(d) => d == s.pushed[|s.started|]
        case _ => true)
  }

  /** dm_wait has made its request and has not returned. */
  predicate Requesting(c: ClientPc) {
    c.AwaitValid? || (c.SpinWfi? && c.why.ForRequest?) || (c.SetIrq? && c.why.ForRequest?)
  }

  /** dm_wait has seen the queue empty. */
  predicate SeenEmpty(c: ClientPc) {
    c.PollStat? || c.ClearValid? || c.Request? || Requesting(c)
  }

  predicate StatOk(s: State) {
    && (s.mover.Dispatch? || s.mover.CheckBusy? || s.mover.SetValid?
        ==> s.statQ && !s.valid && Requesting(s.client))
    && (s.mover.ClearStat? ==> s.statQ && s.valid)
    && (s.statQ ==> s.mover.ClearStat? || (Requesting(s.client) && !s.valid))
    && (s.client.ClearValid? || s.client.Request? ==> !s.statQ)
    && (s.client.Request? ==> !s.valid)
    && (Requesting(s.client) ==> s.statQ || s.valid)
    && (SeenEmpty(s.client) ==> s.fill == 0)
    && (s.mover.SetValid? || (Requesting(s.client) && s.valid) ==> !Busy(s))
    && s.requests == s.answers + (if Requesting(s.client) && !s.valid then 1 else 0)
  }

  predicate Dozing(m: MoverPc) {
    m.AddWfi? || m.Asleep?
  }

  predicate SleepOk(s: State) {
    && s.dmWfi == (if s.mover.Asleep? || s.mover.ClearIrq? || s.mover.SubWfi? then 1 else 0)
    && s.woken <= |s.pushed|
    && (s.client.PollEmpty? ==> s.woken == |s.pushed|)
    && (s.mover.ClearIrq? ==> s.irq)
    && ((s.mover.SleepStat? || Dozing(s.mover)) && !s.irq ==> s.woken <= |s.started|)
    && (Dozing(s.mover) && !s.irq ==> !(s.client.AwaitValid? && s.statQ))
  }

  predicate Inv(s: State) {
    RingOk(s) && PutOk(s) && ReadOk(s) && StatOk(s) && SleepOk(s)
  }

  lemma InitInv()
    ensures Inv(Init())
  {}

  // ----- The ring buffer -----

  /** Two indices less than a queue length apart use different slots. */
  lemma SlotsDiffer(a: nat, b: nat)
    requires 0 < b - a < QUEUE_SIZE
    ensures a % QUEUE_SIZE != b % QUEUE_SIZE
  {}

  /** Nothing about the ring changes, and the client's progress in a push stays or ends. */
  predicate SameRing(s: State, t: State) {
    && t.queue == s.queue && t.back == s.back && t.front == s.front && t.fill == s.fill
    && t.started == s.started && t.pushed == s.pushed
    && Taken(t) == Taken(s) && Freed(t) == Freed(s)
    && (t.client == s.client || (!s.client.BumpFront? && !t.client.Put? && !t.client.AddFill? && !t.client.BumpFront?))
  }

  lemma SameRingOk(s: State, t: State)
    requires RingOk(s) && PutOk(s) && ReadOk(s) && SameRing(s, t)
    ensures RingOk(t) && PutOk(t)
    ensures t.mover == s.mover || !Reading(t.mover) ==> ReadOk(t)
  {
    assert forall j :: |s.started| <= j < |s.pushed| ==> Holds(s.queue[j % QUEUE_SIZE], s.pushed[j]);
  }

  lemma PollRing(s: State)
    requires RingOk(s) && PutOk(s) && ReadOk(s) && s.client.Poll?
    ensures RingOk(ClientPush(s)) && PutOk(ClientPush(s)) && ReadOk(ClientPush(s))
  {
    assert forall j :: |s.started| <= j < |s.pushed| ==> Holds(s.queue[j % QUEUE_SIZE], s.pushed[j]);
  }

  lemma PutRing(s: State)
    requires Inv(s) && s.client.Put?
    ensures RingOk(ClientPush(s))
  {
    var t := ClientPush(s);
    forall j | |s.started| <= j < |s.pushed|
      ensures Holds(t.queue[j % QUEUE_SIZE], t.pushed[j])
    {
      SlotsDiffer(j, |s.pushed|);
      assert Holds(s.queue[j % QUEUE_SIZE], s.pushed[j]);
    }
  }

  lemma WriteOrderDistinct(d: Transfer)
    ensures forall i, j :: 0 <= i < j < |WriteOrder(d)| ==> WriteOrder(d)[i] != WriteOrder(d)[j]
  {}

  lemma PutPut(s: State)
    requires Inv(s) && s.client.Put?
    ensures RingOk(ClientPush(s)) && PutOk(ClientPush(s)) && ReadOk(ClientPush(s))
  {
    PutRing(s);
    var t := ClientPush(s);
    var d, k := s.client.d, s.client.k;
    WriteOrderDistinct(d);
    forall i | 0 <= i <= k
      ensures t.queue[s.front][WriteOrder(d)[i]] == Value(d, WriteOrder(d)[i])
    {
      assert i < k ==> s.queue[s.front][WriteOrder(d)[i]] == Value(d, WriteOrder(d)[i]);
    }
  }

  lemma AddFillRing(s: State)
    requires RingOk(s) && PutOk(s) && ReadOk(s) && s.client.AddFill?
    ensures RingOk(ClientPush(s)) && PutOk(ClientPush(s)) && ReadOk(ClientPush(s))
  {
    var t := ClientPush(s);
    forall j | |s.started| <= j < |t.pushed|
      ensures Holds(t.queue[j % QUEUE_SIZE], t.pushed[j])
    {
      assert j < |s.pushed| ==> Holds(s.queue[j % QUEUE_SIZE], s.pushed[j]);
    }
  }

  lemma NextSlot(n: nat)
    requires n > 0
    ensures ((n - 1) % QUEUE_SIZE + 1) % QUEUE_SIZE == n % QUEUE_SIZE
  {}

  lemma BumpFrontRing(s: State)
    requires RingOk(s) && ReadOk(s) && s.client.BumpFront?
    ensures RingOk(ClientPush(s)) && PutOk(ClientPush(s)) && ReadOk(ClientPush(s))
  {
    var n := |s.pushed|;
    NextSlot(n);
    assert forall j :: |s.started| <= j < n ==> Holds(s.queue[j % QUEUE_SIZE], s.pushed[j]);
  }

  lemma LaunchRing(s: State)
    requires RingOk(s) && PutOk(s) && ReadOk(s) && s.mover.Launch?
    ensures var t := MoverIssue(s, false); RingOk(t) && PutOk(t) && ReadOk(t)
  {
    var n := |s.started|;
    assert s.pushed[..n + 1] == s.pushed[..n] + [s.pushed[n]];
    assert forall j :: n <= j < |s.pushed| ==> Holds(s.queue[j % QUEUE_SIZE], s.pushed[j]);
  }

  lemma BumpBackRing(s: State)
    requires RingOk(s) && PutOk(s) && s.mover.BumpBack?
    ensures var t := MoverIssue(s, false); RingOk(t) && PutOk(t) && ReadOk(t)
  {
    var n := |s.started|;
    NextSlot(n);
    assert forall j :: n <= j < |s.pushed| ==> Holds(s.queue[j % QUEUE_SIZE], s.pushed[j]);
  }

  lemma SubFillRing(s: State)
    requires RingOk(s) && PutOk(s) && ReadOk(s) && s.mover.SubFill?
    ensures var t := MoverIssue(s, false); RingOk(t) && PutOk(t) && ReadOk(t)
  {
    assert forall j :: |s.started| <= j < |s.pushed| ==> Holds(s.queue[j % QUEUE_SIZE], s.pushed[j]);
  }

  /** The slot at `queue_back` holds the oldest transfer that has not been started. */
  lemma BackSlot(s: State)
    requires Inv(s) && Reading(s.mover)
    ensures s.back == |s.started| % QUEUE_SIZE && Holds(s.queue[s.back], s.pushed[|s.started|])
  {}

  lemma ReadWordStep(s: State)
    requires Inv(s) && s.mover.ReadWord?
    ensures ReadOk(MoverIssue(s, false))
  {
    BackSlot(s);
    var d := s.pushed[|s.started|];
    var got := s.mover.got;
    var w := ReadOrder(d.TwoD?)[|got|];
    assert w in WriteOrder(d);
    assert s.queue[s.back][w] == Value(d, w);
    var all := got + [Value(d, w)];
    assert forall i :: 0 <= i < |all| ==> all[i] == Value(d, ReadOrder(d.TwoD?)[i]);
    if |all| == |ReadOrder(d.TwoD?)| {
      WordsMakeTransfer(d, all);
    }
  }

  lemma WordsMakeTransfer(d: Transfer, all: seq<int>)
    requires |all| == |ReadOrder(d.TwoD?)|
    requires forall i :: 0 <= i < |all| ==> all[i] == Value(d, ReadOrder(d.TwoD?)[i])
    ensures FromWords(d.TwoD?, all) == d
  {
    assert all[0] == d.src && all[1] == d.dst && all[2] == d.size;
    assert if d.TwoD? then all[3] == d.sstrd && all[4] == d.dstrd && all[5] == d.nreps && all[6] == d.cfg
           else all[3] == d.cfg;
  }

  lemma ReadKindStep(s: State)
    requires Inv(s) && s.mover.ReadKind?
    ensures ReadOk(MoverIssue(s, false))
  {
    BackSlot(s);
    var d := s.pushed[|s.started|];
    assert TWOD in WriteOrder(d);
    assert s.queue[s.back][TWOD] == Value(d, TWOD);
  }

  lemma PushKeepsRing(s: State)
    requires Inv(s) && InPush(s.client)
    ensures var t := ClientPush(s); RingOk(t) && PutOk(t) && ReadOk(t)
  {
    match s.client
    case Poll(_) => PollRing(s);
    case Put(_, _) => PutPut(s);
    case AddFill(_) => AddFillRing(s);
    case BumpFront(_) => BumpFrontRing(s);
  }

  lemma FillKeepsRing(s: State, refused: bool)
    requires Inv(s) && (s.mover.CheckFill? || s.mover.Blocked?)
    ensures var t := MoverIssue(s, refused); RingOk(t) && PutOk(t) && ReadOk(t)
  {
    SameRingOk(s, MoverIssue(s, refused));
  }

  lemma ReadKindRing(s: State)
    requires Inv(s) && s.mover.ReadKind?
    ensures var t := MoverIssue(s, false); RingOk(t) && PutOk(t) && ReadOk(t)
  {
    SameRingOk(s, MoverIssue(s, false));
    ReadKindStep(s);
  }

  lemma ReadWordRing(s: State)
    requires Inv(s) && s.mover.ReadWord?
    ensures var t := MoverIssue(s, false); RingOk(t) && PutOk(t) && ReadOk(t)
  {
    ReadWordStep(s);
    SameRingOk(s, MoverIssue(s, false));
  }

  lemma IssueKeepsRing(s: State, refused: bool)
    requires Inv(s) && Issuing(s.mover)
    ensures var t := MoverIssue(s, refused); RingOk(t) && PutOk(t) && ReadOk(t)
  {
    if s.mover.Launch? {
      LaunchRing(s);
    } else if s.mover.BumpBack? {
      BumpBackRing(s);
    } else if s.mover.SubFill? {
      SubFillRing(s);
    } else if s.mover.ReadKind? {
      ReadKindRing(s);
    } else if s.mover.ReadWord? {
      ReadWordRing(s);
    } else {
      FillKeepsRing(s, refused);
    }
  }

  // ----- The handshake and the sleep protocol -----

  lemma PushKeepsStat(s: State)
    requires Inv(s) && InPush(s.client)
    ensures StatOk(ClientPush(s))
  {}

  lemma PushKeepsSleep(s: State)
    requires Inv(s) && InPush(s.client)
    ensures SleepOk(ClientPush(s))
  {}

  lemma WaitKeepsRing(s: State)
    requires !s.client.Free? && !InPush(s.client)
    ensures SameRing(s, ClientWait(s)) && ClientWait(s).mover == s.mover
  {}

  lemma WaitKeepsStat(s: State)
    requires StatOk(s) && !s.client.Free? && !InPush(s.client)
    ensures StatOk(ClientWait(s))
  {}

  lemma WaitKeepsSleep(s: State)
    requires SleepOk(s) && !s.client.Free? && !InPush(s.client)
    ensures SleepOk(ClientWait(s))
  {}

  lemma IssueKeepsStat(s: State, refused: bool)
    requires Inv(s) && Issuing(s.mover)
    ensures StatOk(MoverIssue(s, refused))
  {}

  lemma IssueKeepsSleep(s: State, refused: bool)
    requires Inv(s) && Issuing(s.mover)
    ensures SleepOk(MoverIssue(s, refused))
  {}

  lemma StatKeepsRing(s: State)
    requires InStat(s.mover)
    ensures SameRing(s, MoverStat(s)) && !Reading(MoverStat(s).mover)
  {}

  lemma StatKeepsStat(s: State)
    requires Inv(s) && InStat(s.mover)
    ensures StatOk(MoverStat(s))
  {}

  lemma StatKeepsSleep(s: State)
    requires Inv(s) && InStat(s.mover)
    ensures SleepOk(MoverStat(s))
  {}

  lemma SleepKeepsRing(s: State)
    requires !Issuing(s.mover) && !InStat(s.mover)
    ensures SameRing(s, MoverSleep(s)) && !Reading(MoverSleep(s).mover)
  {}

  lemma SleepKeepsStat(s: State)
    requires StatOk(s) && !Issuing(s.mover) && !InStat(s.mover)
    ensures StatOk(MoverSleep(s))
  {}

  lemma SleepKeepsSleep(s: State)
    requires RingOk(s) && SleepOk(s) && !Issuing(s.mover) && !InStat(s.mover)
    ensures SleepOk(MoverSleep(s))
  {}

  lemma PushInv(s: State)
    requires Inv(s) && InPush(s.client)
    ensures Inv(ClientPush(s))
  {
    PushKeepsRing(s);
    PushKeepsStat(s);
    PushKeepsSleep(s);
  }

  lemma WaitInv(s: State)
    requires Inv(s) && !s.client.Free? && !InPush(s.client)
    ensures Inv(ClientWait(s))
  {
    WaitKeepsRing(s);
    SameRingOk(s, ClientWait(s));
    WaitKeepsStat(s);
    WaitKeepsSleep(s);
  }

  lemma BeginInv(s: State, call: Call)
    requires Inv(s) && s.client.Free?
    ensures Inv(ClientBegin(s, call))
  {
    SameRingOk(s, ClientBegin(s, call));
  }

  lemma IssueInv(s: State, refused: bool)
    requires Inv(s) && Issuing(s.mover)
    ensures Inv(MoverIssue(s, refused))
  {
    IssueKeepsRing(s, refused);
    IssueKeepsStat(s, refused);
    IssueKeepsSleep(s, refused);
  }

  lemma StatInv(s: State)
    requires Inv(s) && InStat(s.mover)
    ensures Inv(MoverStat(s))
  {
    StatKeepsRing(s);
    SameRingOk(s, MoverStat(s));
    StatKeepsStat(s);
    StatKeepsSleep(s);
  }

  lemma SleepInv(s: State)
    requires Inv(s) && !Issuing(s.mover) && !InStat(s.mover)
    ensures Inv(MoverSleep(s))
  {
    SleepKeepsRing(s);
    SameRingOk(s, MoverSleep(s));
    SleepKeepsStat(s);
    SleepKeepsSleep(s);
  }

  lemma FinishInv(s: State, i: nat)
    requires Inv(s)
    ensures Inv(Next(s, Finish(i)))
  {
    SameRingOk(s, Next(s, Finish(i)));
  }

  lemma NextInv(s: State, e: Event)
    requires Inv(s)
    ensures Inv(Next(s, e))
  {
    match e
    case Client(call) =>
      if s.client.Free? {
        BeginInv(s, call);
      } else if InPush(s.client) {
        PushInv(s);
      } else {
        WaitInv(s);
      }
    case Mover(refused) =>
      if Issuing(s.mover) {
        IssueInv(s, refused);
      } else if InStat(s.mover) {
        StatInv(s);
      } else {
        SleepInv(s);
      }
    case Finish(i) => FinishInv(s, i);
  }

  lemma {:induction false} ExecInv(schedule: seq<Event>)
    ensures Inv(Exec(Init(), schedule))
  {
    if schedule != [] {
      var k := |schedule| - 1;
      ExecInv(schedule[..k]);
      NextInv(Exec(Init(), schedule[..k]), schedule[k]);
    }
  }

  // ----- Main results, for every reachable state -----

  /** `queue_fill` stays within the ring, and the engine is given a prefix of the pushed transfers, in order. */
  lemma TransfersInOrder(schedule: seq<Event>)
    ensures var s := Exec(Init(), schedule);
            0 <= s.fill <= QUEUE_SIZE && s.started <= s.pushed
  {
    ExecInv(schedule);
  }

  /** While the client fills a slot, the data mover is not reading that slot, nor is it due to. */
  lemma NoSlotIsTorn(schedule: seq<Event>)
    requires Exec(Init(), schedule).client.Put?
    ensures var s := Exec(Init(), schedule);
            && (Reading(s.mover) ==> s.back != s.front)
            && forall j :: |s.started| <= j < |s.pushed| ==> j % QUEUE_SIZE != s.front
  {
    ExecInv(schedule);
    var s := Exec(Init(), schedule);
    forall j | |s.started| <= j < |s.pushed| ensures j % QUEUE_SIZE != s.front {
      SlotsDiffer(j, |s.pushed|);
    }
    if Reading(s.mover) {
      BackSlot(s);
    }
  }

  /** When dm_wait returns, every transfer pushed before has been started and finished, and the answer it
      saw is the answer to its own request. */
  lemma WaitMeansDone(schedule: seq<Event>, call: Call)
    requires var s := Exec(Init(), schedule);
             s.client.AwaitValid? && ClientStep(s, call).client.Free?
    ensures var s := Exec(Init(), schedule);
            && s.started == s.pushed
            && (forall i :: 0 <= i < |s.pushed| ==> i in s.finished)
            && s.answers == s.requests
  {
    ExecInv(schedule);
  }

  /** A data mover that sleeps with no interrupt pending has started everything pushed before the last wakeup. */
  lemma AsleepMeansStarted(schedule: seq<Event>)
    requires var s := Exec(Init(), schedule); s.mover.Asleep? && !s.irq
    ensures var s := Exec(Init(), schedule); s.woken <= |s.started|
  {
    ExecInv(schedule);
  }

  /** The mover steps, except in its sleep and where the engine refuses another transfer. */
  lemma MoverMoves(s: State, refused: bool)
    requires RingOk(s) && ReadOk(s) && !s.mover.Asleep? && !(s.mover.Blocked? && refused && Busy(s))
    ensures MoverStep(s, refused).mover != s.mover
  {}

  /** While the mover sleeps with no interrupt pending, the client inside dm_start or dm_wait steps. */
  lemma ClientMoves(s: State)
    requires RingOk(s) && StatOk(s) && SleepOk(s) && s.mover.Asleep? && !s.irq
    requires !s.client.Free? && !InPush(s.client)
    ensures ClientWait(s).client != s.client
  {}

  /**
    The client inside dm_start or dm_wait and the data mover are never both blocked: one of them can step.
    And where the engine makes the data mover wait, it has a transfer to finish.
    */
  lemma NeverStuck(schedule: seq<Event>)
    requires var c := Exec(Init(), schedule).client; !c.Free? && !InPush(c)
    ensures var s := Exec(Init(), schedule);
            ClientStep(s, Start) != s || MoverStep(s, false) != s
    ensures var s := Exec(Init(), schedule);
            MoverStep(s, true) == s && !s.mover.Asleep? ==> exists i :: Next(s, Finish(i)) != s
  {
    ExecInv(schedule);
    var s := Exec(Init(), schedule);
    if !s.mover.Asleep? {
      MoverMoves(s, false);
      if s.mover.Blocked? && Busy(s) {
        var i :| 0 <= i < |s.started| && i !in s.finished;
        assert i in Next(s, Finish(i)).finished;
      } else {
        MoverMoves(s, true);
      }
    } else if !s.irq {
      ClientMoves(s);
    }
  }

  // ----- The data mover in memory -----

  /** `dm_t`, the DMA engine's view of started and finished transfers, and the two program counters. */
  class DataMover {
    const queue: array<Slot>
    var queue_back: nat
    var queue_front: nat
    var queue_fill: int
    var stat_q: bool
    var stat_pvalid: bool
    var dm_wfi: int
    var irq: bool
    var client: ClientPc
    var mover: MoverPc
    var started: seq<Transfer>
    var finished: set<nat>
    ghost var pushed: seq<Transfer>
    ghost var woken: nat
    ghost var requests: nat
    ghost var answers: nat

    ghost function View(): State
      reads this, queue
    {
      State(queue[..], queue_back, queue_front, queue_fill, stat_q, stat_pvalid, dm_wfi, irq,
            client, mover, started, finished, pushed, woken, requests, answers)
    }

    constructor ()
      ensures View() == Init() && fresh(queue)
    {
      var slot: Slot := [0, 0, 0, 0, 0, 0, 0, 0];
      queue := new Slot[QUEUE_SIZE](_ => slot);
      queue_back, queue_front, queue_fill, stat_q, stat_pvalid := 0, 0, 0, false, false;
      dm_wfi, irq, client, mover, started, finished := 0, false, Free, CheckFill, [], {};
      pushed, woken, requests, answers := [], 0, 0, 0;
      new;
      assert queue[..] == Init().queue;
    }

    /** The next step of dm_memcpy_async or dm_memcpy2d_async. */
    method StepPush()
      requires InPush(client)
      modifies this, queue
      ensures View() == ClientPush(old(View()))
    {
      match client {
        case Poll(d) =>
          if queue_fill < QUEUE_SIZE {
            client := Put(d, 0);
          }
        case Put(d, k) =>
          if k < |WriteOrder(d)| && queue_front < queue.Length {
            var w := WriteOrder(d)[k];
            queue[queue_front] := queue[queue_front][w := Value(d, w)];
            client := if k + 1 < |WriteOrder(d)| then Put(d, k + 1) else AddFill(d);
          }
        case AddFill(d) =>
          queue_fill, client := queue_fill + 1, BumpFront(d);
          pushed := pushed + [d];
        case BumpFront(_) =>
          queue_front, client := (queue_front + 1) % QUEUE_SIZE, Free;
      }
    }

    /** The next step of dm_start or dm_wait. */
    method StepWait()
      requires !client.Free? && !InPush(client)
      modifies this
      ensures View() == ClientWait(old(View()))
    {
      match client {
        case SpinWfi(why) =>
          if dm_wfi != 0 {
            client := SetIrq(why);
          }
        case SetIrq(why) =>
          irq, woken := true, |pushed|;
          client := match why case ForStart => Free case ForQueue => PollEmpty case ForRequest => AwaitValid;
        case PollEmpty =>
          if queue_fill == 0 {
            client := PollStat;
          }
        case PollStat =>
          if !stat_q {
            client := ClearValid;
          }
        case ClearValid =>
          stat_pvalid, client := false, Request;
        case Request =>
          stat_q, client := true, SpinWfi(ForRequest);
          requests := requests + 1;
        case AwaitValid =>
          if stat_pvalid {
            client := Free;
          }
      }
    }

    /** The next load of dm_main from the slot at queue_back. */
    method StepRead()
      requires mover.ReadKind? || mover.ReadWord?
      modifies this`mover
      ensures View() == MoverIssue(old(View()), false)
    {
      if queue_back < queue.Length {
        match mover {
          case ReadKind =>
            mover := ReadWord(queue[queue_back][TWOD] != 0, []);
          case ReadWord(twod, got) =>
            if |got| < |ReadOrder(twod)| {
              var all := got + [queue[queue_back][ReadOrder(twod)[|got|]]];
              mover := if |all| == |ReadOrder(twod)| then Launch(FromWords(twod, all)) else ReadWord(twod, all);
            }
        }
      }
    }

    /** The next step of the part of dm_main that issues transfers. */
    method StepIssue(refused: bool)
      requires Issuing(mover)
      modifies this
      ensures View() == MoverIssue(old(View()), refused)
    {
      match mover {
        case CheckFill => mover := if queue_fill != 0 then Blocked else CheckStat;
        case Blocked =>
          if !(refused && exists i :: 0 <= i < |started| && i !in finished) {
            mover := ReadKind;
          }
        case ReadKind => StepRead();
        case ReadWord(_, _) => StepRead();
        case Launch(d) => started, mover := started + [d], BumpBack;
        case BumpBack => queue_back, mover := (queue_back + 1) % QUEUE_SIZE, SubFill;
        case SubFill => queue_fill, mover := queue_fill - 1, CheckStat;
      }
    }

    /** The next step of the part of dm_main that answers requests. */
    method StepStat()
      requires InStat(mover)
      modifies this
      ensures View() == MoverStat(old(View()))
    {
      match mover {
        case CheckStat => mover := if stat_q then Dispatch else SleepFill;
        case Dispatch => mover := if stat_q then CheckBusy else SleepFill;
        case CheckBusy =>
          mover := if exists i :: 0 <= i < |started| && i !in finished then SleepFill else SetValid;
        case SetValid =>
          stat_pvalid, mover := true, ClearStat;
          answers := answers + 1;
        case ClearStat => stat_q, mover := false, SleepFill;
      }
    }

    /** The next step of the end of dm_main's loop and of wfi_dm. */
    method StepSleep()
      requires !Issuing(mover) && !InStat(mover)
      modifies this
      ensures View() == MoverSleep(old(View()))
    {
      match mover {
        case SleepFill => mover := if queue_fill == 0 then SleepStat else CheckFill;
        case SleepStat => mover := if !stat_q then AddWfi else CheckFill;
        case AddWfi => dm_wfi, mover := dm_wfi + 1, Asleep;
        case Asleep =>
          if irq {
            mover := ClearIrq;
          }
        case ClearIrq => irq, mover := false, SubWfi;
        case SubWfi => dm_wfi, mover := dm_wfi - 1, CheckFill;
      }
    }

    /** Executes one step. */
    method Step(e: Event)
      modifies this, queue
      ensures View() == Next(old(View()), e)
    {
      match e {
        case Client(call) =>
          if client.Free? {
            client := match call case Push(d) => Poll(d) case Start => SpinWfi(ForStart) case Wait => SpinWfi(ForQueue);
          } else if InPush(client) {
            StepPush();
          } else {
            StepWait();
          }
        case Mover(refused) =>
          if Issuing(mover) {
            StepIssue(refused);
          } else if InStat(mover) {
            StepStat();
          } else {
            StepSleep();
          }
        case Finish(i) =>
          if i < |started| {
            finished := finished + {i};
          }
      }
    }

    /** Executes a whole schedule; whatever it is, the engine got the pushed transfers in order. */
    method Run(schedule: seq<Event>)
      requires View() == Init()
      modifies this, queue
      ensures View() == Exec(old(View()), schedule)
      ensures started <= pushed && 0 <= queue_fill <= QUEUE_SIZE
    {
      for k := 0 to |schedule|
        invariant View() == Exec(old(View()), schedule[..k])
      {
        assert schedule[..k + 1][..k] == schedule[..k];
        Step(schedule[k]);
      }
      assert schedule[..|schedule|] == schedule;
      TransfersInOrder(schedule);
    }
  }
}
