/**
  dm_start and dm_wait of software/snRuntime/src/dm.c return: a measure drops with every step, save when the data
  mover polls an engine that still owes the end of a transfer.
  */
module DataMoverProgress {
  import opened DataMover

  /** The client is inside dm_start or dm_wait. */
  predicate InWait(c: ClientPc) {
    !c.Free? && !InPush(c)
  }

  /** The steps of the client up to the end of its call, not counting waiting. */
  function ClientRank(c: ClientPc): nat {
    match c
    case SpinWfi(why) => if why.ForStart? then 2 else if why.ForQueue? then 9 else 3
    case SetIrq(why) => if why.ForStart? then 1 else if why.ForQueue? then 8 else 2
    case PollEmpty => 7
    case PollStat => 6
    case ClearValid => 5
    case Request => 4
    case AwaitValid => 1
    case _ => 0
  }

  /** How far the data mover is from falling asleep, in its loop. */
  function Position(m: MoverPc): int {
    match m
    case ClearIrq => 30
    case SubWfi => 29
    case CheckFill => 28
    case Blocked => 27
    case ReadKind => 26
    case ReadWord(_, got) => 25 - |got|
    case Launch(_) => 17
    case BumpBack => 16
    case SubFill => 15
    case CheckStat => 14
    case Dispatch => 13
    case CheckBusy => 12
    case SetValid => 11
    case ClearStat => 10
    case SleepFill => 9
    case SleepStat => 8
    case AddWfi => 7
    case Asleep => 0
  }

  /**
    The work of the data mover until it sleeps with no interrupt pending: a round for each queued transfer, a round
    for a request that this round has missed, and a round for a pending interrupt.
    */
  function MoverWork(s: State): int {
    Position(s.mover) + 40 * s.fill
    + (if (InStat(s.mover) || s.mover.SleepFill?) && s.fill != 0 then 30 else 0)
    + (if (s.mover.SleepFill? || s.mover.SleepStat?) && s.statQ then 40 else 0)
    + (if s.irq && !s.mover.ClearIrq? then 35 else 0)
  }

  /** The transfers that are not finished. */
  function Unfinished(s: State): int {
    |s.pushed| - |s.finished|
  }

  function Measure(s: State): int {
    300 * ClientRank(s.client) + MoverWork(s) + Unfinished(s)
  }

  /** The data mover asks the engine whether it is busy, and it is: it owes the end of a transfer. */
  predicate PollsBusyEngine(s: State, e: Event) {
    e.Mover? && s.mover.CheckBusy? && Busy(s)
  }

  // ----- The engine finishes only what was started -----

  function Below(n: nat): (r: set<nat>)
    ensures forall i :: i in r <==> 0 <= i < n
    ensures |r| == n
  {
    if n == 0 then {} else Below(n - 1) + {n - 1}
  }

  predicate FinishedOk(s: State) {
    forall i :: i in s.finished ==> i < |s.started|
  }

  lemma ClientKeepsEngine(s: State, call: Call)
    ensures var t := ClientStep(s, call); t.started == s.started && t.finished == s.finished
  {}

  /** The mover changes neither the client nor its pushes, and the engine only by starting transfers. */
  predicate SameClient(s: State, t: State) {
    s.started <= t.started && t.finished == s.finished && t.client == s.client && t.pushed == s.pushed
  }

  lemma IssueKeepsEngine(s: State, refused: bool)
    ensures SameClient(s, MoverIssue(s, refused))
  {}

  lemma StatKeepsEngine(s: State)
    ensures SameClient(s, MoverStat(s))
  {}

  lemma SleepKeepsEngine(s: State)
    ensures SameClient(s, MoverSleep(s))
  {}

  lemma MoverKeepsEngine(s: State, refused: bool)
    ensures SameClient(s, MoverStep(s, refused))
  {
    IssueKeepsEngine(s, refused);
    StatKeepsEngine(s);
    SleepKeepsEngine(s);
  }

  lemma {:induction false} ExecFinishedOk(schedule: seq<Event>)
    ensures FinishedOk(Exec(Init(), schedule))
  {
    if schedule != [] {
      var k := |schedule| - 1;
      ExecFinishedOk(schedule[..k]);
      var s := Exec(Init(), schedule[..k]);
      match schedule[k]
      case Client(call) => ClientKeepsEngine(s, call);
      case Mover(refused) => MoverKeepsEngine(s, refused);
      case Finish(_) =>
    }
  }

  lemma FinishedBound(s: State)
    requires FinishedOk(s)
    ensures |s.finished| <= |s.started|
  {
    assert s.finished <= Below(|s.started|);
    var rest := Below(|s.started|) - s.finished;
    assert Below(|s.started|) == s.finished + rest;
  }

  // ----- Every step counts -----

  lemma WorkBounds(s: State)
    requires 0 <= s.fill <= QUEUE_SIZE && ReadOk(s)
    ensures 0 <= MoverWork(s) < 300
  {}

  lemma IssueDrops(s: State, refused: bool)
    requires ReadOk(s) && Issuing(s.mover) && MoverIssue(s, refused) != s && s.fill >= 0
    requires s.mover.SubFill? ==> s.fill > 0
    ensures MoverWork(MoverIssue(s, refused)) < MoverWork(s)
  {}

  lemma StatDrops(s: State)
    requires InStat(s.mover) && !(s.mover.CheckBusy? && Busy(s))
    ensures MoverWork(MoverStat(s)) < MoverWork(s)
  {}

  lemma SleepDrops(s: State)
    requires !Issuing(s.mover) && !InStat(s.mover) && MoverSleep(s) != s
    ensures MoverWork(MoverSleep(s)) < MoverWork(s)
  {}

  lemma MoverDrops(s: State, refused: bool)
    requires ReadOk(s) && RingOk(s) && MoverStep(s, refused) != s && !(s.mover.CheckBusy? && Busy(s))
    ensures MoverWork(MoverStep(s, refused)) < MoverWork(s)
  {
    if Issuing(s.mover) {
      IssueDrops(s, refused);
    } else if InStat(s.mover) {
      StatDrops(s);
    } else {
      SleepDrops(s);
    }
  }

  lemma ClientDrops(s: State, call: Call)
    requires InWait(s.client) && ClientStep(s, call) != s
    ensures var t := ClientStep(s, call);
            && ClientRank(t.client) < ClientRank(s.client) && (InWait(t.client) || t.client.Free?)
            && t.fill == s.fill && t.mover == s.mover && t.pushed == s.pushed && t.started == s.started
  {}

  /**
    While the client is inside dm_start or dm_wait, every step that changes anything lowers the measure, unless the
    data mover polls an engine that still owes the end of a transfer.
    */
  lemma MeasureDrops(schedule: seq<Event>, e: Event)
    requires var s := Exec(Init(), schedule); InWait(s.client) && Next(s, e) != s && !PollsBusyEngine(s, e)
    ensures var s := Exec(Init(), schedule); 0 <= Measure(Next(s, e)) < Measure(s)
  {
    var s := Exec(Init(), schedule);
    var t := Next(s, e);
    assert Exec(Init(), schedule + [e]) == t by { assert (schedule + [e])[..|schedule|] == schedule; }
    WorkIsBounded(schedule);
    WorkIsBounded(schedule + [e]);
    ExecInv(schedule);
    StepDrops(s, e);
  }

  /** One step between two states with bounded work. */
  lemma StepDrops(s: State, e: Event)
    requires RingOk(s) && ReadOk(s) && InWait(s.client) && Next(s, e) != s && !PollsBusyEngine(s, e)
    requires 0 <= MoverWork(s) < 300 && 0 <= MoverWork(Next(s, e)) < 300
    ensures Measure(Next(s, e)) < Measure(s)
  {
    match e
    case Client(call) =>
      ClientDrops(s, call);
      ClientKeepsEngine(s, call);
    case Mover(refused) =>
      MoverDrops(s, refused);
      MoverKeepsEngine(s, refused);
    case Finish(i) =>
      FinishDrops(s, i);
  }

  lemma FinishDrops(s: State, i: nat)
    requires Next(s, Finish(i)) != s
    ensures Measure(Next(s, Finish(i))) < Measure(s)
  {
    assert i !in s.finished && Next(s, Finish(i)).finished == s.finished + {i};
  }

  lemma WorkIsBounded(schedule: seq<Event>)
    ensures var s := Exec(Init(), schedule); 0 <= MoverWork(s) < 300 && Unfinished(s) >= 0
  {
    var s := Exec(Init(), schedule);
    ExecInv(schedule);
    TransfersInOrder(schedule);
    WorkBounds(s);
    ExecFinishedOk(schedule);
    FinishedBound(s);
  }

  /**
    From every reachable state some continuation lets dm_start or dm_wait return; the engine has to finish its
    transfers.
    */
  lemma WaitReturns(schedule: seq<Event>) returns (more: seq<Event>)
    requires InWait(Exec(Init(), schedule).client)
    ensures Exec(Init(), more).client.Free? && Exec(Init(), more).pushed == Exec(Init(), schedule).pushed
    decreases Measure(Exec(Init(), schedule))
  {
    var s := Exec(Init(), schedule);
    var e := EffectiveStep(schedule);
    MeasureDrops(schedule, e);
    more := schedule + [e];
    assert more[..|schedule|] == schedule;
    StepKeepsWaiting(s, e);
    if InWait(Exec(Init(), more).client) {
      more := WaitReturns(more);
    }
  }

  lemma StepKeepsWaiting(s: State, e: Event)
    requires InWait(s.client)
    ensures var t := Next(s, e); (InWait(t.client) || t.client.Free?) && t.pushed == s.pushed
  {
    match e
    case Client(call) =>
      if ClientStep(s, call) != s {
        ClientDrops(s, call);
      }
    case Mover(refused) => MoverKeepsEngine(s, refused);
    case Finish(_) =>
  }

  /** Some step changes something and does not poll a busy engine: while it is busy, it can finish a transfer. */
  lemma EffectiveStep(schedule: seq<Event>) returns (e: Event)
    requires InWait(Exec(Init(), schedule).client)
    ensures var s := Exec(Init(), schedule); Next(s, e) != s && !PollsBusyEngine(s, e)
  {
    var s := Exec(Init(), schedule);
    if Busy(s) {
      var i :| 0 <= i < |s.started| && i !in s.finished;
      e := Finish(i);
      assert i in Next(s, e).finished;
    } else {
      NeverStuck(schedule);
      e := if ClientStep(s, Start) != s then Client(Start) else Mover(false);
    }
  }
}
