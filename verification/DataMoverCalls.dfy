/**
  What a call of software/snRuntime/src/dm.c has done when it returns: dm_memcpy_async and dm_memcpy2d_async have
  pushed the transfer that they were called with, dm_start has woken the data mover, and dm_wait has seen every
  transfer finished.
  */
module DataMoverCalls {
  import opened DataMover
  import opened DataMoverProgress

  /** From `t` on, along all of `rest`, the client is inside a call. */
  ghost predicate InCall(t: State, rest: seq<Event>) {
    forall k :: 0 <= k <= |rest| ==> !Exec(t, rest[..k]).client.Free?
  }

  /** The last step of `rest` is the one with which the client's call returns. */
  ghost predicate Returns(t: State, rest: seq<Event>) {
    rest != [] && InCall(t, rest[..|rest| - 1]) && Exec(t, rest).client.Free?
  }

  lemma InCallBefore(t: State, rest: seq<Event>)
    requires rest != [] && InCall(t, rest)
    ensures InCall(t, rest[..|rest| - 1]) && !Exec(t, rest).client.Free?
  {
    var before := rest[..|rest| - 1];
    forall k | 0 <= k <= |before|
      ensures !Exec(t, before[..k]).client.Free?
    {
      assert before[..k] == rest[..k];
    }
    assert rest[..|rest|] == rest;
  }

  /** The client's program counter and its history are its own. */
  predicate ClientKept(s: State, t: State) {
    t.client == s.client && t.pushed == s.pushed && t.woken == s.woken && t.requests == s.requests
  }

  lemma IssueKeepsClient(s: State, refused: bool)
    ensures ClientKept(s, MoverIssue(s, refused))
  {}

  lemma StatKeepsClient(s: State)
    ensures ClientKept(s, MoverStat(s))
  {}

  lemma SleepKeepsClient(s: State)
    ensures ClientKept(s, MoverSleep(s))
  {}

  lemma OthersKeepClient(s: State, e: Event)
    requires !e.Client?
    ensures ClientKept(s, Next(s, e))
  {
    if e.Mover? {
      IssueKeepsClient(s, e.refused);
      StatKeepsClient(s);
      SleepKeepsClient(s);
    }
  }

  lemma {:induction false} ExecFrom(t: State, rest: seq<Event>)
    requires Inv(t)
    ensures Inv(Exec(t, rest))
  {
    if rest != [] {
      ExecFrom(t, rest[..|rest| - 1]);
      NextInv(Exec(t, rest[..|rest| - 1]), rest[|rest| - 1]);
    }
  }

  // ----- Push -----

  /** How far a push of `d` has come that began in `s`. */
  predicate Pushing(s: State, t: State, d: Transfer) {
    match t.client
    case Poll(c) => c == d && t.pushed == s.pushed
    case Put(c, _) => c == d && t.pushed == s.pushed
    case AddFill(c) => c == d && t.pushed == s.pushed
    case BumpFront(c) => c == d && t.pushed == s.pushed + [d]
    case _ => false
  }

  lemma PushStep(s: State, v: State, d: Transfer, e: Event)
    requires Pushing(s, v, d)
    ensures var w := Next(v, e); Pushing(s, w, d) || (w.client.Free? && w.pushed == s.pushed + [d])
  {
    if !e.Client? {
      OthersKeepClient(v, e);
    }
  }

  lemma {:induction false} PushGoesOn(s: State, t: State, d: Transfer, rest: seq<Event>)
    requires Pushing(s, t, d) && InCall(t, rest)
    ensures Pushing(s, Exec(t, rest), d)
  {
    if rest != [] {
      InCallBefore(t, rest);
      PushGoesOn(s, t, d, rest[..|rest| - 1]);
      PushStep(s, Exec(t, rest[..|rest| - 1]), d, rest[|rest| - 1]);
    }
  }

  /** When a push returns, the transfer that it was called with has been pushed, and no other. */
  lemma PushReturns(schedule: seq<Event>, d: Transfer, rest: seq<Event>)
    requires var s := Exec(Init(), schedule); s.client.Free? && Returns(Next(s, Client(Push(d))), rest)
    ensures var s := Exec(Init(), schedule); Exec(Next(s, Client(Push(d))), rest).pushed == s.pushed + [d]
  {
    var s := Exec(Init(), schedule);
    var t := Next(s, Client(Push(d)));
    PushGoesOn(s, t, d, rest[..|rest| - 1]);
    PushStep(s, Exec(t, rest[..|rest| - 1]), d, rest[|rest| - 1]);
  }

  // ----- Start -----

  predicate Starting(s: State, t: State) {
    (t.client.SpinWfi? || t.client.SetIrq?) && t.client.why.ForStart? && t.pushed == s.pushed
  }

  /** With the interrupt set, the data mover is to start all that has been pushed. */
  predicate Woken(s: State, w: State) {
    w.client.Free? && w.irq && w.pushed == s.pushed && w.woken == |s.pushed|
  }

  lemma StartStep(s: State, v: State, e: Event)
    requires Starting(s, v)
    ensures var w := Next(v, e); Starting(s, w) || Woken(s, w)
  {
    if !e.Client? {
      OthersKeepClient(v, e);
    }
  }

  lemma {:induction false} StartGoesOn(s: State, t: State, rest: seq<Event>)
    requires Starting(s, t) && InCall(t, rest)
    ensures Starting(s, Exec(t, rest))
  {
    if rest != [] {
      InCallBefore(t, rest);
      StartGoesOn(s, t, rest[..|rest| - 1]);
      StartStep(s, Exec(t, rest[..|rest| - 1]), rest[|rest| - 1]);
    }
  }

  /** When dm_start returns, the data mover has been woken for all that was pushed before the call. */
  lemma StartReturns(schedule: seq<Event>, rest: seq<Event>)
    requires var s := Exec(Init(), schedule); s.client.Free? && Returns(Next(s, Client(Start)), rest)
    ensures var s := Exec(Init(), schedule); Woken(s, Exec(Next(s, Client(Start)), rest))
  {
    var s := Exec(Init(), schedule);
    var t := Next(s, Client(Start));
    StartGoesOn(s, t, rest[..|rest| - 1]);
    StartStep(s, Exec(t, rest[..|rest| - 1]), rest[|rest| - 1]);
  }

  // ----- Wait -----

  /** The requests that dm_wait has made so far. */
  predicate Waiting(s: State, t: State) {
    && t.pushed == s.pushed && InWait(t.client) && !IsStart(t.client)
    && t.requests == s.requests + if Requesting(t.client) then 1 else 0
  }

  predicate IsStart(c: ClientPc) {
    (c.SpinWfi? || c.SetIrq?) && c.why.ForStart?
  }

  lemma WaitStep(s: State, v: State, e: Event)
    requires Waiting(s, v)
    ensures var w := Next(v, e);
            || Waiting(s, w)
            || (v.client.AwaitValid? && e.Client? && w == v.(client := Free) && v.valid)
  {
    if !e.Client? {
      OthersKeepClient(v, e);
    }
  }

  lemma {:induction false} WaitGoesOn(s: State, t: State, rest: seq<Event>)
    requires Waiting(s, t) && InCall(t, rest)
    ensures Waiting(s, Exec(t, rest))
  {
    if rest != [] {
      InCallBefore(t, rest);
      WaitGoesOn(s, t, rest[..|rest| - 1]);
      WaitStep(s, Exec(t, rest[..|rest| - 1]), rest[|rest| - 1]);
    }
  }

  /** All transfers pushed before the call are started and finished, and the call's own request has been answered. */
  predicate AllDone(s: State, u: State) {
    && u.started == u.pushed == s.pushed && (forall i :: 0 <= i < |s.pushed| ==> i in u.finished)
    && u.answers == u.requests == s.requests + 1
  }

  /** When dm_wait returns, every transfer that was pushed before the call has been started and finished. */
  lemma WaitReturnsDone(schedule: seq<Event>, rest: seq<Event>)
    requires var s := Exec(Init(), schedule); s.client.Free? && Returns(Next(s, Client(Wait)), rest)
    ensures var s := Exec(Init(), schedule); AllDone(s, Exec(Next(s, Client(Wait)), rest))
  {
    var s := Exec(Init(), schedule);
    var t := Next(s, Client(Wait));
    var v := Exec(t, rest[..|rest| - 1]);
    ExecInv(schedule);
    NextInv(s, Client(Wait));
    ExecFrom(t, rest[..|rest| - 1]);
    WaitGoesOn(s, t, rest[..|rest| - 1]);
    WaitStep(s, v, rest[|rest| - 1]);
  }

  // ----- What a started data mover does without the client -----

  /** Steps of the data mover and the engine. */
  ghost predicate WithoutClient(more: seq<Event>) {
    forall i :: 0 <= i < |more| ==> !more[i].Client?
  }

  lemma StepFinishedOk(s: State, e: Event)
    requires FinishedOk(s) && !e.Client?
    ensures FinishedOk(Next(s, e))
  {
    if e.Mover? {
      MoverKeepsEngine(s, e.refused);
    }
  }

  /** A step of the engine if it owes one, otherwise of the data mover. */
  lemma MoverGoesOn(s: State) returns (e: Event)
    requires Inv(s) && FinishedOk(s) && (Busy(s) || !(s.mover.Asleep? && !s.irq))
    ensures !e.Client? && 0 <= Left(Next(s, e)) < Left(s)
  {
    WorkBounds(s);
    if Busy(s) {
      var i :| 0 <= i < |s.started| && i !in s.finished;
      e := Finish(i);
      FinishStep(s, i);
    } else {
      e := Mover(false);
      MoverStepLeft(s);
    }
  }

  /** The work of the data mover and the engine. */
  function Left(s: State): int {
    MoverWork(s) + Unfinished(s)
  }

  lemma FinishStep(s: State, i: nat)
    requires Inv(s) && FinishedOk(s) && i < |s.started| && i !in s.finished
    ensures 0 <= Left(Next(s, Finish(i))) < Left(s)
  {
    var t := Next(s, Finish(i));
    FinishDrops(s, i);
    NextInv(s, Finish(i));
    StepFinishedOk(s, Finish(i));
    LeftIsNat(t);
  }

  lemma MoverStepLeft(s: State)
    requires Inv(s) && FinishedOk(s) && !Busy(s) && !(s.mover.Asleep? && !s.irq)
    ensures 0 <= Left(Next(s, Mover(false))) < Left(s)
  {
    var t := Next(s, Mover(false));
    NextInv(s, Mover(false));
    MoverKeepsEngine(s, false);
    if !s.mover.Asleep? {
      MoverMoves(s, false);
    }
    MoverDrops(s, false);
    LeftIsNat(t);
  }

  lemma LeftIsNat(s: State)
    requires Inv(s) && FinishedOk(s)
    ensures Left(s) >= 0
  {
    WorkBounds(s);
    FinishedBound(s);
  }

  lemma {:induction false} ExecFirst(s: State, e: Event, more: seq<Event>)
    ensures Exec(s, [e] + more) == Exec(Next(s, e), more)
  {
    var all := [e] + more;
    if more == [] {
      assert all == [e] && [e][..0] == [];
    } else {
      var k := |more| - 1;
      ExecFirst(s, e, more[..k]);
      assert all[..k + 1] == [e] + more[..k];
    }
  }

  predicate Sleeps(s: State) {
    s.mover.Asleep? && !s.irq
  }

  /** Left alone, the data mover and the engine come to rest. */
  lemma ComesToRest(s: State) returns (more: seq<Event>)
    requires Inv(s) && FinishedOk(s)
    ensures WithoutClient(more)
    ensures var t := Exec(s, more); Inv(t) && Sleeps(t) && !Busy(t) && ClientKept(s, t)
    decreases Left(s)
  {
    LeftIsNat(s);
    if Busy(s) || !Sleeps(s) {
      var e := MoverGoesOn(s);
      NextInv(s, e);
      StepFinishedOk(s, e);
      OthersKeepClient(s, e);
      var later := ComesToRest(Next(s, e));
      ExecFirst(s, e, later);
      more := [e] + later;
    } else {
      more := [];
    }
  }

  /**
    Once dm_start has returned, the data mover and the engine alone start and finish everything that was pushed before
    the call.
    */
  lemma StartIsEnough(schedule: seq<Event>, rest: seq<Event>) returns (more: seq<Event>)
    requires var s := Exec(Init(), schedule); s.client.Free? && Returns(Next(s, Client(Start)), rest)
    ensures WithoutClient(more)
    ensures var s := Exec(Init(), schedule);
            var t := Exec(Exec(Next(s, Client(Start)), rest), more);
            t.started == t.pushed == s.pushed && forall i :: 0 <= i < |s.pushed| ==> i in t.finished
  {
    var s := Exec(Init(), schedule);
    var u := Exec(Next(s, Client(Start)), rest);
    StartReturns(schedule, rest);
    ReachedFrom(schedule, rest);
    more := ComesToRest(u);
    AllStarted(Exec(u, more));
  }

  lemma AllStarted(t: State)
    requires Inv(t) && Sleeps(t) && !Busy(t) && t.woken == |t.pushed|
    ensures t.started == t.pushed && forall i :: 0 <= i < |t.pushed| ==> i in t.finished
  {}

  lemma {:induction false} RestKeepsFinishedOk(t: State, rest: seq<Event>)
    requires FinishedOk(t)
    ensures FinishedOk(Exec(t, rest))
  {
    if rest != [] {
      var e, v := rest[|rest| - 1], Exec(t, rest[..|rest| - 1]);
      RestKeepsFinishedOk(t, rest[..|rest| - 1]);
      if e.Client? {
        ClientKeepsEngine(v, e.call);
      } else {
        StepFinishedOk(v, e);
      }
    }
  }

  lemma ReachedFrom(schedule: seq<Event>, rest: seq<Event>)
    requires Exec(Init(), schedule).client.Free?
    ensures var u := Exec(Next(Exec(Init(), schedule), Client(Start)), rest); Inv(u) && FinishedOk(u)
  {
    var s := Exec(Init(), schedule);
    ExecInv(schedule);
    ExecFinishedOk(schedule);
    NextInv(s, Client(Start));
    ClientKeepsEngine(s, Start);
    ExecFrom(Next(s, Client(Start)), rest);
    RestKeepsFinishedOk(Next(s, Client(Start)), rest);
  }

  // ----- When a push returns -----

  /** The data mover will look at the queue again without being woken. */
  predicate LooksAgain(s: State) {
    s.irq || !(s.mover.SleepStat? || Dozing(s.mover))
  }

  /** The queue is full, and the data mover is asleep or about to be. */
  predicate Blocks(s: State) {
    s.client.Poll? && s.fill >= QUEUE_SIZE && !LooksAgain(s)
  }

  /** The client's steps up to the end of a push, not counting waiting. */
  function PushRank(c: ClientPc): int {
    match c
    case Poll(_) => 11
    case Put(_, k) => 10 - k
    case AddFill(_) => 2
    case BumpFront(_) => 1
    case _ => 0
  }

  lemma OwnPushStep(s: State, call: Call)
    requires Inv(s) && InPush(s.client) && (s.client.Poll? ==> s.fill < QUEUE_SIZE)
    ensures var t := Next(s, Client(call));
            && (InPush(t.client) || t.client.Free?) && !t.client.Poll?
            && 0 <= PushRank(t.client) < PushRank(s.client)
  {
    NextInv(s, Client(call));
  }

  /** With a free slot the client alone ends its push. */
  lemma PushAlone(s: State) returns (more: seq<Event>)
    requires Inv(s) && InPush(s.client) && (s.client.Poll? ==> s.fill < QUEUE_SIZE)
    ensures Exec(s, more).client.Free?
    decreases PushRank(s.client)
  {
    var e := Client(Start);
    OwnPushStep(s, Start);
    NextInv(s, e);
    if Next(s, e).client.Free? {
      more := [e];
      ExecFirst(s, e, []);
      assert [e] + [] == [e];
    } else {
      var later := PushAlone(Next(s, e));
      ExecFirst(s, e, later);
      more := [e] + later;
    }
  }

  lemma IssueLooks(s: State, refused: bool)
    requires Issuing(s.mover)
    ensures var t := MoverIssue(s, refused); !t.mover.SleepStat? && !Dozing(t.mover)
  {}

  lemma StatLooks(s: State)
    requires InStat(s.mover)
    ensures var t := MoverStat(s); !t.mover.SleepStat? && !Dozing(t.mover)
  {}

  lemma SleepLooks(s: State)
    requires !Issuing(s.mover) && !InStat(s.mover) && LooksAgain(s) && s.fill != 0
    ensures LooksAgain(MoverSleep(s))
  {}

  lemma KeepsLooking(s: State, e: Event)
    requires LooksAgain(s) && s.fill >= QUEUE_SIZE && !e.Client?
    ensures LooksAgain(Next(s, e))
  {
    if e.Mover? {
      if Issuing(s.mover) {
        IssueLooks(s, e.refused);
      } else if InStat(s.mover) {
        StatLooks(s);
      } else {
        SleepLooks(s);
      }
    }
  }

  /** A data mover that looks again makes room in a full queue. */
  lemma MakesRoom(s: State) returns (more: seq<Event>)
    requires Inv(s) && FinishedOk(s) && LooksAgain(s) && s.client.Poll?
    ensures var t := Exec(s, more); Inv(t) && t.client == s.client && t.fill < QUEUE_SIZE
    decreases Left(s)
  {
    LeftIsNat(s);
    if s.fill < QUEUE_SIZE {
      more := [];
    } else {
      var e := MoverGoesOn(s);
      var t := Next(s, e);
      NextInv(s, e);
      StepFinishedOk(s, e);
      OthersKeepClient(s, e);
      KeepsLooking(s, e);
      var later: seq<Event>;
      if t.fill < QUEUE_SIZE {
        later := [];
      } else {
        later := MakesRoom(t);
      }
      ExecFirst(s, e, later);
      more := [e] + later;
    }
  }

  lemma BlocksOn(s: State, e: Event)
    requires Inv(s) && Blocks(s)
    ensures Blocks(Next(s, e))
  {}

  lemma {:induction false} BlocksForever(s: State, rest: seq<Event>)
    requires Inv(s) && Blocks(s)
    ensures Inv(Exec(s, rest)) && Blocks(Exec(s, rest))
  {
    if rest != [] {
      BlocksForever(s, rest[..|rest| - 1]);
      NextInv(Exec(s, rest[..|rest| - 1]), rest[|rest| - 1]);
      BlocksOn(Exec(s, rest[..|rest| - 1]), rest[|rest| - 1]);
    }
  }

  lemma PushCanReturn(s: State) returns (more: seq<Event>)
    requires Inv(s) && FinishedOk(s) && InPush(s.client) && !Blocks(s)
    ensures Exec(s, more).client.Free?
  {
    if s.client.Poll? && s.fill >= QUEUE_SIZE {
      var first := MakesRoom(s);
      var second := PushAlone(Exec(s, first));
      ExecConcat(s, first, second);
      more := first + second;
    } else {
      more := PushAlone(s);
    }
  }

  lemma FirstOfConcat(first: seq<Event>, rest: seq<Event>)
    ensures first == [] ==> first + rest == rest
    ensures first != [] ==> first == [first[0]] + first[1..] && first + rest == [first[0]] + (first[1..] + rest)
  {}

  lemma {:induction false} ExecConcat(s: State, first: seq<Event>, rest: seq<Event>)
    ensures Exec(s, first + rest) == Exec(Exec(s, first), rest)
    decreases |first|
  {
    FirstOfConcat(first, rest);
    if first != [] {
      var e, later := first[0], first[1..];
      ExecConcat(Next(s, e), later, rest);
      ExecFirst(s, e, later);
      ExecFirst(s, e, later + rest);
    }
  }

  /**
    A push can return unless the queue is full while the data mover sleeps, or is about to, with no interrupt pending;
    then it waits forever, since only the client's own dm_start could wake the data mover.
    */
  lemma PushReturnsIff(schedule: seq<Event>)
    requires InPush(Exec(Init(), schedule).client)
    ensures var s := Exec(Init(), schedule);
            (exists more :: Exec(s, more).client.Free?) <==> !Blocks(s)
  {
    var s := Exec(Init(), schedule);
    ExecInv(schedule);
    ExecFinishedOk(schedule);
    if Blocks(s) {
      forall more
        ensures !Exec(s, more).client.Free?
      {
        BlocksForever(s, more);
      }
    } else {
      var more := PushCanReturn(s);
    }
  }

  // ----- The engine's consent -----

  /** The data mover is on its way to give the engine a transfer. */
  predicate Committed(m: MoverPc) {
    m.ReadKind? || m.ReadWord? || m.Launch?
  }

  predicate CommittedAt(schedule: seq<Event>, j: nat)
    requires j <= |schedule|
  {
    Committed(Exec(Init(), schedule[..j]).mover)
  }

  /** The engine says that it would take a transfer. */
  predicate Accepts(s: State, e: Event) {
    e.Mover? && s.mover.Blocked? && !(e.refused && Busy(s))
  }

  /** Step `k` has found the engine ready to take a transfer, and the data mover has been on its way to it since. */
  ghost predicate Accepted(schedule: seq<Event>, k: nat) {
    && k < |schedule| && Accepts(Exec(Init(), schedule[..k]), schedule[k])
    && forall j :: k < j <= |schedule| ==> CommittedAt(schedule, j)
  }

  lemma AcceptedStays(schedule: seq<Event>, k: nat)
    requires schedule != [] && Accepted(schedule[..|schedule| - 1], k) && CommittedAt(schedule, |schedule|)
    ensures Accepted(schedule, k)
  {
    var before := schedule[..|schedule| - 1];
    assert before[..k] == schedule[..k];
    forall j | k < j < |schedule|
      ensures CommittedAt(schedule, j)
    {
      assert CommittedAt(before, j) && before[..j] == schedule[..j];
    }
  }

  lemma ClientKeepsMover(s: State, call: Call)
    ensures ClientStep(s, call).mover == s.mover
  {}

  lemma IssueCommits(s: State, refused: bool)
    requires Issuing(s.mover) && Committed(MoverIssue(s, refused).mover)
    ensures Committed(s.mover) || Accepts(s, Mover(refused))
  {}

  lemma StatCommitsNot(s: State)
    requires InStat(s.mover)
    ensures !Committed(MoverStat(s).mover)
  {}

  lemma SleepCommitsNot(s: State)
    requires !Issuing(s.mover) && !InStat(s.mover)
    ensures !Committed(MoverSleep(s).mover)
  {}

  lemma CommittedStep(s: State, e: Event)
    requires Committed(Next(s, e).mover)
    ensures Committed(s.mover) || Accepts(s, e)
  {
    match e
    case Client(call) => ClientKeepsMover(s, call);
    case Mover(refused) =>
      if Issuing(s.mover) {
        IssueCommits(s, refused);
      } else if InStat(s.mover) {
        StatCommitsNot(s);
      } else {
        SleepCommitsNot(s);
      }
    case Finish(_) =>
  }

  /** The data mover gives the engine a transfer only after the engine has said that it would take one. */
  lemma {:induction false} LaunchIsAccepted(schedule: seq<Event>) returns (k: nat)
    requires Committed(Exec(Init(), schedule).mover)
    ensures Accepted(schedule, k)
  {
    var last := |schedule| - 1;
    assert schedule[..|schedule|] == schedule;
    CommittedStep(Exec(Init(), schedule[..last]), schedule[last]);
    if Committed(Exec(Init(), schedule[..last]).mover) {
      k := LaunchIsAccepted(schedule[..last]);
      AcceptedStays(schedule, k);
    } else {
      k := last;
    }
  }
}
