/**
  What a call of software/snRuntime/src/omp/eu.c has done when it returns: eu_dispatch_push has put the task that it was
  called with into the record, and eu_run_empty has had the recorded task run once by each hart of its team.
  */
module EventUnitReturns {
  import opened EventUnit
  import opened EventUnitCalls

  /** The master is between calls, or the event unit has been shut down. */
  predicate Rests(s: State) {
    s.master.Free? || s.master.Done?
  }

  /** From `t` on, along all of `rest`, the master is inside a call. */
  ghost predicate InCall(t: State, rest: seq<Event>) {
    forall k :: 0 <= k <= |rest| ==> !Rests(Exec(t, rest[..k]))
  }

  /** The last step of `rest` is the one with which the master's call returns. */
  ghost predicate Returns(t: State, rest: seq<Event>) {
    rest != [] && InCall(t, rest[..|rest| - 1]) && Rests(Exec(t, rest))
  }

  lemma InCallBefore(t: State, rest: seq<Event>)
    requires rest != [] && InCall(t, rest)
    ensures InCall(t, rest[..|rest| - 1]) && !Rests(Exec(t, rest[..|rest| - 1]))
  {
    var before := rest[..|rest| - 1];
    forall k | 0 <= k <= |before|
      ensures !Rests(Exec(t, before[..k]))
    {
      assert before[..k] == rest[..k];
    }
  }

  lemma {:induction false} CallGoesOn(t: State, rest: seq<Event>)
    requires InCall(t, rest)
    ensures Exec(t, rest).calls == t.calls && !Rests(Exec(t, rest))
  {
    assert rest[..|rest|] == rest;
    if rest != [] {
      InCallBefore(t, rest);
      CallGoesOn(t, rest[..|rest| - 1]);
      InsideCall(Exec(t, rest[..|rest| - 1]), rest[|rest| - 1]);
    }
  }

  lemma {:induction false} ExecConcat(s: State, first: seq<Event>, rest: seq<Event>)
    ensures Exec(s, first + rest) == Exec(Exec(s, first), rest)
  {
    LastOfConcat(first, rest);
    if rest != [] {
      var k := |rest| - 1;
      ExecConcat(s, first, rest[..k]);
      ExecOne(s, first + rest[..k], rest[k]);
      ExecOne(Exec(s, first), rest[..k], rest[k]);
    }
  }

  lemma LastOfConcat(first: seq<Event>, rest: seq<Event>)
    ensures rest == [] ==> first + rest == first
    ensures rest != [] ==>
              var k := |rest| - 1;
              first + rest == (first + rest[..k]) + [rest[k]] && rest == rest[..k] + [rest[k]]
  {}

  lemma {:induction false} ExecKeepsWorkers(s: State, schedule: seq<Event>)
    ensures |Exec(s, schedule).workers| == |s.workers|
  {
    if schedule != [] {
      var e, t := schedule[|schedule| - 1], Exec(s, schedule[..|schedule| - 1]);
      ExecKeepsWorkers(s, schedule[..|schedule| - 1]);
      NextKeepsWorkers(t, e);
    }
  }

  lemma NextKeepsWorkers(s: State, e: Event)
    ensures |Next(s, e).workers| == |s.workers|
  {
    if e.hart == 0 {
      MasterKeepsWorkers(s, e.call);
    } else if e.hart <= |s.workers| {
      WorkerFrame(s, e.hart - 1);
    }
  }

  lemma MasterKeepsWorkers(s: State, call: Call)
    ensures |MasterStep(s, call).workers| == |s.workers|
  {
    assert |MasterPush(s).workers| == |s.workers|;
    assert |MasterFork(s).workers| == |s.workers|;
    assert |MasterRun(s).workers| == |s.workers|;
    assert |MasterExit(s).workers| == |s.workers|;
  }

  /** A hart's log after a call: eu_run_empty adds the recorded task for each hart of its team. */
  function Grown(log: seq<Task>, current: Job, call: Call, h: nat): seq<Task> {
    log + if call.RunEmpty? && h < current.nthreads then [current.task] else []
  }

  /** The record after a call. */
  function Recorded(current: Job, call: Call): Job {
    match call
    case Push(task, n) => Job(task, n)
    case RunEmpty => current.(nthreads := 0)
    case Exit => current
  }

  lemma JobsGrow(l: Ledger, call: Call, h: nat)
    ensures Expected(Apply(l, call).done, h) == Grown(Expected(l.done, h), l.current, call, h)
    ensures Apply(l, call).current == Recorded(l.current, call)
  {
    ExpectedAppend(l.done, l.current, h);
  }

  /** Between calls, the calls determine the record and the logs. */
  lemma RestingLedger(workers: nat, schedule: seq<Event>)
    requires Rests(Exec(Init(workers), schedule))
    ensures var s := Exec(Init(workers), schedule);
            LedgerOf(s.calls) == Ledger(Current(s), s.jobs) && LogsAre(s, s.jobs) && |s.workers| == workers
    ensures var s := Exec(Init(workers), schedule); s.master.Done? <==> Exits(s.calls)
  {
    ExecKeepsWorkers(Init(workers), schedule);
    DoneMeansExit(workers, schedule);
    if Exec(Init(workers), schedule).master.Free? {
      ForkJoin(workers, schedule);
    } else {
      FinalLogs(workers, schedule);
    }
  }

  /** What a call has done between `s` and `u`. */
  predicate Effect(s: State, u: State, call: Call) {
    && Current(u) == Recorded(Current(s), call) && u.masterLog == Grown(s.masterLog, Current(s), call, 0)
    && |u.workers| == |s.workers|
    && (forall i :: 0 <= i < |s.workers| ==>
          u.workers[i].log == Grown(s.workers[i].log, Current(s), call, i + 1))
    && (u.master.Done? <==> call.Exit?) && u.calls == s.calls + [call]
  }

  /**
    When a call returns: a push has recorded its own arguments and run nothing; eu_run_empty has had the recorded task
    run once by each hart of its team, and by nobody else, and has emptied the record; eu_exit has run nothing.
    */
  lemma CallEffect(workers: nat, schedule: seq<Event>, call: Call, rest: seq<Event>)
    requires var s := Exec(Init(workers), schedule); s.master.Free? && Returns(Next(s, Event(0, call)), rest)
    ensures var s := Exec(Init(workers), schedule); Effect(s, Exec(Next(s, Event(0, call)), rest), call)
  {
    var s := Exec(Init(workers), schedule);
    var t := Next(s, Event(0, call));
    var u, all := Exec(t, rest), schedule + [Event(0, call)] + rest;
    ExecOne(Init(workers), schedule, Event(0, call));
    ExecConcat(Init(workers), schedule + [Event(0, call)], rest);
    CallGoesOn(t, rest[..|rest| - 1]);
    InsideCall(Exec(t, rest[..|rest| - 1]), rest[|rest| - 1]);
    RestingLedger(workers, schedule);
    RestingLedger(workers, all);
    EffectOfLedgers(s, u, call);
  }

  lemma EffectOfLedgers(s: State, u: State, call: Call)
    requires u.calls == s.calls + [call] && |u.workers| == |s.workers|
    requires LedgerOf(s.calls) == Ledger(Current(s), s.jobs) && LogsAre(s, s.jobs)
    requires LedgerOf(u.calls) == Ledger(Current(u), u.jobs) && LogsAre(u, u.jobs)
    requires u.master.Done? <==> Exits(u.calls)
    ensures Effect(s, u, call)
  {
    assert u.calls[..|s.calls|] == s.calls;
    assert LedgerOf(u.calls) == Apply(LedgerOf(s.calls), call);
    JobsGrow(LedgerOf(s.calls), call, 0);
    forall i | 0 <= i < |s.workers|
      ensures u.workers[i].log == Grown(s.workers[i].log, Current(s), call, i + 1)
    {
      JobsGrow(LedgerOf(s.calls), call, i + 1);
    }
  }
}
