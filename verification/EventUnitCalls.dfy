/**
  Which sequences of calls get every pushed task of software/snRuntime/src/omp/eu.c run.  The event record holds
  one task, eu_dispatch_push overwrites it, and eu_exit runs the queue only if it is empty.
  */
module EventUnitCalls {
  import opened EventUnit

  /** The jobs that are pushed for at least one hart, in order. */
  function Pushed(calls: seq<Call>): seq<Job> {
    if calls == [] then []
    else
      var last := calls[|calls| - 1];
      Pushed(calls[..|calls| - 1]) + (if last.Push? && last.nthreads > 0 then [Job(last.task, last.nthreads)] else [])
  }

  /** If the i-th call pushes a task for at least one hart, the next call is eu_run_empty. */
  predicate RunNext(calls: seq<Call>, i: nat)
    requires i < |calls|
  {
    calls[i].Push? && calls[i].nthreads > 0 ==> i + 1 < |calls| && calls[i + 1].RunEmpty?
  }

  /** Every pushed task is run before the next push or exit. */
  ghost predicate EveryPushRun(calls: seq<Call>) {
    forall i :: 0 <= i < |calls| ==> RunNext(calls, i)
  }

  /** The same up to the last call, whose successor is not known yet. */
  ghost predicate PushesRunSoFar(calls: seq<Call>) {
    forall i :: 0 <= i < |calls| - 1 ==> RunNext(calls, i)
  }

  ghost predicate NoExit(calls: seq<Call>) {
    forall i :: 0 <= i < |calls| ==> !calls[i].Exit?
  }

  /** The job in the record that is still to be run, if any. */
  function Pending(l: Ledger): seq<Job> {
    if l.current.nthreads > 0 then [l.current] else []
  }

  lemma {:induction false} PendingIsLastPush(calls: seq<Call>)
    requires NoExit(calls)
    ensures var last := |calls| - 1;
            LedgerOf(calls).current.nthreads > 0
            <==> last >= 0 && calls[last].Push? && calls[last].nthreads > 0
  {
    if calls != [] && calls[|calls| - 1].RunEmpty? {
      PendingIsLastPush(calls[..|calls| - 1]);
    }
  }

  lemma SoFarStep(calls: seq<Call>)
    requires calls != []
    ensures var before := calls[..|calls| - 1];
            PushesRunSoFar(calls)
            <==> PushesRunSoFar(before) && (before != [] ==> RunNext(calls, |before| - 1))
  {
    var before := calls[..|calls| - 1];
    forall i | 0 <= i < |before| - 1
      ensures RunNext(calls, i) == RunNext(before, i)
    {}
  }

  /** If every push was run so far, nothing is lost; otherwise there are more pushes than completed jobs. */
  lemma {:induction false} PushesAreDoneOrLost(calls: seq<Call>)
    requires NoExit(calls)
    ensures var l := LedgerOf(calls);
            if PushesRunSoFar(calls) then Pushed(calls) == l.done + Pending(l)
            else |Pushed(calls)| > |l.done| + |Pending(l)|
  {
    if calls != [] {
      var before := calls[..|calls| - 1];
      PushesAreDoneOrLost(before);
      PendingIsLastPush(before);
      SoFarStep(calls);
      assert before != [] ==> before[|before| - 1] == calls[|before| - 1];
    }
  }

  /** An exit at the end changes neither the completed jobs nor whether every push was run. */
  lemma ExitAtTheEnd(calls: seq<Call>)
    requires calls != [] && calls[|calls| - 1].Exit?
    ensures var before := calls[..|calls| - 1];
            && LedgerOf(calls) == LedgerOf(before) && Pushed(calls) == Pushed(before)
            && (EveryPushRun(calls) <==> EveryPushRun(before))
  {
    var before := calls[..|calls| - 1];
    forall i | 0 <= i < |before|
      ensures RunNext(calls, i) == RunNext(before, i)
    {}
    assert RunNext(calls, |before|);
  }

  /** The completed jobs are all the pushed ones if and only if every pushed task was run in time. */
  lemma DoneIffRun(calls: seq<Call>)
    requires calls != [] ==> NoExit(calls[..|calls| - 1])
    ensures EveryPushRun(calls) ==> LedgerOf(calls).done == Pushed(calls)
    ensures !EveryPushRun(calls) ==> |LedgerOf(calls).done| < |Pushed(calls)|
  {
    if calls != [] && calls[|calls| - 1].Exit? {
      ExitAtTheEnd(calls);
      DoneIffRunWithoutExit(calls[..|calls| - 1]);
    } else {
      assert NoExit(calls) by {
        assert forall i :: 0 <= i < |calls| - 1 ==> calls[i] == calls[..|calls| - 1][i];
      }
      DoneIffRunWithoutExit(calls);
    }
  }

  lemma DoneIffRunWithoutExit(calls: seq<Call>)
    requires NoExit(calls)
    ensures EveryPushRun(calls) ==> LedgerOf(calls).done == Pushed(calls)
    ensures !EveryPushRun(calls) ==> |LedgerOf(calls).done| < |Pushed(calls)|
  {
    PushesAreDoneOrLost(calls);
    PendingIsLastPush(calls);
    if calls != [] && PushesRunSoFar(calls) {
      assert EveryPushRun(calls) <==> RunNext(calls, |calls| - 1);
    }
  }

  // ----- From calls to logs -----

  predicate Exits(calls: seq<Call>) {
    calls != [] && calls[|calls| - 1].Exit?
  }

  predicate Exiting(m: MasterPc) {
    InExit(m) || m.Done?
  }

  /** Exit is the last call, and only the master's exit states come after it. */
  ghost predicate CallsOk(s: State) {
    if Exiting(s.master) then Exits(s.calls) && NoExit(s.calls[..|s.calls| - 1]) else NoExit(s.calls)
  }

  lemma NextCallsOk(s: State, e: Event)
    requires CallsOk(s)
    ensures CallsOk(Next(s, e))
  {
    if e.hart == 0 && s.master.Free? {
      BeginCallsOk(s, e.call);
    } else {
      InsideCall(s, e);
    }
  }

  lemma BeginCallsOk(s: State, call: Call)
    requires CallsOk(s) && s.master.Free?
    ensures CallsOk(MasterBegin(s, call))
  {
    var t := MasterBegin(s, call);
    assert t.calls[..|s.calls|] == s.calls;
  }

  /** A step inside a call begins no other call, and neither enters nor leaves the exit. */
  lemma InsideCall(s: State, e: Event)
    requires e.hart != 0 || !s.master.Free?
    ensures Next(s, e).calls == s.calls && Exiting(Next(s, e).master) == Exiting(s.master)
  {
    if e.hart == 0 {
      if InPush(s.master) {
        PushKeepsCalls(s);
      } else if InFork(s.master) {
        ForkKeepsCalls(s);
      } else if InRun(s.master) {
        RunKeepsCalls(s);
      } else if Exiting(s.master) {
        ExitKeepsCalls(s);
      }
    } else if e.hart <= |s.workers| {
      WorkerFrame(s, e.hart - 1);
    }
  }

  lemma PushKeepsCalls(s: State)
    requires InPush(s.master)
    ensures MasterPush(s).calls == s.calls && !Exiting(MasterPush(s).master)
  {}

  lemma ForkKeepsCalls(s: State)
    requires InFork(s.master)
    ensures MasterFork(s).calls == s.calls && !Exiting(MasterFork(s).master)
  {}

  lemma RunKeepsCalls(s: State)
    requires InRun(s.master)
    ensures MasterRun(s).calls == s.calls && !Exiting(MasterRun(s).master)
  {}

  lemma ExitKeepsCalls(s: State)
    requires Exiting(s.master)
    ensures MasterExit(s).calls == s.calls && Exiting(MasterExit(s).master)
  {}

  lemma {:induction false} ExecCallsOk(workers: nat, schedule: seq<Event>)
    ensures CallsOk(Exec(Init(workers), schedule))
  {
    if schedule != [] {
      var k := |schedule| - 1;
      ExecCallsOk(workers, schedule[..k]);
      NextCallsOk(Exec(Init(workers), schedule[..k]), schedule[k]);
    }
  }

  ghost predicate AllNonEmpty(jobs: seq<Job>) {
    forall j :: 0 <= j < |jobs| ==> jobs[j].nthreads > 0
  }

  lemma {:induction false} MasterRunsAll(jobs: seq<Job>)
    requires AllNonEmpty(jobs)
    ensures |Expected(jobs, 0)| == |jobs|
  {
    if jobs != [] {
      MasterRunsAll(jobs[..|jobs| - 1]);
    }
  }

  lemma {:induction false} JobsAreNonEmpty(calls: seq<Call>)
    ensures AllNonEmpty(Pushed(calls)) && AllNonEmpty(LedgerOf(calls).done)
  {
    if calls != [] {
      JobsAreNonEmpty(calls[..|calls| - 1]);
    }
  }

  /** The master's log has one entry for each job, so it tells whether all pushed jobs are among the completed. */
  lemma LogTells(calls: seq<Call>)
    requires calls != [] ==> NoExit(calls[..|calls| - 1])
    ensures Expected(LedgerOf(calls).done, 0) == Expected(Pushed(calls), 0) <==> EveryPushRun(calls)
    ensures EveryPushRun(calls) ==> LedgerOf(calls).done == Pushed(calls)
  {
    DoneIffRun(calls);
    JobsAreNonEmpty(calls);
    MasterRunsAll(Pushed(calls));
    MasterRunsAll(LedgerOf(calls).done);
  }

  /** Between calls and after eu_exit, each log is that of the completed jobs. */
  predicate LogsAre(s: State, jobs: seq<Job>) {
    s.masterLog == Expected(jobs, 0) && forall i :: 0 <= i < |s.workers| ==> s.workers[i].log == Expected(jobs, i + 1)
  }

  lemma LogsOfCalls(workers: nat, schedule: seq<Event>)
    requires var m := Exec(Init(workers), schedule).master; m.Free? || m.Done?
    ensures var s := Exec(Init(workers), schedule); LogsAre(s, LedgerOf(s.calls).done)
  {
    if Exec(Init(workers), schedule).master.Free? {
      ForkJoin(workers, schedule);
    } else {
      FinalLogs(workers, schedule);
    }
  }

  /**
    Between calls and after eu_exit: the master has run all the tasks that were pushed, and with it every worker
    those of its teams, if and only if each push was followed by eu_run_empty before the next push or exit.
    */
  lemma EveryPushedTaskIsRun(workers: nat, schedule: seq<Event>)
    requires var m := Exec(Init(workers), schedule).master; m.Free? || m.Done?
    ensures var s := Exec(Init(workers), schedule);
            s.masterLog == Expected(Pushed(s.calls), 0) <==> EveryPushRun(s.calls)
    ensures var s := Exec(Init(workers), schedule);
            EveryPushRun(s.calls) ==> LogsAre(s, Pushed(s.calls))
  {
    LogsOfCalls(workers, schedule);
    ExecCallsOk(workers, schedule);
    LogTells(Exec(Init(workers), schedule).calls);
  }

  // ----- Every sequence of calls can be carried out -----

  lemma ExecOne(s: State, schedule: seq<Event>, e: Event)
    ensures Exec(s, schedule + [e]) == Next(Exec(s, schedule), e)
  {
    assert (schedule + [e])[..|schedule|] == schedule;
  }

  /** From every reachable state some continuation lets the current call return. */
  lemma CallReturns(workers: nat, schedule: seq<Event>) returns (more: seq<Event>)
    ensures var s, t := Exec(Init(workers), schedule), Exec(Init(workers), more);
            (t.master.Free? || t.master.Done?) && t.calls == s.calls
    decreases Energy(Exec(Init(workers), schedule))
  {
    var s := Exec(Init(workers), schedule);
    if s.master.Free? || s.master.Done? {
      more := schedule;
    } else {
      NeverStuck(workers, schedule);
      var e :| Next(s, e) != s;
      EnergyDrops(workers, schedule, e);
      ExecOne(Init(workers), schedule, e);
      InsideCall(s, e);
      more := CallReturns(workers, schedule + [e]);
    }
  }

  /** Between calls the master is done exactly if the last call was the exit. */
  lemma DoneMeansExit(workers: nat, schedule: seq<Event>)
    requires var m := Exec(Init(workers), schedule).master; m.Free? || m.Done?
    ensures var s := Exec(Init(workers), schedule); s.master.Done? <==> Exits(s.calls)
  {
    ExecCallsOk(workers, schedule);
  }

  lemma NextCallReturns(workers: nat, first: seq<Event>, last: Call) returns (schedule: seq<Event>)
    requires Exec(Init(workers), first).master.Free?
    ensures MadeCalls(Exec(Init(workers), schedule), Exec(Init(workers), first).calls + [last])
  {
    var s := Exec(Init(workers), first);
    ExecOne(Init(workers), first, Event(0, last));
    assert Next(s, Event(0, last)).calls == s.calls + [last];
    schedule := CallReturns(workers, first + [Event(0, last)]);
  }

  lemma FreeWithoutExit(workers: nat, schedule: seq<Event>, calls: seq<Call>)
    requires MadeCalls(Exec(Init(workers), schedule), calls) && NoExit(calls)
    ensures Exec(Init(workers), schedule).master.Free?
  {
    DoneMeansExit(workers, schedule);
  }

  lemma NoCallsAreMade(workers: nat) returns (schedule: seq<Event>)
    ensures MadeCalls(Exec(Init(workers), schedule), [])
  {
    schedule := CallReturns(workers, []);
    assert Exec(Init(workers), []).calls == [];
  }

  lemma OneMoreCall(workers: nat, first: seq<Event>, before: seq<Call>, last: Call) returns (schedule: seq<Event>)
    requires MadeCalls(Exec(Init(workers), first), before) && NoExit(before)
    ensures MadeCalls(Exec(Init(workers), schedule), before + [last])
  {
    FreeWithoutExit(workers, first, before);
    schedule := NextCallReturns(workers, first, last);
  }

  /** Every sequence of calls with an exit at most at its end can be carried out, with any number of workers. */
  lemma {:induction false} CallsCanBeMade(workers: nat, calls: seq<Call>) returns (schedule: seq<Event>)
    requires calls != [] ==> NoExit(calls[..|calls| - 1])
    ensures MadeCalls(Exec(Init(workers), schedule), calls)
    decreases |calls|
  {
    if calls == [] {
      schedule := NoCallsAreMade(workers);
    } else {
      var before, last := calls[..|calls| - 1], calls[|calls| - 1];
      assert before + [last] == calls;
      var first := CallsCanBeMade(workers, before);
      schedule := OneMoreCall(workers, first, before, last);
    }
  }

  /** The calls have been made, and the last one has returned. */
  predicate MadeCalls(s: State, calls: seq<Call>) {
    s.calls == calls && (s.master.Free? || s.master.Done?)
  }

  /** The master has run every task that the calls push. */
  predicate RanAll(s: State, calls: seq<Call>) {
    s.masterLog == Expected(Pushed(calls), 0)
  }

  lemma RanAllIff(workers: nat, schedule: seq<Event>, calls: seq<Call>)
    requires MadeCalls(Exec(Init(workers), schedule), calls)
    ensures RanAll(Exec(Init(workers), schedule), calls) <==> EveryPushRun(calls)
  {
    EveryPushedTaskIsRun(workers, schedule);
  }

  /**
    For a sequence of calls: all runs of it leave every pushed task run by the master if and only if each push is
    followed by eu_run_empty.  In particular eu_exit drops a task that is pushed but not run.
    */
  lemma AllTasksRunIff(workers: nat, calls: seq<Call>)
    requires calls != [] ==> NoExit(calls[..|calls| - 1])
    ensures (forall schedule | MadeCalls(Exec(Init(workers), schedule), calls) ::
        RanAll(Exec(Init(workers), schedule), calls))
       <==> EveryPushRun(calls)
  {
    if EveryPushRun(calls) {
      forall schedule | MadeCalls(Exec(Init(workers), schedule), calls)
        ensures RanAll(Exec(Init(workers), schedule), calls)
      {
        RanAllIff(workers, schedule, calls);
      }
    } else {
      var one := CallsCanBeMade(workers, calls);
      RanAllIff(workers, one, calls);
      assert MadeCalls(Exec(Init(workers), one), calls) && !RanAll(Exec(Init(workers), one), calls);
    }
  }

  /** A reachable run: a task is pushed, eu_exit is called, and nobody has run anything. */
  lemma ExitDropsThePushedTask(workers: nat, task: Task, n: nat) returns (schedule: seq<Event>)
    requires n > 0
    ensures var s := Exec(Init(workers), schedule);
            && s.calls == [Push(task, n), Exit] && s.master.Done? && s.masterLog == []
            && forall i :: 0 <= i < |s.workers| ==> s.workers[i].log == []
  {
    var calls := [Push(task, n), Exit];
    var one := calls[..1];
    assert one == [Push(task, n)] && one[..0] == [];
    schedule := CallsCanBeMade(workers, calls);
    DoneMeansExit(workers, schedule);
    FinalLogs(workers, schedule);
    assert LedgerOf([]).done == [] && LedgerOf(one).done == [] && LedgerOf(calls).done == [];
  }
}
