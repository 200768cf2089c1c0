/**
  The fork/join event unit of software/snRuntime/src/omp/eu.c, started as in snrt_omp_bootstrap of
  software/snRuntime/src/omp/omp.c (cluster-local interrupts).

  Hart 0 is the master, `workers[i]` is hart i + 1.  The master makes any sequence of calls to
  eu_dispatch_push and eu_run_empty and at most one final eu_exit.  Every load, store, atomic and
  interrupt access is one step and steps interleave in any order.  `wfi` returns exactly when the hart's
  interrupt is pending.  A pushed function is opaque: running it is recorded in the hart's log.

  `log`, `masterLog`, `jobs` and `calls` are history and no step reads them.
  */
module EventUnit {

  datatype Task = Task(fn: int, data: int, argc: int)

  /** A task with the number of harts that shall run it. */
  datatype Job = Job(task: Task, nthreads: nat)

  datatype Call = Push(task: Task, nthreads: nat) | RunEmpty | Exit

  datatype WorkerPc =
    | Entering               // about to add itself to workers_in_loop
    | CheckExit              // if (exit_flag)
    | CheckTeam              // if (cluster_core_idx < e.nthreads)
    | CopyTeam               // nthds = e.nthreads
    | LoadFn
    | LoadData(fn: int)
    | LoadArgc(fn: int, data: int)
    | InTask(task: Task)
    | AddFini                // fini_count + 1
    | AddWfi                 // workers_wfi + 1
    | Asleep                 // wfi
    | ClearIrq
    | SubWfi                 // workers_wfi - 1
    | Gone                   // returned from the event loop

  datatype Worker = Worker(pc: WorkerPc, irq: bool, log: seq<Task>)

  datatype MasterPc =
    | Boot                                            // waits until all workers sleep
    | Free                                            // between calls
    | PushCount(job: Job)                             // scratch = workers_in_loop
    | PushWait(job: Job, scratch: int)                // while (workers_wfi != scratch)
    | StoreFn(job: Job)
    | StoreData(job: Job)
    | StoreArgc(job: Job)
    | StoreTeam(job: Job)
    | RunLoad                                         // scratch = e.nthreads
    | RunReset(n: nat)                                // fini_count = 0
    | WakeCount(n: nat)
    | WakeWait(n: nat, scratch: int)
    | Wake(n: nat)                                    // set the interrupts of all workers
    | MasterTeam(n: nat)                              // if (core_idx < e.nthreads)
    | MasterFn(n: nat)
    | MasterData(n: nat, fn: int)
    | MasterArgc(n: nat, fn: int, data: int)
    | MasterTask(n: nat, task: Task)
    | JoinCount(n: nat)                               // scratch = workers_in_loop
    | JoinWait(n: nat, scratch: int)                  // while (fini_count != scratch)
    | Close(n: nat)                                   // e.nthreads = 0
    | ExitCheck                                       // if (!e.nthreads)
    | ExitRun                                         // eu_run_empty, which finds e.nthreads zero and returns
    | ExitCount
    | ExitWait(scratch: int)
    | ExitFlag                                        // exit_flag = 1
    | ExitWakeCount
    | ExitWakeWait(scratch: int)
    | ExitWake
    | Done

  datatype State = State(
    workersInLoop: int,
    exitFlag: bool,
    workersWfi: int,
    fn: int,
    data: int,
    argc: int,
    nthreads: nat,
    finiCount: int,
    master: MasterPc,
    workers: seq<Worker>,
    masterLog: seq<Task>,
    jobs: seq<Job>,
    calls: seq<Call>)

  function Init(workers: nat): State {
    State(0, false, 0, 0, 0, 0, 0, 0, Boot, seq(workers, _ => Worker(Entering, false, [])), [], [], [])
  }

  /** The job in the event record. */
  function Current(s: State): Job {
    Job(Task(s.fn, s.data, s.argc), s.nthreads)
  }

  // ----- Steps -----

  function Become(s: State, i: nat, pc: WorkerPc): State
    requires i < |s.workers|
  {
    s.(workers := s.workers[i := s.workers[i].(pc := pc)])
  }

  /** One step of the worker with index `i`, which is hart i + 1. */
  function WorkerStep(s: State, i: nat): State
    requires i < |s.workers|
  {
    var x := s.workers[i];
    match x.pc
    case Entering => Become(s, i, CheckExit).(workersInLoop := s.workersInLoop + 1)
    case CheckExit => Become(s, i, if s.exitFlag then Gone else CheckTeam)
    case CheckTeam => Become(s, i, if i + 1 < s.nthreads then CopyTeam else AddFini)
    case CopyTeam => Become(s, i, LoadFn)
    case LoadFn => Become(s, i, LoadData(s.fn))
    case LoadData(fn) => Become(s, i, LoadArgc(fn, s.data))
    case LoadArgc(fn, data) => Become(s, i, InTask(Task(fn, data, s.argc)))
    case InTask(task) => s.(workers := s.workers[i := Worker(AddFini, x.irq, x.log + [task])])
    case AddFini => Become(s, i, AddWfi).(finiCount := s.finiCount + 1)
    case AddWfi => Become(s, i, Asleep).(workersWfi := s.workersWfi + 1)
    case Asleep => if x.irq then Become(s, i, ClearIrq) else s
    case ClearIrq => s.(workers := s.workers[i := Worker(SubWfi, false, x.log)])
    case SubWfi => Become(s, i, CheckExit).(workersWfi := s.workersWfi - 1)
    case Gone => s
  }

  /** Sets the interrupt of every worker. */
  function SetIrqs(workers: seq<Worker>): (r: seq<Worker>)
    ensures |r| == |workers|
  {
    seq(|workers|, i requires 0 <= i < |workers| => workers[i].(irq := true))
  }

  function MasterBegin(s: State, call: Call): State {
    s.(calls := s.calls + [call],
       master := match call
                 case Push(task, n) => PushCount(Job(task, n))
                 case RunEmpty => RunLoad
                 case Exit => ExitCheck)
  }

  function MasterPush(s: State): State {
    match s.master
    case PushCount(job) => s.(master := PushWait(job, s.workersInLoop))
    case PushWait(job, scratch) => if s.workersWfi == scratch then s.(master := StoreFn(job)) else s
    case StoreFn(job) => s.(fn := job.task.fn, master := StoreData(job))
    case StoreData(job) => s.(data := job.task.data, master := StoreArgc(job))
    case StoreArgc(job) => s.(argc := job.task.argc, master := StoreTeam(job))
    case StoreTeam(job) => s.(nthreads := job.nthreads, master := Free)
    case _ => s
  }

  function MasterFork(s: State): State {
    match s.master
    case RunLoad => s.(master := if s.nthreads == 0 then Free else RunReset(s.nthreads))
    case RunReset(n) => s.(finiCount := 0, master := if n > 1 then WakeCount(n) else MasterTeam(n))
    case WakeCount(n) => s.(master := WakeWait(n, s.workersInLoop))
    case WakeWait(n, scratch) => if s.workersWfi == scratch then s.(master := Wake(n)) else s
    case Wake(n) => s.(workers := SetIrqs(s.workers), master := MasterTeam(n))
    case _ => s
  }

  function AfterTask(n: nat): MasterPc {
    if n > 1 then JoinCount(n) else Close(n)
  }

  function MasterRun(s: State): State {
    match s.master
    case MasterTeam(n) => s.(master := if 0 < s.nthreads then MasterFn(n) else AfterTask(n))
    case MasterFn(n) => s.(master := MasterData(n, s.fn))
    case MasterData(n, fn) => s.(master := MasterArgc(n, fn, s.data))
    case MasterArgc(n, fn, data) => s.(master := MasterTask(n, Task(fn, data, s.argc)))
    case MasterTask(n, task) => s.(masterLog := s.masterLog + [task], master := AfterTask(n))
    case JoinCount(n) => s.(master := JoinWait(n, s.workersInLoop))
    case JoinWait(n, scratch) => if s.finiCount == scratch then s.(master := Close(n)) else s
    case Close(n) => s.(nthreads := 0, jobs := s.jobs + [Current(s)], master := Free)
    case _ => s
  }

  function MasterExit(s: State): State {
    match s.master
    case ExitCheck => s.(master := if s.nthreads == 0 then ExitRun else ExitCount)
    case ExitRun => if s.nthreads == 0 then s.(master := ExitCount) else s
    case ExitCount => s.(master := ExitWait(s.workersInLoop))
    case ExitWait(scratch) => if s.workersWfi == scratch then s.(master := ExitFlag) else s
    case ExitFlag => s.(exitFlag := true, master := ExitWakeCount)
    case ExitWakeCount => s.(master := ExitWakeWait(s.workersInLoop))
    case ExitWakeWait(scratch) => if s.workersWfi == scratch then s.(master := ExitWake) else s
    case ExitWake => s.(workers := SetIrqs(s.workers), master := Done)
    case _ => s
  }

  predicate InPush(m: MasterPc) {
    m.PushCount? || m.PushWait? || m.StoreFn? || m.StoreData? || m.StoreArgc? || m.StoreTeam?
  }

  predicate InFork(m: MasterPc) {
    m.RunLoad? || m.RunReset? || m.WakeCount? || m.WakeWait? || m.Wake?
  }

  predicate InRun(m: MasterPc) {
    m.MasterTeam? || m.MasterFn? || m.MasterData? || m.MasterArgc? || m.MasterTask?
    || m.JoinCount? || m.JoinWait? || m.Close?
  }

  /** One step of the master; `call` is the call it begins if it is between calls. */
  function MasterStep(s: State, call: Call): State {
    if s.master.Boot? then
      (if s.workersWfi == |s.workers| then s.(master := Free) else s)
    else if s.master.Free? then MasterBegin(s, call)
    else if InPush(s.master) then MasterPush(s)
    else if InFork(s.master) then MasterFork(s)
    else if InRun(s.master) then MasterRun(s)
    else MasterExit(s)
  }

  datatype Event = Event(hart: nat, call: Call)

  function Next(s: State, e: Event): State {
    if e.hart == 0 then MasterStep(s, e.call)
    else if e.hart <= |s.workers| then WorkerStep(s, e.hart - 1)
    else s
  }

  function Exec(s: State, schedule: seq<Event>): State {
    if schedule == [] then s
    else Next(Exec(s, schedule[..|schedule| - 1]), schedule[|schedule| - 1])
  }

  // ----- What the calls ask for -----

  /** The tasks that hart `h` shall have run: those of the jobs whose team it belongs to, in order. */
  function Expected(jobs: seq<Job>, h: nat): seq<Task> {
    if jobs == [] then []
    else
      var last := jobs[|jobs| - 1];
      Expected(jobs[..|jobs| - 1], h) + (if h < last.nthreads then [last.task] else [])
  }

  lemma ExpectedAppend(jobs: seq<Job>, job: Job, h: nat)
    ensures Expected(jobs + [job], h) == Expected(jobs, h) + (if h < job.nthreads then [job.task] else [])
  {
    assert (jobs + [job])[..|jobs|] == jobs;
  }

  /** The event record and the completed jobs, as a sequence of calls determines them. */
  datatype Ledger = Ledger(current: Job, done: seq<Job>)

  function Apply(l: Ledger, call: Call): Ledger {
    match call
    case Push(task, n) => l.(current := Job(task, n))
    case RunEmpty =>
      if l.current.nthreads == 0 then l
      else Ledger(l.current.(nthreads := 0), l.done + [l.current])
    case Exit => l
  }

  function LedgerOf(calls: seq<Call>): Ledger {
    if calls == [] then Ledger(Job(Task(0, 0, 0), 0), [])
    else Apply(LedgerOf(calls[..|calls| - 1]), calls[|calls| - 1])
  }

  // ----- Counting workers -----

  datatype Kind = Inside | InWfi | Finished

  predicate Is(x: Worker, kind: Kind) {
    match kind
    case Inside => !x.pc.Entering?
    case InWfi => x.pc.Asleep? || x.pc.ClearIrq? || x.pc.SubWfi?
    case Finished => Resting(x)
  }

  /** Done with its round and not woken for another: it reads nothing until its interrupt is set. */
  predicate Resting(x: Worker) {
    !x.irq && (x.pc.AddWfi? || x.pc.Asleep?)
  }

  function Count(ws: seq<Worker>, kind: Kind): nat {
    if ws == [] then 0 else Count(ws[..|ws| - 1], kind) + (if Is(ws[|ws| - 1], kind) then 1 else 0)
  }

  lemma {:induction false} CountUpdate(ws: seq<Worker>, i: nat, x: Worker, kind: Kind)
    requires i < |ws|
    ensures Count(ws[i := x], kind)
         == Count(ws, kind) - (if Is(ws[i], kind) then 1 else 0) + (if Is(x, kind) then 1 else 0)
  {
    var k := |ws| - 1;
    if i < k {
      assert ws[i := x][..k] == ws[..k][i := x];
      CountUpdate(ws[..k], i, x, kind);
    } else {
      assert ws[i := x][..k] == ws[..k];
    }
  }

  lemma {:induction false} CountBounds(ws: seq<Worker>, kind: Kind)
    ensures Count(ws, kind) <= |ws|
    ensures Count(ws, kind) == |ws| <==> forall i :: 0 <= i < |ws| ==> Is(ws[i], kind)
    ensures Count(ws, kind) == 0 <==> forall i :: 0 <= i < |ws| ==> !Is(ws[i], kind)
  {
    if ws != [] {
      var k := |ws| - 1;
      CountBounds(ws[..k], kind);
      assert forall i :: 0 <= i < k ==> ws[..k][i] == ws[i];
      assert ws[k] == ws[|ws| - 1];
    }
  }

  lemma {:induction false} CountSame(ws: seq<Worker>, vs: seq<Worker>, kind: Kind)
    requires |ws| == |vs| && forall i :: 0 <= i < |ws| ==> Is(ws[i], kind) == Is(vs[i], kind)
    ensures Count(ws, kind) == Count(vs, kind)
  {
    if ws != [] {
      CountSame(ws[..|ws| - 1], vs[..|vs| - 1], kind);
    }
  }

  // ----- The invariant -----

  /** The master has forked a job to the workers and has not yet seen all of them finish. */
  predicate Forked(m: MasterPc) {
    InRun(m) && !m.Close? && m.n > 1
  }

  /** The master knows that all workers sleep: it has waited for that and has woken nobody since. */
  predicate Verified(m: MasterPc) {
    || m.StoreFn? || m.StoreData? || m.StoreArgc? || m.StoreTeam?
    || m.RunReset? || m.WakeCount? || m.WakeWait? || m.Wake?
    || (InRun(m) && m.n == 1)
    || m.ExitFlag? || m.ExitWakeCount? || m.ExitWakeWait? || m.ExitWake?
  }

  /** A worker during a forked job: not yet awake, at work, or resting. */
  predicate AtWorkOk(x: Worker, h: nat, jobs: seq<Job>, job: Job) {
    var before, after := Expected(jobs, h), Expected(jobs + [job], h);
    match x.pc
    case Entering => false
    case CheckExit => !x.irq && x.log == before
    case CheckTeam => !x.irq && x.log == before
    case CopyTeam => !x.irq && x.log == before && h < job.nthreads
    case LoadFn => !x.irq && x.log == before && h < job.nthreads
    case LoadData(fn) => !x.irq && x.log == before && h < job.nthreads && fn == job.task.fn
    case LoadArgc(fn, data) =>
      !x.irq && x.log == before && h < job.nthreads && fn == job.task.fn && data == job.task.data
    case InTask(task) => !x.irq && x.log == before && h < job.nthreads && task == job.task
    case AddFini => !x.irq && x.log == after
    case AddWfi => !x.irq && x.log == after
    case Asleep => x.log == if x.irq then before else after
    case ClearIrq => x.irq && x.log == before
    case SubWfi => !x.irq && x.log == before
    case Gone => false
  }

  /** Before the master has seen all workers asleep for the first time. */
  predicate BootingOk(x: Worker) {
    !x.irq && x.log == []
    && (x.pc.Entering? || x.pc.CheckExit? || x.pc.CheckTeam? || x.pc.AddFini? || x.pc.AddWfi? || x.pc.Asleep?)
  }

  /** Woken to leave the event loop. */
  predicate LeavingOk(x: Worker) {
    if x.irq then x.pc.Asleep? || x.pc.ClearIrq? else x.pc.SubWfi? || x.pc.CheckExit? || x.pc.Gone?
  }

  predicate WorkerOk(s: State, i: nat)
    requires i < |s.workers|
  {
    var x := s.workers[i];
    var h := i + 1;
    if s.master.Boot? then BootingOk(x)
    else if s.master.Done? then x.log == Expected(s.jobs, h) && LeavingOk(x)
    else if Forked(s.master) then AtWorkOk(x, h, s.jobs, Current(s))
    else
      && Resting(x)
      && x.log == Expected(if s.master.Close? then s.jobs + [Current(s)] else s.jobs, h)
      && (Verified(s.master) || (s.nthreads != 0 && !s.master.Close?) ==> x.pc.Asleep?)
  }

  predicate CountersOk(s: State) {
    && s.workersInLoop == Count(s.workers, Inside)
    && s.workersWfi == Count(s.workers, InWfi)
    && (Forked(s.master) ==> s.finiCount == Count(s.workers, Finished))
  }

  /** The values the master has read, and the record it is about to write. */
  predicate MasterOk(s: State) {
    var cur := Current(s);
    var ledger := LedgerOf(s.calls);
    match s.master
    case Boot => s.nthreads == 0 && s.jobs == [] && ledger == Ledger(cur, s.jobs)
    case PushWait(job, scratch) => scratch == |s.workers| && ledger == Ledger(job, s.jobs)
    case PushCount(job) => ledger == Ledger(job, s.jobs)
    case StoreFn(job) => ledger == Ledger(job, s.jobs)
    case StoreData(job) => s.fn == job.task.fn && ledger == Ledger(job, s.jobs)
    case StoreArgc(job) => s.fn == job.task.fn && s.data == job.task.data && ledger == Ledger(job, s.jobs)
    case StoreTeam(job) => cur.task == job.task && ledger == Ledger(job, s.jobs)
    case RunLoad => ledger == Apply(Ledger(cur, s.jobs), RunEmpty)
    case RunReset(n) => Running(s, n)
    case WakeCount(n) => n > 1 && s.finiCount == 0 && Running(s, n)
    case WakeWait(n, scratch) => n > 1 && s.finiCount == 0 && scratch == |s.workers| && Running(s, n)
    case Wake(n) => n > 1 && s.finiCount == 0 && Running(s, n)
    case MasterTeam(n) => Running(s, n)
    case MasterFn(n) => Running(s, n)
    case MasterData(n, fn) => Running(s, n) && fn == s.fn
    case MasterArgc(n, fn, data) => Running(s, n) && fn == s.fn && data == s.data
    case MasterTask(n, task) => Running(s, n) && task == cur.task
    case JoinCount(n) => n > 1 && Running(s, n)
    case JoinWait(n, scratch) => n > 1 && scratch == |s.workers| && Running(s, n)
    case Close(n) => Running(s, n)
    case ExitRun => s.nthreads == 0 && ledger == Ledger(cur, s.jobs)
    case ExitWait(scratch) => scratch == |s.workers| && ledger == Ledger(cur, s.jobs)
    case ExitWakeWait(scratch) => scratch == |s.workers| && ledger == Ledger(cur, s.jobs)
    case _ => ledger == Ledger(cur, s.jobs)
  }

  /** eu_run_empty is at work on the job in the record. */
  predicate Running(s: State, n: nat) {
    n > 0 && s.nthreads == n && LedgerOf(s.calls) == Apply(Ledger(Current(s), s.jobs), RunEmpty)
  }

  predicate MasterRan(m: MasterPc) {
    m.JoinCount? || m.JoinWait? || m.Close?
  }

  predicate FlagOk(s: State) {
    s.exitFlag <==> s.master.ExitWakeCount? || s.master.ExitWakeWait? || s.master.ExitWake? || s.master.Done?
  }

  predicate Inv(s: State) {
    && (forall i :: 0 <= i < |s.workers| ==> WorkerOk(s, i))
    && CountersOk(s)
    && MasterOk(s)
    && FlagOk(s)
    && s.masterLog == Expected(if MasterRan(s.master) then s.jobs + [Current(s)] else s.jobs, 0)
  }

  lemma InitInv(workers: nat)
    ensures Inv(Init(workers))
  {
    CountBounds(Init(workers).workers, Inside);
    CountBounds(Init(workers).workers, InWfi);
  }

  // ----- Every step keeps the invariant -----

  /** A worker's step touches its own record and the three counters, nothing else. */
  lemma WorkerFrame(s: State, i: nat)
    requires i < |s.workers|
    ensures var t := WorkerStep(s, i);
            && |t.workers| == |s.workers| && t.workers == s.workers[i := t.workers[i]]
            && Current(t) == Current(s) && t.master == s.master && t.jobs == s.jobs && t.calls == s.calls
            && t.exitFlag == s.exitFlag && t.masterLog == s.masterLog
            && (!s.workers[i].pc.AddFini? ==> t.finiCount == s.finiCount)
  {}

  /** The worker's new record depends on nothing but the flag, the job in the record, and the worker. */
  lemma WorkerAtWork(s: State, i: nat, jobs: seq<Job>)
    requires i < |s.workers| && !s.exitFlag && AtWorkOk(s.workers[i], i + 1, jobs, Current(s))
    ensures AtWorkOk(WorkerStep(s, i).workers[i], i + 1, jobs, Current(s))
  {
    ExpectedAppend(jobs, Current(s), i + 1);
  }

  lemma WorkerBoots(s: State, i: nat)
    requires i < |s.workers| && !s.exitFlag && s.nthreads == 0 && BootingOk(s.workers[i])
    ensures BootingOk(WorkerStep(s, i).workers[i])
  {}

  lemma WorkerLeaves(s: State, i: nat)
    requires i < |s.workers| && s.exitFlag && LeavingOk(s.workers[i])
    ensures var y := WorkerStep(s, i).workers[i]; LeavingOk(y) && y.log == s.workers[i].log
  {}

  lemma WorkerRests(s: State, i: nat)
    requires i < |s.workers| && Resting(s.workers[i])
    ensures var y := WorkerStep(s, i).workers[i]; Resting(y) && y.pc.Asleep? && y.log == s.workers[i].log
  {}

  lemma WorkerKeepsItself(s: State, i: nat)
    requires Inv(s) && i < |s.workers|
    ensures WorkerOk(WorkerStep(s, i), i)
  {
    assert WorkerOk(s, i);
    WorkerFrame(s, i);
    if s.master.Boot? {
      WorkerBoots(s, i);
    } else if s.master.Done? {
      WorkerLeaves(s, i);
    } else if Forked(s.master) {
      WorkerAtWork(s, i, s.jobs);
    } else {
      WorkerRests(s, i);
    }
  }

  lemma WorkerKeepsCounters(s: State, i: nat)
    requires Inv(s) && i < |s.workers|
    ensures CountersOk(WorkerStep(s, i))
  {
    WorkerKeepsInside(s, i);
    WorkerKeepsInWfi(s, i);
    if Forked(s.master) {
      WorkerKeepsFini(s, i);
    }
    WorkerFrame(s, i);
  }

  /** A worker that moves in or out of the loop, or of wfi, says so in the counter. */
  lemma WorkerCounts(s: State, i: nat)
    requires i < |s.workers|
    ensures var t := WorkerStep(s, i);
            var x, y := s.workers[i], t.workers[i];
            && t.workersInLoop == s.workersInLoop - (if Is(x, Inside) then 1 else 0) + (if Is(y, Inside) then 1 else 0)
            && t.workersWfi == s.workersWfi - (if Is(x, InWfi) then 1 else 0) + (if Is(y, InWfi) then 1 else 0)
  {}

  lemma WorkerKeepsInside(s: State, i: nat)
    requires CountersOk(s) && i < |s.workers|
    ensures WorkerStep(s, i).workersInLoop == Count(WorkerStep(s, i).workers, Inside)
  {
    WorkerFrame(s, i);
    WorkerCounts(s, i);
    CountUpdate(s.workers, i, WorkerStep(s, i).workers[i], Inside);
  }

  lemma WorkerKeepsInWfi(s: State, i: nat)
    requires CountersOk(s) && i < |s.workers|
    ensures WorkerStep(s, i).workersWfi == Count(WorkerStep(s, i).workers, InWfi)
  {
    WorkerFrame(s, i);
    WorkerCounts(s, i);
    CountUpdate(s.workers, i, WorkerStep(s, i).workers[i], InWfi);
  }

  /** During a forked job, a worker that finishes says so in the counter. */
  lemma WorkerFinishes(s: State, i: nat, jobs: seq<Job>)
    requires i < |s.workers| && AtWorkOk(s.workers[i], i + 1, jobs, Current(s))
    ensures var t := WorkerStep(s, i);
            var x, y := s.workers[i], t.workers[i];
            t.finiCount == s.finiCount - (if Is(x, Finished) then 1 else 0) + (if Is(y, Finished) then 1 else 0)
  {}

  lemma WorkerKeepsFini(s: State, i: nat)
    requires Inv(s) && i < |s.workers| && Forked(s.master)
    ensures WorkerStep(s, i).finiCount == Count(WorkerStep(s, i).workers, Finished)
  {
    var t := WorkerStep(s, i);
    WorkerFrame(s, i);
    assert WorkerOk(s, i);
    WorkerFinishes(s, i, s.jobs);
    CountUpdate(s.workers, i, t.workers[i], Finished);
  }

  lemma WorkerStepInv(s: State, i: nat)
    requires Inv(s) && i < |s.workers|
    ensures Inv(WorkerStep(s, i))
  {
    var t := WorkerStep(s, i);
    WorkerFrame(s, i);
    WorkerKeepsItself(s, i);
    WorkerKeepsCounters(s, i);
    assert WorkerOk(s, i);
    forall j | 0 <= j < |t.workers|
      ensures WorkerOk(t, j)
    {
      assert WorkerOk(s, j);
    }
  }

  /** If as many workers sleep in wfi as there are workers, none is still on its way there. */
  lemma AllAsleep(s: State)
    requires CountersOk(s) && s.workersWfi == |s.workers|
    requires forall i :: 0 <= i < |s.workers| ==> Resting(s.workers[i])
    ensures forall i :: 0 <= i < |s.workers| ==> s.workers[i].pc.Asleep?
  {
    CountBounds(s.workers, InWfi);
    assert forall i :: 0 <= i < |s.workers| ==> Is(s.workers[i], InWfi);
  }

  lemma AllInLoop(s: State)
    requires Inv(s) && !s.master.Boot?
    ensures s.workersInLoop == |s.workers|
  {
    CountBounds(s.workers, Inside);
    forall i | 0 <= i < |s.workers| ensures Is(s.workers[i], Inside) { assert WorkerOk(s, i); }
  }

  predicate AllSleep(s: State) {
    forall i :: 0 <= i < |s.workers| ==> s.workers[i].pc.Asleep?
  }

  /** Neither booting nor done, no job forked and none to be closed: all workers rest. */
  predicate Quiet(m: MasterPc) {
    !m.Boot? && !m.Done? && !Forked(m) && !m.Close?
  }

  lemma QuietMeansRest(s: State)
    requires Inv(s) && Quiet(s.master)
    ensures forall i :: 0 <= i < |s.workers| ==> Resting(s.workers[i])
    ensures Verified(s.master) || s.nthreads != 0 || s.workersWfi == |s.workers| ==> AllSleep(s)
  {
    forall i | 0 <= i < |s.workers|
      ensures Resting(s.workers[i])
      ensures Verified(s.master) || s.nthreads != 0 ==> s.workers[i].pc.Asleep?
    {
      assert WorkerOk(s, i);
    }
    if s.workersWfi == |s.workers| {
      AllAsleep(s);
    }
  }

  /** The master's memory accesses and its history change, the workers and their counters do not. */
  predicate MasterOnly(s: State, t: State) {
    && t.workers == s.workers && t.jobs == s.jobs
    && t.workersInLoop == s.workersInLoop && t.workersWfi == s.workersWfi
  }

  /** A step of the master from one quiet state to another. */
  lemma QuietStep(s: State, t: State)
    requires Inv(s) && MasterOnly(s, t) && Quiet(s.master) && Quiet(t.master)
    requires MasterOk(t) && FlagOk(t)
    requires t.masterLog == s.masterLog
    requires Verified(t.master) || t.nthreads != 0 ==> AllSleep(s)
    ensures Inv(t)
  {
    QuietMeansRest(s);
    forall i | 0 <= i < |t.workers| ensures WorkerOk(t, i) { assert WorkerOk(s, i); }
  }

  /** A step of the master while the workers are at work. */
  lemma ForkedStep(s: State, t: State)
    requires Inv(s) && MasterOnly(s, t) && Forked(s.master) && Forked(t.master)
    requires MasterOk(t) && FlagOk(t) && Current(t) == Current(s) && t.finiCount == s.finiCount
    requires t.masterLog == Expected(if MasterRan(t.master) then t.jobs + [Current(t)] else t.jobs, 0)
    ensures Inv(t)
  {
    forall i | 0 <= i < |t.workers| ensures WorkerOk(t, i) { assert WorkerOk(s, i); }
  }

  lemma BootInv(s: State, call: Call)
    requires Inv(s) && s.master.Boot?
    ensures Inv(MasterStep(s, call))
  {
    var t := MasterStep(s, call);
    CountBounds(s.workers, InWfi);
    forall i | 0 <= i < |t.workers| ensures WorkerOk(t, i) {
      assert WorkerOk(s, i);
      assert t != s ==> Is(s.workers[i], InWfi);
    }
  }

  lemma BeginInv(s: State, call: Call)
    requires Inv(s) && s.master.Free?
    ensures Inv(MasterStep(s, call))
  {
    var t := MasterStep(s, call);
    assert t.calls[..|t.calls| - 1] == s.calls;
    assert LedgerOf(t.calls) == Apply(LedgerOf(s.calls), call);
    QuietMeansRest(s);
    QuietStep(s, t);
  }

  lemma PushInv(s: State)
    requires Inv(s) && InPush(s.master)
    ensures Inv(MasterPush(s))
  {
    AllInLoop(s);
    QuietMeansRest(s);
    if MasterPush(s) != s {
      QuietStep(s, MasterPush(s));
    }
  }

  lemma ForkInv(s: State)
    requires Inv(s) && InFork(s.master) && !s.master.Wake?
    ensures Inv(MasterFork(s))
  {
    AllInLoop(s);
    QuietMeansRest(s);
    if MasterFork(s) != s {
      QuietStep(s, MasterFork(s));
    }
  }

  /** Setting all interrupts while all workers sleep keeps the two counters that count workers. */
  lemma WakeKeepsCounts(ws: seq<Worker>)
    requires forall i :: 0 <= i < |ws| ==> ws[i].pc.Asleep?
    ensures Count(SetIrqs(ws), Inside) == Count(ws, Inside)
    ensures Count(SetIrqs(ws), InWfi) == Count(ws, InWfi)
    ensures Count(SetIrqs(ws), Finished) == 0
  {
    CountSame(SetIrqs(ws), ws, Inside);
    CountSame(SetIrqs(ws), ws, InWfi);
    CountBounds(SetIrqs(ws), Finished);
  }

  lemma WakeInv(s: State)
    requires Inv(s) && s.master.Wake?
    ensures Inv(MasterFork(s))
  {
    forall i | 0 <= i < |s.workers| ensures s.workers[i].pc.Asleep? { assert WorkerOk(s, i); }
    WakeKeepsCounts(s.workers);
    forall i | 0 <= i < |s.workers| ensures WorkerOk(MasterFork(s), i) { assert WorkerOk(s, i); }
  }

  /** The master's own share: it goes on with the job it has read. */
  lemma ShareOk(s: State)
    requires MasterOk(s) && FlagOk(s) && s.workersInLoop == |s.workers|
    requires InRun(s.master) && !s.master.JoinWait? && !s.master.Close? && !s.master.MasterTask?
    ensures var t := MasterRun(s);
            && MasterOk(t) && FlagOk(t) && MasterOnly(s, t)
            && Current(t) == Current(s) && t.finiCount == s.finiCount && t.masterLog == s.masterLog
            && InRun(t.master) && t.master.n == s.master.n && !t.master.Close?
            && MasterRan(t.master) == MasterRan(s.master)
  {}

  lemma RunInv(s: State)
    requires Inv(s) && InRun(s.master) && !s.master.JoinWait? && !s.master.Close? && !s.master.MasterTask?
    ensures Inv(MasterRun(s))
  {
    AllInLoop(s);
    ShareOk(s);
    if Forked(s.master) {
      ForkedStep(s, MasterRun(s));
    } else {
      QuietMeansRest(s);
      QuietStep(s, MasterRun(s));
    }
  }

  lemma TaskInv(s: State)
    requires Inv(s) && s.master.MasterTask?
    ensures Inv(MasterRun(s))
  {
    ExpectedAppend(s.jobs, Current(s), 0);
    forall i | 0 <= i < |s.workers| ensures WorkerOk(MasterRun(s), i) {
      assert WorkerOk(s, i);
      ExpectedAppend(s.jobs, Current(s), i + 1);
    }
  }

  lemma JoinedWorker(s: State, i: nat, n: nat)
    requires i < |s.workers| && WorkerOk(s, i) && Forked(s.master) && n > 1 && Resting(s.workers[i])
    ensures WorkerOk(s.(master := Close(n)), i)
  {}

  lemma JoinInv(s: State)
    requires Inv(s) && s.master.JoinWait?
    ensures Inv(MasterRun(s))
  {
    var t := MasterRun(s);
    if s.finiCount == s.master.scratch {
      assert t == s.(master := Close(s.master.n));
      CountBounds(s.workers, Finished);
      forall i | 0 <= i < |s.workers| ensures WorkerOk(t, i) {
        assert WorkerOk(s, i) && Is(s.workers[i], Finished);
        JoinedWorker(s, i, s.master.n);
      }
    }
  }

  lemma CloseInv(s: State)
    requires Inv(s) && s.master.Close?
    ensures Inv(MasterRun(s))
  {
    forall i | 0 <= i < |s.workers| ensures WorkerOk(MasterRun(s), i) { assert WorkerOk(s, i); }
  }

  predicate InExit(m: MasterPc) {
    !m.Boot? && !m.Free? && !InPush(m) && !InFork(m) && !InRun(m) && !m.Done?
  }

  lemma ExitOk(s: State)
    requires MasterOk(s) && FlagOk(s) && s.workersInLoop == |s.workers| && InExit(s.master) && !s.master.ExitWake?
    ensures var t := MasterExit(s);
            && MasterOk(t) && FlagOk(t) && MasterOnly(s, t) && InExit(t.master)
            && t.nthreads == s.nthreads && t.masterLog == s.masterLog
            && (Verified(t.master) ==> Verified(s.master) || s.workersWfi == |s.workers|)
  {}

  lemma ExitInv(s: State)
    requires Inv(s) && InExit(s.master) && !s.master.ExitWake?
    ensures Inv(MasterExit(s))
  {
    AllInLoop(s);
    QuietMeansRest(s);
    ExitOk(s);
    QuietStep(s, MasterExit(s));
  }

  lemma ExitWakeInv(s: State)
    requires Inv(s) && s.master.ExitWake?
    ensures Inv(MasterExit(s))
  {
    forall i | 0 <= i < |s.workers| ensures s.workers[i].pc.Asleep? { assert WorkerOk(s, i); }
    WakeKeepsCounts(s.workers);
    forall i | 0 <= i < |s.workers| ensures WorkerOk(MasterExit(s), i) { assert WorkerOk(s, i); }
  }

  lemma NextInv(s: State, e: Event)
    requires Inv(s)
    ensures Inv(Next(s, e))
  {
    if e.hart == 0 {
      MasterStepInv(s, e.call);
    } else if e.hart <= |s.workers| {
      WorkerStepInv(s, e.hart - 1);
    }
  }

  lemma MasterStepInv(s: State, call: Call)
    requires Inv(s)
    ensures Inv(MasterStep(s, call))
  {
    var m := s.master;
    if m.Boot? {
      BootInv(s, call);
    } else if m.Free? {
      BeginInv(s, call);
    } else if InPush(m) {
      PushInv(s);
    } else if m.Wake? {
      WakeInv(s);
    } else if InFork(m) {
      ForkInv(s);
    } else if m.JoinWait? {
      JoinInv(s);
    } else if m.Close? {
      CloseInv(s);
    } else if m.MasterTask? {
      TaskInv(s);
    } else if InRun(m) {
      RunInv(s);
    } else if m.ExitWake? {
      ExitWakeInv(s);
    } else if !m.Done? {
      ExitInv(s);
    }
  }

  lemma {:induction false} ExecInv(workers: nat, schedule: seq<Event>)
    ensures Inv(Exec(Init(workers), schedule))
  {
    if schedule == [] {
      InitInv(workers);
    } else {
      var k := |schedule| - 1;
      ExecInv(workers, schedule[..k]);
      NextInv(Exec(Init(workers), schedule[..k]), schedule[k]);
    }
  }

  // ----- Main results, for every reachable state -----

  /**
    Whenever the master is between calls, the completed jobs are exactly those its calls asked for, every
    hart has run exactly the tasks of the jobs whose team it belongs to, once each and in order, with the
    pushed function, data and argc, and no worker is inside a task.
    */
  lemma ForkJoin(workers: nat, schedule: seq<Event>)
    requires Exec(Init(workers), schedule).master.Free?
    ensures var s := Exec(Init(workers), schedule);
            && LedgerOf(s.calls) == Ledger(Current(s), s.jobs)
            && s.masterLog == Expected(s.jobs, 0)
            && (forall i :: 0 <= i < |s.workers| ==> s.workers[i].log == Expected(s.jobs, i + 1))
            && (forall i :: 0 <= i < |s.workers| ==> Resting(s.workers[i]))
  {
    ExecInv(workers, schedule);
    var s := Exec(Init(workers), schedule);
    forall i | 0 <= i < |s.workers|
      ensures s.workers[i].log == Expected(s.jobs, i + 1) && Resting(s.workers[i])
    {
      assert WorkerOk(s, i);
    }
  }

  lemma RecordWriters(s: State, call: Call)
    requires Current(MasterStep(s, call)) != Current(s)
    ensures InPush(s.master) || s.master.Close?
  {}

  lemma WorkersKeepRecord(s: State, e: Event)
    requires e.hart != 0
    ensures Current(Next(s, e)) == Current(s)
  {
    if e.hart <= |s.workers| {
      WorkerFrame(s, e.hart - 1);
    }
  }

  lemma RecordStep(s: State, e: Event)
    requires Inv(s) && Current(Next(s, e)) != Current(s)
    ensures e.hart == 0 && (forall i :: 0 <= i < |s.workers| ==> Resting(s.workers[i]))
  {
    assert e.hart == 0 by {
      if e.hart != 0 {
        WorkersKeepRecord(s, e);
      }
    }
    RecordWriters(s, e.call);
    forall i | 0 <= i < |s.workers| ensures Resting(s.workers[i]) { assert WorkerOk(s, i); }
  }

  /** Only the master writes the event record, and only while no worker can read it before its next wakeup. */
  lemma RecordIsStable(workers: nat, schedule: seq<Event>, e: Event)
    requires var s := Exec(Init(workers), schedule);
             Current(Next(s, e)) != Current(s)
    ensures var s := Exec(Init(workers), schedule);
            e.hart == 0 && (forall i :: 0 <= i < |s.workers| ==> Resting(s.workers[i]))
  {
    ExecInv(workers, schedule);
    RecordStep(Exec(Init(workers), schedule), e);
  }

  /** The master resets fini_count only while all workers sleep with no interrupt pending. */
  lemma FiniCountIsStable(workers: nat, schedule: seq<Event>, call: Call)
    requires var s := Exec(Init(workers), schedule);
             MasterStep(s, call).finiCount != s.finiCount
    ensures var s := Exec(Init(workers), schedule);
            AllSleep(s) && (forall i :: 0 <= i < |s.workers| ==> !s.workers[i].irq)
  {
    ExecInv(workers, schedule);
    QuietMeansRest(Exec(Init(workers), schedule));
  }

  /**
    No set interrupt is lost.  When the master sets the interrupts, every worker sleeps in wfi with a clear
    interrupt, so none is about to clear what is being set; and a worker only ever clears a set interrupt.
    */
  lemma NoWakeupIsLost(workers: nat, schedule: seq<Event>)
    ensures var s := Exec(Init(workers), schedule);
            (s.master.Wake? || s.master.ExitWake?)
            ==> AllSleep(s) && forall i :: 0 <= i < |s.workers| ==> !s.workers[i].irq
    ensures var s := Exec(Init(workers), schedule);
            forall i :: 0 <= i < |s.workers| && s.workers[i].pc.ClearIrq? ==> s.workers[i].irq
  {
    ExecInv(workers, schedule);
    var s := Exec(Init(workers), schedule);
    forall i | 0 <= i < |s.workers|
      ensures s.workers[i].pc.ClearIrq? ==> s.workers[i].irq
      ensures s.master.Wake? || s.master.ExitWake? ==> s.workers[i].pc.Asleep? && !s.workers[i].irq
    {
      assert WorkerOk(s, i);
    }
  }

  /** How many of its own steps a worker is from leaving the event loop once the exit flag is set. */
  function StepsToLeave(pc: WorkerPc): nat {
    match pc
    case Asleep => 4
    case ClearIrq => 3
    case SubWfi => 2
    case CheckExit => 1
    case _ => 0
  }

  lemma LeavingWorker(s: State, i: nat)
    requires Inv(s) && s.master.Done? && i < |s.workers|
    ensures var x, y := s.workers[i], WorkerStep(s, i).workers[i];
            && y.log == x.log
            && StepsToLeave(y.pc) + (if !x.pc.Gone? then 1 else 0) == StepsToLeave(x.pc)
            && (StepsToLeave(x.pc) == 0 <==> x.pc.Gone?)
  {
    assert WorkerOk(s, i);
  }

  /** A step after eu_exit: no log grows, and a worker that steps comes closer to leaving. */
  predicate Leaves(s: State, e: Event, i: nat)
    requires i < |s.workers| == |Next(s, e).workers|
  {
    var x, y := s.workers[i], Next(s, e).workers[i];
    && y.log == x.log
    && StepsToLeave(y.pc) + (if e.hart == i + 1 && !x.pc.Gone? then 1 else 0) == StepsToLeave(x.pc)
    && (StepsToLeave(x.pc) == 0 <==> x.pc.Gone?)
  }

  lemma MasterIsDone(s: State, call: Call)
    requires s.master.Done?
    ensures MasterStep(s, call) == s
  {}

  lemma DoneStep(s: State, e: Event)
    requires s.master.Done?
    ensures var t := Next(s, e); t.master.Done? && t.masterLog == s.masterLog && |t.workers| == |s.workers|
    ensures forall i :: 0 <= i < |s.workers| && e.hart != i + 1 ==> Next(s, e).workers[i] == s.workers[i]
  {
    if 0 < e.hart <= |s.workers| {
      var i: nat := e.hart - 1;
      assert Next(s, e) == WorkerStep(s, i);
      WorkerFrame(s, i);
    } else {
      MasterIsDone(s, e.call);
      assert Next(s, e) == s;
    }
  }

  lemma LeavingStep(s: State, e: Event, i: nat)
    requires Inv(s) && s.master.Done? && i < |s.workers| == |Next(s, e).workers|
    requires e.hart != i + 1 ==> Next(s, e).workers[i] == s.workers[i]
    ensures Leaves(s, e, i)
  {
    LeavingWorker(s, i);
  }

  /** After eu_exit nobody runs a task any more, and each worker is gone after four more steps of its own. */
  lemma ExitStops(workers: nat, schedule: seq<Event>, e: Event)
    requires Exec(Init(workers), schedule).master.Done?
    ensures var s := Exec(Init(workers), schedule);
            var t := Next(s, e);
            && t.master.Done? && t.masterLog == s.masterLog && |t.workers| == |s.workers|
            && forall i :: 0 <= i < |s.workers| ==> Leaves(s, e, i)
  {
    ExecInv(workers, schedule);
    var s := Exec(Init(workers), schedule);
    DoneStep(s, e);
    forall i | 0 <= i < |s.workers|
      ensures Leaves(s, e, i)
    {
      LeavingStep(s, e, i);
    }
  }

  /** After eu_exit, too, every hart has run exactly the jobs that its calls asked for, and no others. */
  lemma FinalLogs(workers: nat, schedule: seq<Event>)
    requires Exec(Init(workers), schedule).master.Done?
    ensures var s := Exec(Init(workers), schedule);
            && LedgerOf(s.calls) == Ledger(Current(s), s.jobs)
            && s.masterLog == Expected(s.jobs, 0)
            && (forall i :: 0 <= i < |s.workers| ==> s.workers[i].log == Expected(s.jobs, i + 1))
  {
    ExecInv(workers, schedule);
    var s := Exec(Init(workers), schedule);
    forall i | 0 <= i < |s.workers| ensures s.workers[i].log == Expected(s.jobs, i + 1) { assert WorkerOk(s, i); }
  }

  // ----- Progress -----

  function WorkerRank(x: Worker): nat {
    match x.pc
    case Entering => 13
    case Asleep => if x.irq then 12 else 0
    case ClearIrq => 11
    case SubWfi => 10
    case CheckExit => 9
    case CheckTeam => 8
    case CopyTeam => 7
    case LoadFn => 6
    case LoadData(_) => 5
    case LoadArgc(_, _) => 4
    case InTask(_) => 3
    case AddFini => 2
    case AddWfi => 1
    case Gone => 0
  }

  function TotalRank(ws: seq<Worker>): nat {
    if ws == [] then 0 else TotalRank(ws[..|ws| - 1]) + WorkerRank(ws[|ws| - 1])
  }

  lemma {:induction false} TotalRankUpdate(ws: seq<Worker>, i: nat, x: Worker)
    requires i < |ws|
    ensures TotalRank(ws[i := x]) == TotalRank(ws) - WorkerRank(ws[i]) + WorkerRank(x)
  {
    var k := |ws| - 1;
    if i < k {
      assert ws[i := x][..k] == ws[..k][i := x];
      TotalRankUpdate(ws[..k], i, x);
    } else {
      assert ws[i := x][..k] == ws[..k];
    }
  }

  lemma {:induction false} TotalRankBound(ws: seq<Worker>)
    ensures TotalRank(ws) <= 13 * |ws|
  {
    if ws != [] {
      TotalRankBound(ws[..|ws| - 1]);
    }
  }

  /** The steps of the master up to the end of its call, not counting waiting. */
  function MasterRank(m: MasterPc): nat {
    match m
    case Boot => 1
    case Free => 0
    case PushCount(_) => 6
    case PushWait(_, _) => 5
    case StoreFn(_) => 4
    case StoreData(_) => 3
    case StoreArgc(_) => 2
    case StoreTeam(_) => 1
    case RunLoad => 13
    case RunReset(_) => 12
    case WakeCount(_) => 11
    case WakeWait(_, _) => 10
    case Wake(_) => 9
    case MasterTeam(_) => 8
    case MasterFn(_) => 7
    case MasterData(_, _) => 6
    case MasterArgc(_, _, _) => 5
    case MasterTask(_, _) => 4
    case JoinCount(_) => 3
    case JoinWait(_, _) => 2
    case Close(_) => 1
    case ExitCheck => 8
    case ExitRun => 7
    case ExitCount => 6
    case ExitWait(_) => 5
    case ExitFlag => 4
    case ExitWakeCount => 3
    case ExitWakeWait(_) => 2
    case ExitWake => 1
    case Done => 0
  }

  function Energy(s: State): nat {
    MasterRank(s.master) * (14 * |s.workers| + 1) + TotalRank(s.workers)
  }

  /**
    Every step inside a call that is not a failing spin or a sleep lowers the energy, so only finitely many
    steps can pass before the call returns.
    */
  lemma EnergyDrops(workers: nat, schedule: seq<Event>, e: Event)
    requires var s := Exec(Init(workers), schedule);
             Next(s, e) != s && !(e.hart == 0 && s.master.Free?)
    ensures var s := Exec(Init(workers), schedule);
            Energy(Next(s, e)) < Energy(s)
  {
    ExecInv(workers, schedule);
    EnergyStep(Exec(Init(workers), schedule), e);
  }

  lemma EnergyStep(s: State, e: Event)
    requires Inv(s) && Next(s, e) != s && !(e.hart == 0 && s.master.Free?)
    ensures Energy(Next(s, e)) < Energy(s)
  {
    if e.hart == 0 {
      MasterStepEnergy(s, e.call);
    } else {
      WorkerEnergy(s, e.hart - 1);
    }
  }

  lemma WorkerRankDrops(s: State, i: nat)
    requires i < |s.workers| && (s.workers[i].pc.AddWfi? ==> !s.workers[i].irq)
    ensures WorkerStep(s, i) == s || WorkerRank(WorkerStep(s, i).workers[i]) < WorkerRank(s.workers[i])
  {}

  lemma WorkerEnergy(s: State, i: nat)
    requires Inv(s) && i < |s.workers| && WorkerStep(s, i) != s
    ensures Energy(WorkerStep(s, i)) < Energy(s)
  {
    var t := WorkerStep(s, i);
    WorkerFrame(s, i);
    assert WorkerOk(s, i);
    WorkerRankDrops(s, i);
    TotalRankUpdate(s.workers, i, t.workers[i]);
    SameMasterEnergy(s, t);
  }

  lemma SameMasterEnergy(s: State, t: State)
    requires t.master == s.master && |t.workers| == |s.workers| && TotalRank(t.workers) < TotalRank(s.workers)
    ensures Energy(t) < Energy(s)
  {}

  predicate Drops(s: State, t: State) {
    t == s || (MasterRank(t.master) < MasterRank(s.master) && |t.workers| == |s.workers|)
  }

  lemma PushDrops(s: State)
    ensures Drops(s, MasterPush(s))
  {}

  lemma ForkDrops(s: State)
    ensures Drops(s, MasterFork(s))
  {}

  lemma RunDrops(s: State)
    ensures Drops(s, MasterRun(s))
  {}

  lemma ExitDrops(s: State)
    ensures Drops(s, MasterExit(s))
  {}

  lemma MasterRankDrops(s: State, call: Call)
    requires MasterStep(s, call) != s && !s.master.Free?
    ensures MasterRank(MasterStep(s, call).master) < MasterRank(s.master)
    ensures |MasterStep(s, call).workers| == |s.workers|
  {
    PushDrops(s);
    ForkDrops(s);
    RunDrops(s);
    ExitDrops(s);
  }

  lemma HigherDigit(a: nat, b: nat, unit: nat, x: nat)
    requires a < b && x < unit
    ensures a * unit + x < b * unit
  {
    assert (a + 1) * unit <= b * unit;
  }

  lemma MasterEnergy(s: State, t: State)
    requires MasterRank(t.master) < MasterRank(s.master) && |t.workers| == |s.workers|
    ensures Energy(t) < Energy(s)
  {
    TotalRankBound(t.workers);
    HigherDigit(MasterRank(t.master), MasterRank(s.master), 14 * |s.workers| + 1, TotalRank(t.workers));
  }

  lemma MasterStepEnergy(s: State, call: Call)
    requires MasterStep(s, call) != s && !s.master.Free?
    ensures Energy(MasterStep(s, call)) < Energy(s)
  {
    MasterRankDrops(s, call);
    MasterEnergy(s, MasterStep(s, call));
  }

  /** Once all workers sleep, and after a fork all have finished, no wait of the master fails. */
  lemma MasterMoves(s: State)
    requires MasterOk(s) && s.workersWfi == |s.workers| && (Forked(s.master) ==> s.finiCount == |s.workers|)
    requires !s.master.Free? && !s.master.Done?
    ensures MasterStep(s, RunEmpty).master != s.master
  {}

  /** If the master waits in vain, some worker is on its way. */
  lemma SomebodyIsAwake(s: State)
    requires Inv(s) && !s.master.Free? && !s.master.Done? && MasterStep(s, RunEmpty) == s
    ensures exists i :: 0 <= i < |s.workers| && Awake(s.workers[i])
  {
    if forall i :: 0 <= i < |s.workers| ==> !Awake(s.workers[i]) {
      CountBounds(s.workers, InWfi);
      CountBounds(s.workers, Finished);
      MasterMoves(s);
      assert false;
    }
  }

  predicate Awake(x: Worker) {
    !(x.pc.Asleep? && !x.irq)
  }

  lemma WorkerMoves(s: State, i: nat)
    requires i < |s.workers| && Awake(s.workers[i]) && !s.workers[i].pc.Gone?
    ensures WorkerStep(s, i).workers[i].pc != s.workers[i].pc
  {}

  /** As long as the master is inside a call, or booting, some hart can take a step that changes the state. */
  lemma NeverStuck(workers: nat, schedule: seq<Event>)
    requires var m := Exec(Init(workers), schedule).master;
             !m.Free? && !m.Done?
    ensures exists e :: Next(Exec(Init(workers), schedule), e) != Exec(Init(workers), schedule)
  {
    ExecInv(workers, schedule);
    var s := Exec(Init(workers), schedule);
    if MasterStep(s, RunEmpty) != s {
      assert Next(s, Event(0, RunEmpty)) != s;
    } else {
      SomebodyIsAwake(s);
      var i :| 0 <= i < |s.workers| && Awake(s.workers[i]);
      assert WorkerOk(s, i);
      WorkerMoves(s, i);
      assert Next(s, Event(i + 1, RunEmpty)) == WorkerStep(s, i);
    }
  }

  // ----- The event unit in memory -----

  /** `eu_t` with the program counters and interrupts of the harts. */
  class EventUnit {
    var workers_in_loop: int
    var exit_flag: bool
    var workers_wfi: int
    var fn: int
    var data: int
    var argc: int
    var nthreads: nat
    var fini_count: int
    var master: MasterPc
    var workers: seq<Worker>
    ghost var masterLog: seq<Task>
    ghost var jobs: seq<Job>
    ghost var calls: seq<Call>

    ghost function View(): State
      reads this
    {
      State(workers_in_loop, exit_flag, workers_wfi, fn, data, argc, nthreads, fini_count,
            master, workers, masterLog, jobs, calls)
    }

    constructor (workers: nat)
      ensures View() == Init(workers)
    {
      workers_in_loop, exit_flag, workers_wfi := 0, false, 0;
      fn, data, argc, nthreads, fini_count := 0, 0, 0, 0, 0;
      master := Boot;
      this.workers := seq(workers, _ => Worker(Entering, false, []));
      masterLog, jobs, calls := [], [], [];
    }

    /** The next step of a worker in eu_event_loop and worker_wfi. */
    method StepWorker(i: nat)
      requires i < |workers|
      modifies this
      ensures View() == WorkerStep(old(View()), i)
    {
      var x := workers[i];
      match x.pc {
        case Entering =>
          workers_in_loop := workers_in_loop + 1;
          workers := workers[i := x.(pc := CheckExit)];
        case CheckExit => workers := workers[i := x.(pc := if exit_flag then Gone else CheckTeam)];
        case CheckTeam => workers := workers[i := x.(pc := if i + 1 < nthreads then CopyTeam else AddFini)];
        case CopyTeam => workers := workers[i := x.(pc := LoadFn)];
        case LoadFn => workers := workers[i := x.(pc := LoadData(fn))];
        case LoadData(f) => workers := workers[i := x.(pc := LoadArgc(f, data))];
        case LoadArgc(f, d) => workers := workers[i := x.(pc := InTask(Task(f, d, argc)))];
        case InTask(task) => workers := workers[i := x.(pc := AddFini, log := x.log + [task])];
        case AddFini =>
          fini_count := fini_count + 1;
          workers := workers[i := x.(pc := AddWfi)];
        case AddWfi =>
          workers_wfi := workers_wfi + 1;
          workers := workers[i := x.(pc := Asleep)];
        case Asleep =>
          if x.irq {
            workers := workers[i := x.(pc := ClearIrq)];
          }
        case ClearIrq => workers := workers[i := x.(pc := SubWfi, irq := false)];
        case SubWfi =>
          workers_wfi := workers_wfi - 1;
          workers := workers[i := x.(pc := CheckExit)];
        case Gone =>
      }
    }

    /** The next step of eu_dispatch_push. */
    method StepPush()
      requires InPush(master)
      modifies this
      ensures View() == MasterPush(old(View()))
    {
      match master {
        case PushCount(job) => master := PushWait(job, workers_in_loop);
        case PushWait(job, scratch) =>
          if workers_wfi == scratch {
            master := StoreFn(job);
          }
        case StoreFn(job) => fn, master := job.task.fn, StoreData(job);
        case StoreData(job) => data, master := job.task.data, StoreArgc(job);
        case StoreArgc(job) => argc, master := job.task.argc, StoreTeam(job);
        case StoreTeam(job) => nthreads, master := job.nthreads, Free;
      }
    }

    /** Sets the interrupts of all workers. */
    method WakeWorkers()
      modifies this`workers
      ensures workers == SetIrqs(old(workers))
    {
      var before := workers;
      for i := 0 to |workers|
        invariant |workers| == |before|
        invariant forall j :: 0 <= j < i ==> workers[j] == before[j].(irq := true)
        invariant forall j :: i <= j < |workers| ==> workers[j] == before[j]
      {
        workers := workers[i := workers[i].(irq := true)];
      }
    }

    /** The next step of eu_run_empty up to the wakeup. */
    method StepFork()
      requires InFork(master)
      modifies this
      ensures View() == MasterFork(old(View()))
    {
      match master {
        case RunLoad => master := if nthreads == 0 then Free else RunReset(nthreads);
        case RunReset(n) =>
          fini_count := 0;
          master := if n > 1 then WakeCount(n) else MasterTeam(n);
        case WakeCount(n) => master := WakeWait(n, workers_in_loop);
        case WakeWait(n, scratch) =>
          if workers_wfi == scratch {
            master := Wake(n);
          }
        case Wake(n) =>
          WakeWorkers();
          master := MasterTeam(n);
      }
    }

    /** The next step of the master's own share of the job. */
    method StepShare()
      requires InRun(master) && !MasterRan(master)
      modifies this`master, this`masterLog
      ensures View() == MasterRun(old(View()))
    {
      match master {
        case MasterTeam(n) => master := if 0 < nthreads then MasterFn(n) else AfterTask(n);
        case MasterFn(n) => master := MasterData(n, fn);
        case MasterData(n, f) => master := MasterArgc(n, f, data);
        case MasterArgc(n, f, d) => master := MasterTask(n, Task(f, d, argc));
        case MasterTask(n, task) =>
          masterLog := masterLog + [task];
          master := AfterTask(n);
      }
    }

    /** The next step of eu_run_empty from the master's own share on. */
    method StepRun()
      requires InRun(master)
      modifies this
      ensures View() == MasterRun(old(View()))
    {
      if !MasterRan(master) {
        StepShare();
        return;
      }
      match master {
        case JoinCount(n) => master := JoinWait(n, workers_in_loop);
        case JoinWait(n, scratch) =>
          if fini_count == scratch {
            master := Close(n);
          }
        case Close(n) =>
          jobs := jobs + [Current(View())];
          nthreads, master := 0, Free;
      }
    }

    /** The next step of eu_exit. */
    method StepExit()
      requires InExit(master)
      modifies this
      ensures View() == MasterExit(old(View()))
    {
      match master {
        case ExitCheck => master := if nthreads == 0 then ExitRun else ExitCount;
        case ExitRun =>
          if nthreads == 0 {
            master := ExitCount;
          }
        case ExitCount => master := ExitWait(workers_in_loop);
        case ExitWait(scratch) =>
          if workers_wfi == scratch {
            master := ExitFlag;
          }
        case ExitFlag => exit_flag, master := true, ExitWakeCount;
        case ExitWakeCount => master := ExitWakeWait(workers_in_loop);
        case ExitWakeWait(scratch) =>
          if workers_wfi == scratch {
            master := ExitWake;
          }
        case ExitWake =>
          WakeWorkers();
          master := Done;
      }
    }

    /** The next step of the master; `call` is the call it begins if it is between calls. */
    method StepMaster(call: Call)
      modifies this
      ensures View() == MasterStep(old(View()), call)
    {
      if master.Boot? {
        if workers_wfi == |workers| {
          master := Free;
        }
      } else if master.Free? {
        calls := calls + [call];
        match call {
          case Push(task, n) => master := PushCount(Job(task, n));
          case RunEmpty => master := RunLoad;
          case Exit => master := ExitCheck;
        }
      } else if InPush(master) {
        StepPush();
      } else if InFork(master) {
        StepFork();
      } else if InRun(master) {
        StepRun();
      } else if !master.Done? {
        StepExit();
      }
    }

    /** Executes the next step of a hart. */
    method Step(e: Event)
      modifies this
      ensures View() == Next(old(View()), e)
    {
      ghost var s := View();
      if e.hart == 0 {
        StepMaster(e.call);
        assert View() == MasterStep(s, e.call);
      } else if e.hart <= |workers| {
        var i := e.hart - 1;
        StepWorker(i);
        assert View() == WorkerStep(s, i);
      }
    }

    /** Executes a whole schedule; whenever it ends between two calls, everybody has run what was asked for. */
    method Run(schedule: seq<Event>)
      requires View() == Init(|workers|)
      modifies this
      ensures View() == Exec(old(View()), schedule)
      ensures master.Free? ==>
        forall i :: 0 <= i < |workers| ==> workers[i].log == Expected(LedgerOf(calls).done, i + 1)
      ensures master.Free? ==> masterLog == Expected(LedgerOf(calls).done, 0)
    {
      ghost var n := |workers|;
      for k := 0 to |schedule|
        invariant View() == Exec(old(View()), schedule[..k])
      {
        assert schedule[..k + 1][..k] == schedule[..k];
        Step(schedule[k]);
      }
      assert schedule[..|schedule|] == schedule;
      if master.Free? {
        ForkJoin(n, schedule);
      }
    }
  }
}
