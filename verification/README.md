# A verified model of the many-core cluster runtime

This project models the parts of the bare-metal cluster software in which many harts work together, and
proves with Dafny that they do what the software relies on:

- the epoch barrier (`Barrier.dfy`),
- the MCS queue lock with its recycled nodes (`McsLock.dfy`, `McsSlots.dfy`, `McsCalls.dfy`),
- the fork/join event unit below OpenMP parallel regions (`EventUnit.dfy`, `EventUnitCalls.dfy`,
  `EventUnitReturns.dfy`),
- the data mover's queue and its request/response handshake (`DataMover.dfy`, `DataMoverProgress.dfy`,
  `DataMoverCalls.dfy`),
- the static, chunked and dynamic loop schedules of the OpenMP runtime (`StaticSchedule.dfy`,
  `StaticSchedule64.dfy`, `StaticDownwards64.dfy`, `StaticFlags64.dfy`, `ChunkedSchedule.dfy`,
  `ChunkedSchedule64.dfy`, `LoopInit.dfy`, `DynamicSchedule.dfy`, over `ShiftedSchedule.dfy`, `Loops.dfy` and
  `Arithmetic.dfy`),
- the parallel FFT, from the generated tables to the output buffer (`Complex.dfy`, `Dft.dfy`, `Powers.dfy`,
  `PhaseOne.dfy`, `PhaseTwo.dfy`, `VectorUnit.dfy`, `PhaseOneKernel.dfy`, `PhaseTwoKernel.dfy`,
  `PhaseTwoCore.dfy`, `PhaseTwoStrips.dfy`, `FftMain.dfy`, `StoreIndex.dfy`, `TableGenerator.dfy`),
- a producer and a consumer that share a job table (`JobTable.dfy`, `JobTableSpots.dfy`, `JobTableProgress.dfy`,
  `JobTableVerify.dfy`).

`dafny verify dfyconfig.toml` checks everything.

## How the protocols are modelled

Each protocol is a deterministic function `Next` that executes one memory access of one hart.  `Exec` runs a
schedule, an arbitrary finite list of the harts that step (with the calls that they begin and the choices that
the hardware makes), so a lemma over all schedules is a statement about all reachable states under all
interleavings, for any number of harts.  Memory is sequentially consistent.  Some state is history (who has
been granted what, in which order); no step reads it.  An invariant `Inv` is proved for every schedule
(`ExecInv`), and the main results follow from it.  For the lock, the event unit and the data mover, what a call has
done when it returns is proved over every run from the beginning of the call to its return.

Beside each step function stands a class with the fields of the C structure.  Its methods change those fields
in place, access by access, and are proved to do what `Next` says; `Run` executes a whole schedule.

The loop schedules are methods with the C code's arithmetic, proved against functions on unbounded integers
about which the OpenMP rules are proved (OpenMP 4.5, section 2.7.1).

The FFT kernels are methods on arrays of reals, with a method or function for each vector instruction; a
vector length may be anything from 1 to the requested one, which includes whatever section 6.3 of the RISC-V
V extension 1.0 allows.  A complex number is a pair of reals and the root of unity is a parameter `w` of which
only w^(N/2) == -1 is used, so the results hold in exact arithmetic without any axiom.  Such a root lies on the
unit circle; for four points it is (0, -1), and the output of the whole program is given there in real and imaginary
parts (`TableGenerator.RunFourPoints`); for more points each root follows from the one before by the half-angle step,
wherever the real square root that this takes exists (`ComplexNumbers.HalfAngle`).  The
cores' calls follow each other in any order, or their strips interleave in any way.  In a parallel stage the
outcome is proved to be the same stage, because `PhaseOne.StagePartition` makes the cores' shares disjoint and
complete.  In the second phase, which has no barrier between its stages, cores may be in different stages at the
same time; each delivers the transform of its part, because nobody else changes its part of the two buffers or its
places in the output (`PhaseTwoStrips.OtherCoreKept`).

## What the proofs say about the code

Where the code keeps a property only under a condition, the condition is proved to be exact or the failing case
is given:

- The plain static schedule adds its leftover without scaling it by the increment.  In signed arithmetic, with
  either sign of the increment, it hands out every iteration exactly once if and only if the increment is 1,
  there is no leftover, or there are fewer iterations than threads (`StaticSchedule.StaticExactlyOnce`, with a
  failing family in `StaticCounterexample`).
- In unsigned 64-bit arithmetic fewer iterations than threads are not enough: the upper bound of a thread without
  a share wraps, and its range can then run values up to the loop's bound.  `StaticSchedule64.Static64ExactlyOnce`
  has the exact condition for positive increments and `Static64Counterexample` a loop of two iterations on four
  threads.  The loop over all 2^64 values, whose size wraps to 0, is run whole by every thread.
- With a positive increment the signed static schedule flags exactly the thread that runs the upper bound: one
  thread if the schedule is exact and the upper bound is an iteration, and nobody otherwise
  (`StaticSchedule.StaticOneLast`).  In unsigned 64-bit arithmetic the range of a thread without a share can wrap
  around to end at the upper bound and be flagged, too; `StaticFlags64.Static64OneFlag` has the exact condition for
  one flag.  With unit increment it is that each thread has an iteration or the loop ends below the largest value
  (`StaticSchedule64.Static64OneLast`; `Static64FlagCounterexample` has one iteration and two flagged threads).  For
  negative increments see `StaticFlags64.Downwards64OneFlag`.
- With a negative increment the unsigned code counts the iterations right if and only if the bounds are equal or
  one increment apart (`StaticDownwards64.NegativeSize64`), and hands them out exactly once if and only if they are at
  most one increment apart and neither the second value nor the ranges of further threads wrap
  (`Downwards64ExactlyOnce`).
- The signed chunked schedule always visits every iteration exactly once.  In unsigned 64-bit arithmetic a first
  range may already have wrapped when it is returned, and so may the caller's steps; every iteration is then visited
  exactly once, for either sign of the increment, if and only if the chunk n chunks behind the final one, at which
  the final chunk's owner stops, begins within 64 bits (`ChunkedSchedule64.Chunked64ExactlyOnce`).  The last ten
  values in chunks of eight on four threads fail: two are missed and stray ones are run
  (`Chunked64StrayCounterexample`).
- The last flags of the chunked schedule are right if and only if the lower bound is a multiple of increment times
  chunk size and the upper bound does not lie off that grid on the far side of zero, one thread excepted
  (`ChunkedSchedule.ChunkedLastFlags`, failing input in `ChunkedCounterexample`).  In the unsigned 64-bit version the
  distance wraps before the remainder is taken, which can flag a thread that owns nothing; the exact conditions are
  `ChunkedSchedule.Chunked64LastFlags` and, for negative increments, `ChunkedSchedule64.Downwards64LastFlags`.
- A dynamic loop of n ranges is handed out exactly once if and only if no team member's `dispatch_init` comes after
  more than n calls of `dispatch_next`; in general it is handed out once per setup
  (`DynamicSchedule.ExactlyOnceIff`, `DynamicSchedule.HandedOutEqually`).  Successive loops whose inits all precede
  the end of their loop, as behind a barrier, are each handed out exactly once (`DynamicSchedule.SuccessiveLoops`).
- A hart that acquires a lock while all slots of its row are in use waits forever, since only itself could free
  one.  It does so if and only if it already holds MCS_TLS_SLOTS - h locks, h being its own number
  (`McsSlots.WaitsForeverIff`), and every hart can get into that state (`McsSlots.RowCanBeFilled`).  As the scan
  starts at h (software/tests/benchmark/mcs_lock.c:54), that is fewer than the MCS_TLS_SLOTS locks that
  software/tests/include/mcs_lock.h:42 calls the maximum per hart.
- `eu_exit` runs the queue only if it is empty, although the comment there says otherwise, and a second push
  overwrites the first.  All pushed tasks have been run if and only if each push (for at least one hart) is
  followed by `eu_run_empty` before the next push or exit (`EventUnitCalls.EveryPushedTaskIsRun` for every
  reachable state, `AllTasksRunIff` for every sequence of calls, `ExitDropsThePushedTask` for a failing run).
- The FFT's store indices are byte offsets in 16-bit entries.  Each stage's stores reach its whole output
  buffer if and only if a core has at most 2^14 points (`StoreIndex.SixteenBitsSuffice`).
- A push to the data mover's full queue waits forever if and only if the data mover sleeps, or is about to, with no
  interrupt pending, that is, if nobody has called `dm_start` in time (`DataMoverCalls.PushReturnsIff`).
- The job table's spot checks can report an error although every packet is copied right, because the last job's
  data go to job 0's region.  They can do so if and only if some word whose number is a multiple of 17 has another
  value in the last job than in job 0, or is not left as it is by the disturbance with which the producer fills the
  destination (`JobTableSpots.SpotErrorsIff`).  The program's disturbance, the exclusive or with 0x5a5a5a5a
  (software/tests/cache-rlc-mimic/main.c:103), changes every word, so the program has such a run
  (`JobTableSpots.ProgramTells`).  The final verification never reports an error, and every run can be continued to
  its end (`JobTableProgress.EveryRunCanFinish`).

## Model

| member | source | states |
|---|---|---|
| Barrier.ExecInv | software/snRuntime/src/barrier.c:62-76 | every interleaving of any number of harts keeps the invariant that ties counter, iteration and harts together, including the window between reset and bump and the 32-bit wrap |
| Barrier.NobodyLeavesEarly | software/snRuntime/src/barrier.c:62-76 | no hart leaves its k-th call before all harts have entered theirs |
| Barrier.AtMostOneRoundApart | software/snRuntime/src/barrier.c:62-76 | any two harts are at most one round apart |
| Barrier.CounterBookkeeping | software/snRuntime/src/barrier.c:65-74 | outside the reset window `barrier` counts the arrived harts; inside it is 0 and all others wait on an unchanged iteration |
| Barrier.SomeHartCanStep | software/snRuntime/src/barrier.c:62-76 | in every reachable state some hart makes progress |
| Barrier.RoundsComplete | software/snRuntime/src/barrier.c:62-76 | every step that is not a failing spin ends the round or uses up part of a bounded amount of work |
| Barrier.SnrtBarrier.Step | software/snRuntime/src/barrier.c:13-31 | one access of one hart to the shared structure, in place |
| Barrier.SnrtBarrier.Run | software/snRuntime/src/barrier.c:37-54 | after any schedule nobody has left early |
| McsLock.FirstFreeSpec | software/tests/benchmark/mcs_lock.c:51-62 | the scan finds the first free slot of the hart's row, or none exactly if all are in use |
| McsLock.FindSpec | software/tests/benchmark/mcs_lock.c:78-85 | the search finds the first slot bound to the lock, or none exactly if there is none |
| McsLock.ExecInv | software/tests/benchmark/mcs_lock.c:96-181 | every interleaving of calls by any harts on any locks keeps the invariant |
| McsLock.MutualExclusion | software/tests/benchmark/mcs_lock.c:96-181 | at most one hart is between getting a lock and giving it up |
| McsLock.OneQueue | software/tests/benchmark/mcs_lock.c:120-134 | holder and waiters form one duplicate-free queue that ends in `tail`, also while links are still unwritten |
| McsLock.RecyclingIsSafe | software/tests/benchmark/mcs_lock.c:87-90 | no tail, no pending write through `pred`, no pending handoff and no link refers to a node that is out of use |
| McsLock.FindReturnsTheHoldingSlot | software/tests/benchmark/mcs_lock.c:145-149 | release finds exactly the slot at the head of the lock's queue, and none exactly if the hart does not hold the lock |
| McsLock.FirstComeFirstServed | software/tests/benchmark/mcs_lock.c:124-133 | harts get the lock in the order of their exchange or CAS on `tail` |
| McsLock.HandoffIsDue | software/tests/benchmark/mcs_lock.c:149-172 | a releaser that waits for its successor waits for one specific hart whose remaining link steps only shrink |
| McsLock.NeverStuck | software/tests/benchmark/mcs_lock.c:96-181 | a lock that is queued for has a head that can step or rests outside the lock code, or a follower that can step |
| McsLock.FullRowWaitsForever | software/tests/benchmark/mcs_lock.c:63-75 | a hart that looks for a slot in a full row never gets one, whatever the others do |
| McsSlots.SlotPerLock | software/tests/benchmark/mcs_lock.c:51-90 | a hart between calls uses exactly one slot for each lock that it holds |
| McsSlots.RowFullIff | software/tests/benchmark/mcs_lock.c:54-62 | a hart between calls finds its row full if and only if it holds as many locks as there are slots from its own number on, and it never holds more |
| McsSlots.WaitsForeverIff | software/tests/benchmark/mcs_lock.c:51-75 | an acquire or try_acquire waits for a slot forever if and only if the hart holds that many locks at the call |
| McsSlots.AcquireAlone | software/tests/benchmark/mcs_lock.c:96-134 | a hart whose row is not full takes a free lock by its own steps |
| McsSlots.RowCanBeFilled | software/tests/benchmark/mcs_lock.c:54-62 | for every hart and any number of slots some run fills the row |
| McsCalls.AcquireReturns | software/tests/benchmark/mcs_lock.c:120-134 | a hart that has begun an acquire returns only with the lock, newly granted to it; until then it holds what it held before |
| McsCalls.TryReturns | software/tests/benchmark/mcs_lock.c:96-118 | a try comes to exactly one CAS; if that finds a tail the lock is left alone and the hart returns without it, otherwise it returns at once with the lock newly granted |
| McsCalls.TryNeverWaits | software/tests/benchmark/mcs_lock.c:96-118 | a try that has a slot returns within six of its own steps, whatever the others do |
| McsCalls.ReleaseBegins | software/tests/benchmark/mcs_lock.c:145-147 | a release of a lock that the hart does not hold does nothing, and otherwise the hart is inside the call |
| McsCalls.ReleaseReturns | software/tests/benchmark/mcs_lock.c:145-173 | a release returns without the lock and with its slot free, and one of its steps has left the lock without tail or woken the follower, whose next step gets it |
| McsCalls.ReleaseCanReturn | software/tests/benchmark/mcs_lock.c:145-173 | from every reachable state inside a release at most eight further steps let it return |
| McsLock.McsLocks.BindScan | software/tests/benchmark/mcs_lock.c:54-62 | the scanning loop returns what the specification of the first free slot says |
| McsLock.McsLocks.BindFind | software/tests/benchmark/mcs_lock.c:78-85 | the searching loop returns what the specification of the search says |
| McsLock.McsLocks.Prepare | software/tests/benchmark/mcs_lock.c:51-101 | the accesses of a call before the one to `tail`, in place |
| McsLock.McsLocks.Enter | software/tests/benchmark/mcs_lock.c:103-134 | the exchange or CAS and the rest of acquire and try_acquire, in place |
| McsLock.McsLocks.Leave | software/tests/benchmark/mcs_lock.c:145-172 | the accesses of release, in place |
| McsLock.McsLocks.Step | software/tests/benchmark/mcs_lock.c:96-181 | one access of one hart |
| McsLock.McsLocks.Run | software/tests/benchmark/mcs_lock.c:96-181 | after any schedule no two harts are inside the same lock |
| EventUnit.ExecInv | software/snRuntime/src/omp/eu.c:124-227 | every interleaving of master and workers keeps the invariant |
| EventUnit.ForkJoin | software/snRuntime/src/omp/eu.c:124-227 | whenever the master is between calls, each hart has run exactly the tasks of the jobs whose team it belongs to, in order and with the pushed arguments, and no worker is inside a task |
| EventUnit.RecordIsStable | software/snRuntime/src/omp/eu.c:177-186 | the event record is only written by the master, and only while all workers rest |
| EventUnit.FiniCountIsStable | software/snRuntime/src/omp/eu.c:204-205 | the finish counter is reset only while all workers sleep with no interrupt pending |
| EventUnit.NoWakeupIsLost | software/snRuntime/src/omp/eu.c:298-311 | when interrupts are set all workers sleep with clear interrupts, and a worker only clears a set one |
| EventUnit.ExitStops | software/snRuntime/src/omp/eu.c:87-94 | after `eu_exit` nobody runs a task and each worker leaves the loop after a bounded number of its own steps |
| EventUnit.FinalLogs | software/snRuntime/src/omp/eu.c:87-94 | after `eu_exit` each hart has run exactly the tasks of the completed jobs whose team it belongs to, and no others |
| EventUnitCalls.DoneIffRun | software/snRuntime/src/omp/eu.c:87-89 | the completed jobs are all the pushed ones if and only if each push is followed by `eu_run_empty` before the next push or exit; otherwise there are fewer |
| EventUnitCalls.EveryPushedTaskIsRun | software/snRuntime/src/omp/eu.c:87-227 | between calls and after `eu_exit` the master has run all pushed tasks, and with it the workers those of their teams, if and only if each push was followed by `eu_run_empty` |
| EventUnitCalls.CallReturns | software/snRuntime/src/omp/eu.c:194-227 | from every reachable state some continuation lets the current call return |
| EventUnitCalls.CallsCanBeMade | software/snRuntime/src/omp/eu.c:177-227 | every sequence of calls with an exit at most at its end can be carried out |
| EventUnitCalls.AllTasksRunIff | software/snRuntime/src/omp/eu.c:87-227 | the runs of a sequence of calls all run every pushed task if and only if each push is followed by `eu_run_empty` |
| EventUnitCalls.ExitDropsThePushedTask | software/snRuntime/src/omp/eu.c:87-89 | a reachable state after a push and an exit in which nobody has run anything |
| EventUnitReturns.CallEffect | software/snRuntime/src/omp/eu.c:87-227 | from the beginning of a call to its return: a push records its own arguments, `eu_run_empty` has the recorded task run once by each hart of its team and by nobody else, `eu_exit` runs nothing |
| EventUnit.EnergyDrops | software/snRuntime/src/omp/eu.c:194-227 | every effective step inside a call lowers a measure, so each call ends after finitely many |
| EventUnit.NeverStuck | software/snRuntime/src/omp/eu.c:243-247 | while the master is booting or inside a call some hart can take an effective step |
| EventUnit.EventUnit.StepWorker | software/snRuntime/src/omp/eu.c:124-166 | one access of a worker, in place |
| EventUnit.EventUnit.StepPush | software/snRuntime/src/omp/eu.c:177-192 | one access of `eu_dispatch_push`, in place |
| EventUnit.EventUnit.WakeWorkers | software/snRuntime/src/omp/eu.c:298-305 | the loop that sets the interrupts of all workers |
| EventUnit.EventUnit.StepFork | software/snRuntime/src/omp/eu.c:198-205 | one access of `eu_run_empty` up to the wakeup, in place |
| EventUnit.EventUnit.StepRun | software/snRuntime/src/omp/eu.c:207-227 | one access of `eu_run_empty` from the master's own share on, in place |
| EventUnit.EventUnit.StepExit | software/snRuntime/src/omp/eu.c:87-94 | one access of `eu_exit`, in place |
| EventUnit.EventUnit.StepMaster | software/snRuntime/src/omp/omp.c:110-131 | one step of the master from bootstrap on |
| EventUnit.EventUnit.Run | software/snRuntime/src/omp/omp.c:110-131 | a whole schedule after bootstrap |
| DataMover.ExecInv | software/snRuntime/src/dm.c:151-306 | every interleaving of client, data mover and DMA engine keeps the invariant |
| DataMover.TransfersInOrder | software/snRuntime/src/dm.c:160-179 | the fill stays within the queue and the started transfers are a prefix of the pushed ones, with their arguments |
| DataMover.NoSlotIsTorn | software/snRuntime/src/dm.c:225-243 | a slot is never written while the data mover reads it or is due to |
| DataMover.WaitMeansDone | software/snRuntime/src/dm.c:281-306 | when `dm_wait` returns all pushed transfers are started and finished and the answer belongs to its request |
| DataMover.AsleepMeansStarted | software/snRuntime/src/dm.c:338-349 | a data mover asleep with no interrupt pending has started everything pushed before the last wakeup |
| DataMover.NeverStuck | software/snRuntime/src/dm.c:279-306 | the client inside `dm_start` or `dm_wait` and the data mover are never both blocked, and where the engine makes the data mover wait it has a transfer to finish |
| DataMoverProgress.MeasureDrops | software/snRuntime/src/dm.c:151-306 | while the client is inside `dm_start` or `dm_wait`, every step that changes anything lowers a measure, unless the data mover polls an engine that still owes the end of a transfer |
| DataMoverProgress.WaitReturns | software/snRuntime/src/dm.c:279-306 | from every reachable state inside `dm_start` or `dm_wait` some continuation without further pushes lets the call return |
| DataMoverCalls.PushReturns | software/snRuntime/src/dm.c:218-277 | when a push returns, the transfer that it was called with has been pushed, and no other |
| DataMoverCalls.PushReturnsIff | software/snRuntime/src/dm.c:225-229 | a push can return if and only if not the queue is full while the data mover sleeps, or is about to, with no interrupt pending; then it waits forever |
| DataMoverCalls.LaunchIsAccepted | software/snRuntime/src/dm.c:160-179 | the data mover starts a transfer only after the engine has said that it would take one |
| DataMoverCalls.StartReturns | software/snRuntime/src/dm.c:279 | when `dm_start` returns, the interrupt has been set after all that was pushed before the call |
| DataMoverCalls.StartIsEnough | software/snRuntime/src/dm.c:279 | after that the data mover and the engine alone start and finish everything that was pushed |
| DataMoverCalls.WaitReturnsDone | software/snRuntime/src/dm.c:281-306 | when a call of `dm_wait` returns, everything pushed before the call is started and finished, and its one request is answered |
| DataMover.DataMover.StepPush | software/snRuntime/src/dm.c:218-277 | one access of a push, in place |
| DataMover.DataMover.StepWait | software/snRuntime/src/dm.c:279-306 | one access of `dm_start` or `dm_wait`, in place |
| DataMover.DataMover.StepIssue | software/snRuntime/src/dm.c:158-179 | one access of the issuing part of `dm_main`, in place |
| DataMover.DataMover.StepStat | software/snRuntime/src/dm.c:181-202 | one access of the status part, in place |
| DataMover.DataMover.StepSleep | software/snRuntime/src/dm.c:204-207 | one access of going to sleep and waking up, in place |
| DataMover.DataMover.Run | software/snRuntime/src/dm.c:151-306 | a whole schedule |
| ShiftedSchedule.ShiftedExactIff | software/snRuntime/src/omp/kmp.c:266-281 | ranges whose later ones are shifted cover the loop exactly if and only if the shift is the leftover times the increment, or there are fewer iterations than threads |
| StaticSchedule.StaticExactlyOnce | software/snRuntime/src/omp/kmp.c:266-281 | in signed arithmetic, for either sign of the increment, every iteration is run by exactly one thread and nothing else is run, if and only if the leftover does no harm |
| StaticSchedule.StaticCounterexample | software/snRuntime/src/omp/kmp.c:275-276 | three iterations of any stride of at least 2 on two threads: a stray value is run and the last iteration is missed |
| StaticSchedule.StaticContiguous | software/snRuntime/src/omp/kmp.c:268-277 | with unit increment the ranges follow each other without gap over the whole loop and differ in size by at most one |
| StaticSchedule.StaticLastFlag | software/snRuntime/src/omp/kmp.c:279-280 | with a positive increment the last flag is raised exactly if the thread runs the upper bound |
| StaticSchedule.StaticOneLast | software/snRuntime/src/omp/kmp.c:279-280 | with a positive increment exactly one thread gets the last flag, also with more threads than iterations, if and only if the schedule is exact and the upper bound is an iteration; otherwise nobody gets it |
| StaticSchedule.DownwardsLastFlag | software/snRuntime/src/omp/kmp.c:279-280 | with a negative increment a thread is flagged exactly if it ends at the bound and its range is that single iteration |
| StaticSchedule64.Static64ExactlyOnce | software/snRuntime/src/omp/kmp.c:352-367 | the exact condition for the unsigned 64-bit version with a positive increment, whose empty ranges and size can wrap, over the bounds that it returns and the caller clips |
| StaticSchedule64.Static64Counterexample | software/snRuntime/src/omp/kmp.c:352-367 | two iterations on four threads: a thread without a share runs a stray value |
| StaticSchedule64.Static64Contiguous | software/snRuntime/src/omp/kmp.c:352-363 | with unit increment the unsigned ranges follow each other without gap, modulo 2^64, over the whole loop and differ in size by at most one |
| StaticSchedule64.Static64OneLast | software/snRuntime/src/omp/kmp.c:365-366 | with unit increment exactly one thread gets the unsigned version's last flag if and only if each thread has an iteration or the loop ends below the largest value |
| StaticSchedule64.Static64FlagCounterexample | software/snRuntime/src/omp/kmp.c:365-366 | one iteration on two threads: both are flagged, and the second one's range is all values |
| StaticDownwards64.NegativeSize64 | software/snRuntime/src/omp/kmp.c:327 | when the unsigned code counts the iterations of a loop with a negative increment right |
| StaticDownwards64.Downwards64ExactlyOnce | software/snRuntime/src/omp/kmp.c:352-367 | the exact condition under which a loop with a negative increment is handed out exactly once in unsigned arithmetic |
| StaticFlags64.Static64LastFlag | software/snRuntime/src/omp/kmp.c:365-366 | with a positive increment a thread with a share is flagged exactly if it runs the upper bound, and one without exactly if its range wraps around to end there |
| StaticFlags64.Static64OneFlag | software/snRuntime/src/omp/kmp.c:365-366 | the exact condition under which one thread is flagged, for all positive increments |
| StaticFlags64.StrayFlagExample | software/snRuntime/src/omp/kmp.c:365-366 | a loop on whose end no iteration lies, where only a thread without a share is flagged |
| StaticFlags64.Downwards64LastFlag | software/snRuntime/src/omp/kmp.c:365-366 | which threads are flagged with a negative increment |
| StaticFlags64.Downwards64OneFlag | software/snRuntime/src/omp/kmp.c:365-366 | the exact condition under which one thread is flagged with a negative increment |
| ChunkedSchedule.ChunkedExactlyOnce | software/snRuntime/src/omp/kmp.c:255-260 | in the signed version stepping by the stride and clipping visits every iteration exactly once over the team, and nothing else |
| ChunkedSchedule64.Chunked64ExactlyOnce | software/snRuntime/src/omp/kmp.c:341-345 | in the unsigned 64-bit version, with ranges and steps that wrap, this holds if and only if the chunk n chunks behind the final one begins within 64 bits |
| ChunkedSchedule64.Chunked64StrayCounterexample | software/snRuntime/src/omp/kmp.c:341-345 | ten iterations on four threads: one thread's wrapped range is empty, so that two iterations are missed, and another one runs stray values |
| ChunkedSchedule.LastChunkIsLast | software/snRuntime/src/omp/kmp.c:261-262 | the chunk that the flag is about holds the last iteration |
| ChunkedSchedule.ChunkedLastFlags | software/snRuntime/src/omp/kmp.c:261-262 | the exact condition, for either sign of the increment, under which all threads' last flags are right |
| ChunkedSchedule.ChunkedCounterexample | software/snRuntime/src/omp/kmp.c:261-262 | two iterations in one chunk on two threads: nobody is flagged |
| ChunkedSchedule.Chunked64LastFlags | software/snRuntime/src/omp/kmp.c:347-348 | the exact condition for the unsigned 64-bit version, whose distance wraps |
| ChunkedSchedule.Chunked64Counterexample | software/snRuntime/src/omp/kmp.c:347-348 | one iteration on three threads: a thread that owns nothing is flagged |
| ChunkedSchedule64.Downwards64LastFlags | software/snRuntime/src/omp/kmp.c:347-348 | the exact condition for the unsigned 64-bit version with a negative increment |
| LoopInit.ChunkedRange4 | software/snRuntime/src/omp/kmp.c:255-263 | whenever no signed operation overflows, the chunked branch computes the first range, the stride and the flag of the schedule for every non-empty loop, and for an empty one the wrapped begin |
| LoopInit.PlainRange4 | software/snRuntime/src/omp/kmp.c:266-281 | the unchunked branch computes the range and the flag of the schedule for every non-empty loop whose begin does not wrap, as it cannot going up; for an empty loop the values that come of its conversions |
| LoopInit.StaticInit4 | software/snRuntime/src/omp/kmp.c:232-291 | all three kinds of schedule; other kinds leave the arguments alone |
| LoopInit.ChunkedRange8u | software/snRuntime/src/omp/kmp.c:341-349 | in unsigned 64-bit arithmetic, for all bounds and either sign of the increment, the chunked branch returns the wrapped first range, the stride and the wrapped flag of the schedule |
| LoopInit.PlainRange8u | software/snRuntime/src/omp/kmp.c:352-367 | the unchunked branch in unsigned 64-bit arithmetic returns the bounds and the flag of the unsigned schedule, for all bounds and either sign of the increment |
| LoopInit.StaticInit8u | software/snRuntime/src/omp/kmp.c:318-379 | all three kinds of schedule in unsigned 64-bit arithmetic |
| DynamicSchedule.HandsOutPasses | software/snRuntime/src/omp/kmp.c:402-496 | any history of calls hands out whole passes over the loop, one per earlier setup, and a beginning of the current one |
| DynamicSchedule.OneSetup | software/snRuntime/src/omp/kmp.c:459-496 | within one setup q calls get the first min(q, count) ranges, in order |
| DynamicSchedule.ChunksPartition | software/snRuntime/src/omp/kmp.c:480-488 | the ranges are disjoint, gapless and in order, no longer than a chunk, and only the final one has the last flag |
| DynamicSchedule.CountIsCeiling | software/snRuntime/src/omp/kmp.c:480-488 | the number of ranges is the number of iterations divided by the chunk size, rounded up |
| DynamicSchedule.HandedOutEqually | software/snRuntime/src/omp/kmp.c:402-496 | every iteration has been handed out once per setup, save that the current pass may not have come to it |
| DynamicSchedule.SetupsCountLateInits | software/snRuntime/src/omp/kmp.c:420-432 | there is a second setup if and only if an init comes after more calls of next than the loop has ranges |
| DynamicSchedule.ExactlyOnceIff | software/snRuntime/src/omp/kmp.c:402-496 | a complete run hands out every iteration exactly once if and only if there is no late init, which is said of the calls alone |
| DynamicSchedule.SuccessiveLoops | software/snRuntime/src/omp/kmp.c:402-496 | of any number of successive loops without late inits, each is handed out exactly once, whatever the loops before it left behind |
| DynamicSchedule.LateInitCounterexample | software/snRuntime/src/omp/kmp.c:473-474 | two threads on one iteration that is run twice |
| DynamicSchedule.Team.DispatchInit | software/snRuntime/src/omp/kmp.c:402-433 | the setup of the team's loop fields |
| DynamicSchedule.Team.DispatchNext | software/snRuntime/src/omp/kmp.c:459-496 | what a call returns through its pointers and how it moves the cursor |
| DynamicSchedule.Team.Run | software/snRuntime/src/omp/kmp.c:402-496 | a whole history of calls without signed overflow |
| ComplexNumbers.ISquared | software/tests/fft-32b/kernel/fft.c:111-122 | the product that the kernels compute has a square root of -1 |
| ComplexNumbers.NormOfProduct | software/tests/fft-32b/kernel/fft.c:111-122 | the squared absolute value of a product is the product of the squared absolute values |
| ComplexNumbers.RootOnCircle | software/tests/fft-32b/script/gen_data.py:67-81 | a number with -1 among its powers lies on the unit circle |
| ComplexNumbers.HalfAngle | software/tests/fft-32b/script/gen_data.py:67-81 | the half-angle step leads from a root to a root of twice as many points |
| Dft.TransformParts | software/tests/fft-32b/kernel/fft.c:111-122 | the real and the imaginary part of the transform as sums over the parts of the input and of the powers of the root |
| Dft.FourPoints | software/tests/fft-32b/kernel/fft.c:111-122 | the transform of four points in real and imaginary parts |
| Dft.Decimation | software/tests/fft-32b/kernel/fft.c:80-83 | butterflies on the halves of an input give the even and the odd frequencies of its transform |
| PhaseOne.StageKeepsTransform | software/tests/fft-32b/kernel/fft.c:42-129 | a parallel stage keeps the transform of the input, interleaved over blocks that it halves |
| PhaseOne.FrequencyIsReversed | software/tests/fft-32b/script/gen_data.py:101-108 | after i stages block g holds every 2^i-th frequency, from the reversed bits of g on |
| PhaseOne.StagePartition | software/tests/fft-32b/kernel/fft.c:42-76 | a position is in the ranges of a core exactly if the core owns it, so the ranges are disjoint and cover all positions |
| PhaseOne.OwnersAreActive | software/tests/fft-32b/main.c:109-111 | the owners of positions are active cores, and the ranges of active cores lie within the buffers |
| PhaseTwo.OriginOfDestination | software/tests/fft-32b/script/gen_data.py:117-124 | a shuffled position can be found again from where it went, within the first quarter of a half |
| PhaseTwo.SlotsAreFilled | software/tests/fft-32b/kernel/fft.c:239-250 | every position of the output buffer gets the result of some wing of some butterfly |
| PhaseTwo.SlotsAreDistinct | software/tests/fft-32b/kernel/fft.c:239-250 | no position gets two results |
| PhaseTwo.TwiddleOfRun | software/tests/fft-32b/script/gen_data.py:74-80 | the table's entries repeat from run to run and are the powers of the stage's root |
| PhaseTwo.ShuffledStageKeepsTransform | software/tests/fft-32b/kernel/fft.c:180-252 | a shuffled stage keeps the transform of the core's part, interleaved in natural order |
| PhaseTwo.LastButterfly | software/tests/fft-32b/kernel/fft.c:195-215 | the last, untwiddled butterflies deliver the transform in natural order |
| VectorUnit.Vsse32 | software/tests/fft-32b/kernel/fft.c:212-215 | a strided store writes each element to its place and nothing else |
| VectorUnit.Vsuxei16 | software/tests/fft-32b/kernel/fft.c:247-250 | an indexed store with distinct indices writes each element to its place and nothing else |
| PhaseOneKernel.PowersHaveShape | software/tests/fft-32b/kernel/fft.c:44-62 | the shifts compute the numbers of groups, of cores per group and of points per block |
| PhaseOneKernel.Butterflies | software/tests/fft-32b/kernel/fft.c:78-128 | the strip-mined loop computes exactly the core's butterflies, for any vector lengths |
| PhaseOneKernel.FftP1 | software/tests/fft-32b/kernel/fft.c:24-129 | the core finds its group, computes its share and touches nothing else |
| PhaseOneKernel.OthersKept | software/tests/fft-32b/kernel/fft.c:55-64 | what one core stores leaves the results of another alone, however far the other has come |
| PhaseOneKernel.CoresMakeStage | software/tests/fft-32b/main.c:109-122 | the shares of all cores make up the stage |
| PhaseTwoKernel.ShuffledButterflies | software/tests/fft-32b/kernel/fft.c:179-252 | the strip-mined loop of a stage other than the last stores each result at its shuffled place and nothing else |
| PhaseTwoKernel.LastButterflies | software/tests/fft-32b/kernel/fft.c:174-220 | the strip-mined loop of the last stage stores each result at its strided place and nothing else |
| PhaseTwoCore.PlacesAreDistinct | software/tests/fft-32b/kernel/fft.c:239-250 | the places of a stage's results are distinct, within and across the wings |
| PhaseTwoCore.ShuffleStep | software/tests/fft-32b/kernel/fft.c:151-252 | a stage other than the last, on the arrays, keeps the transform of the core's part |
| PhaseTwoCore.LastStep | software/tests/fft-32b/kernel/fft.c:206-220 | the last stage leaves the transform of the core's part in the output |
| PhaseTwoCore.RunStage | software/tests/fft-32b/kernel/fft.c:151-253 | one pass of the loop over the stages |
| PhaseTwoCore.FftP2 | software/tests/fft-32b/kernel/fft.c:134-254 | the core leaves the transform of its part, strided from its offset on, and touches nothing of other cores |
| PhaseTwoStrips.StripOfCore | software/tests/fft-32b/kernel/fft.c:151-252 | one strip of a core, in whatever stage it is, advances the transform of its part and touches nothing of other cores |
| PhaseTwoStrips.OtherCoreKept | software/tests/fft-32b/main.c:124-134 | a strip of one core keeps how far any other has come, whatever stages the two are in |
| PhaseTwoStrips.InterleavedCores | software/tests/fft-32b/main.c:124-134 | with the strips of all cores interleaved in any way, over different stages, each core delivers the transform of its part |
| StoreIndex.CopyStage | software/tests/fft-32b/script/gen_data.py:117-123 | the nested loops copy the old order, shuffled, into the new one |
| StoreIndex.GenStoreIdx | software/tests/fft-32b/script/gen_data.py:110-131 | the lists of a stage give for every position the place to which the shuffle sends it |
| StoreIndex.StoreTable | software/tests/fft-32b/script/gen_data.py:215-225 | the table holds the halves of the lists as byte offsets, truncated to 16 bits |
| StoreIndex.SixteenBitsSuffice | software/tests/fft-32b/script/gen_data.py:306-307 | with the truncated offsets a stage's stores reach its whole output buffer if and only if there are at most 2^14 points |
| TableGenerator.CoreOffsetIsReversed | software/tests/fft-32b/script/gen_data.py:101-108 | formatting, reversing and parsing a core number reverses its bits |
| TableGenerator.SetupTwiddlesLutDifVec | software/tests/fft-32b/script/gen_data.py:67-81 | the loops fill the table with the powers that the stages use |
| TableGenerator.FirstPhaseFactors | software/tests/fft-32b/script/gen_data.py:250-260 | the concatenated segments hold for each parallel stage the powers of its root |
| TableGenerator.SecondPhaseFactors | software/tests/fft-32b/script/gen_data.py:209-213 | the factors of a core's own stages, once for each core |
| TableGenerator.GenerateAndRun | software/tests/fft-32b/script/gen_data.py:164-310 | with the tables generated for at most 2^14 points per core, as many as the 16-bit indices reach, the program computes the discrete Fourier transform of its input |
| TableGenerator.RunFourPoints | software/tests/fft-32b/script/gen_data.py:164-310 | the program generated for four points on two cores delivers their transform in real and imaginary parts, with nothing assumed about roots |
| FftMain.ParallelStage | software/tests/fft-32b/main.c:110-122 | all cores' calls of a stage, in any order, make up the stage |
| FftMain.InterleavedStage | software/tests/fft-32b/kernel/fft.c:78-128 | with the strips of all cores interleaved in any way the outcome is the same stage |
| FftMain.FirstPhase | software/tests/fft-32b/main.c:109-122 | the stage loop with its buffer swaps, table pointer and final switch leaves the transform interleaved over the cores' parts |
| FftMain.SecondPhase | software/tests/fft-32b/main.c:124-134 | all cores' calls, in any order or with their strips interleaved in any way, deliver the transforms of all parts |
| FftMain.Fft | software/tests/fft-32b/main.c:78-134 | out[k] and out[k + N] are the real and imaginary parts of the discrete Fourier transform of the input at k |
| JobTable.ExecInv | software/tests/cache-rlc-mimic/main.c:90-150 | every interleaving of producer and consumer keeps the invariant |
| JobTable.ConsumedAtMostOnce | software/tests/cache-rlc-mimic/main.c:120-140 | a job is consumed at most once and only after it was published; its flag says whether it is still due |
| JobTable.ConsumedExactlyOnce | software/tests/cache-rlc-mimic/main.c:120-150 | when the consumer leaves its loop it has consumed every job exactly once |
| JobTable.VerificationPasses | software/tests/cache-rlc-mimic/main.c:152-161 | the final verification finds destination and source equal everywhere, holding the data of the last job of each region, for any interleaving |
| JobTable.SpotErrorsNeedRace | software/tests/cache-rlc-mimic/main.c:129-135 | in a run in which the last job's data are not written before job 0 was consumed, the spot checks report nothing |
| JobTableSpots.SpotErrorsIff | software/tests/cache-rlc-mimic/main.c:94-135 | some run has a spot check that reports an error if and only if a word whose number is a multiple of 17 tells the last job's data from job 0's |
| JobTableSpots.SourceTells | software/tests/cache-rlc-mimic/main.c:94-135 | for any numbers of jobs and words, a run in which the source has changed under the spot check |
| JobTableSpots.DisturbanceTells | software/tests/cache-rlc-mimic/main.c:94-135 | for any numbers of jobs and words, a run in which the destination has been overwritten under the spot check |
| JobTableSpots.ProgramTells | software/tests/cache-rlc-mimic/main.c:99-104 | with the disturbance that the program uses some run has a spot check that reports an error |
| JobTableProgress.ProducerStops | software/tests/cache-rlc-mimic/main.c:90-113 | from every reachable state a known number of the producer's own steps takes it to its end |
| JobTableProgress.ScanCountsTurns | software/tests/cache-rlc-mimic/main.c:120-141 | the consumer looks at the jobs in turn: `scan` counts the completed turns of its loop, modulo 2^32 |
| JobTableProgress.ConsumerFinishes | software/tests/cache-rlc-mimic/main.c:116-162 | from every reachable state in which the producer has ended, a bounded number of the consumer's own steps takes it through all jobs and the final verification, without an error |
| JobTableProgress.EveryRunCanFinish | software/tests/cache-rlc-mimic/main.c:90-162 | every reachable state can be continued to the end of the final verification |
| JobTableVerify.SpotCheckCounts | software/tests/cache-rlc-mimic/main.c:129-135 | whatever the buffers hold, a spot check during which nobody else steps counts exactly the differing words whose numbers are multiples of 17 |
| JobTableVerify.VerificationCounts | software/tests/cache-rlc-mimic/main.c:152-161 | whatever the buffers and the table hold, the final verification counts exactly the differing words, so it reports an error if and only if there is one |
| JobTable.BaseIsStart | software/tests/cache-rlc-mimic/main.c:94-98 | the offsets are those of the jobs' regions, the last job having job 0's, and lie within the buffers |
| JobTable.Buffers.Produce | software/tests/cache-rlc-mimic/main.c:90-113 | one access of the producer, in place |
| JobTable.Buffers.Take | software/tests/cache-rlc-mimic/main.c:120-127 | one access of the scanning loop, in place |
| JobTable.Buffers.Copy | software/tests/cache-rlc-mimic/main.c:50-60 | one element of the copy, in place |
| JobTable.Buffers.CheckAndClear | software/tests/cache-rlc-mimic/main.c:129-140 | one access of the spot check or of the clearing of the flag, in place |
| JobTable.Buffers.Verify | software/tests/cache-rlc-mimic/main.c:152-161 | one access of the final verification |
| JobTable.Buffers.Run | software/tests/cache-rlc-mimic/main.c:90-162 | after any schedule that has reached the verification the buffers agree in every job's region |

## Left out

- Weak-memory reordering: all models are sequentially consistent.
- Floating-point rounding: the FFT is proved in exact arithmetic over the reals; the root of the second phase's table is taken to be the power of the first phase's root that it is mathematically.
- FftMain.Fft: only the first iteration of the measurement loop; the pointer into the first-phase table is not set back between iterations (software/tests/fft-32b/main.c:89 and 116).
- TableGenerator.GenerateAndRun: at most 2^14 points per core, because beyond that the 16-bit store indices do not reach the whole buffer; which wrong output the program then computes is not modelled.
- The FFT for a single core: the generator does not define the core offsets for it.
- FftMain.SecondPhase: the cores interleave strip by strip, as in the parallel stages; the accesses within a strip do not interleave.
- PhaseTwoCore.FftP2: its two buffer pointers have the same offset, as in the call in main.c, and the loop over strips is written once for the stages other than the last and once for the last.
- Every core keeps its own copies of the buffer pointers in main.c; as all active cores change them alike, the model has one copy.
- The performance counters, the comparison with the golden output and the printing of the FFT program.
- The unused bit-reversal list and index list of the generator.
- McsCalls.TryReturns: the value that `mcs_lock_try_acquire` returns is represented by whether the call has newly got the lock.
- DataMover.WaitMeansDone: one client hart only, because the fill of the queue is polled outside the mutex; the mutex itself, `dm_exit` and `dm_wait_ready` are left out.
- EventUnit.ForkJoin: the pushed function is opaque and its execution is one step; the microtask wrapper and the copying of its arguments are left out, as is the variant with the global interrupt controller.
- Event unit and data mover assume that `wfi` returns exactly when the hart's interrupt is pending, as section 3.3.3 of the RISC-V Privileged Architecture allows; spurious wakeups are not modelled.
- LoopInit.StaticInit4: calls in which a signed operation overflows, which C leaves undefined; `__kmpc_for_static_init_4u`, which only converts its arguments, is left out, and so is `__kmpc_dispatch_init_4u`.
- LoopInit.StaticInit8u: calls in which a signed operation overflows, which C leaves undefined.
- StaticSchedule.StaticExactlyOnce: non-empty loops, as OpenMP guards the call; what the ranges returned for an empty loop would run is not said.
- ChunkedSchedule.ChunkedExactlyOnce: the steps from chunk to chunk that the compiler generates are signed and stay within the type in a program without undefined behaviour.
- ChunkedSchedule64.Chunked64ExactlyOnce: the compiler's loop around the call is not in the repository; it is modelled as clipping the upper bound, comparing the bounds and adding the stride to both, with wrap-around.  Within a range the loop variable counts up to the clipped bound without wrapping.
- JobTable.SpotErrorsNeedRace: one direction, for single runs; that some run reports an error is characterised exactly in JobTableSpots.SpotErrorsIff.
- JobTableProgress.ConsumerFinishes: at most 2^32 jobs, as their number is a 32-bit variable.
- DynamicSchedule.ExactlyOnceIff: chunk sizes of at least 1; calls are atomic because both functions hold the event unit's mutex, whose own correctness is not part of this model.
- JobTable.VerificationPasses: at least two jobs and one word per packet (with one job the offsets divide by zero); the mixing function is an arbitrary function of job and word; signatures and progress messages are left out.
- The memory barrier and the hardware barrier around the phases are taken to work.
- Cache partitioning and flushing, interrupt register addresses, the allocator, the loader, the UART, the other kernels (dot product, matrix product) and all scripts but the FFT data generator.
