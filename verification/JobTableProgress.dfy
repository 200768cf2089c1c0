/**
  Progress in software/tests/cache-rlc-mimic/main.c: the producer ends, and from then on every step of the consumer
  brings it closer to the end of the final verification.
  */
module JobTableProgress {
  import opened Arithmetic
  import opened JobTable

  /** `total_jobs` is a 32-bit number, like `scan`. */
  predicate Countable(p: Params) {
    Valid(p) && p.jobs <= TWO_32
  }

  // ----- The producer -----

  /** The producer's steps for one job. */
  function ProducerWork(p: Params): nat {
    2 * p.words + 4
  }

  /** The producer's remaining steps. */
  function ProducerRank(p: Params, x: Producer): int {
    match x
    case WriteSrc(j, w) => (p.jobs - 1 - j) * ProducerWork(p) + 2 * (p.words - w) + 4
    case WriteDst(j, w) => (p.jobs - 1 - j) * ProducerWork(p) + 2 * (p.words - w) + 3
    case SetSrc(j) => (p.jobs - 1 - j) * ProducerWork(p) + 4
    case SetDst(j) => (p.jobs - 1 - j) * ProducerWork(p) + 3
    case SetWords(j) => (p.jobs - 1 - j) * ProducerWork(p) + 2
    case Publish(j) => (p.jobs - 1 - j) * ProducerWork(p) + 1
    case Stopped => 0
  }

  /** Going on to the next job. */
  lemma NextJob(left: int, work: int)
    ensures left * work == (left - 1) * work + work
  {
    Distribute(left - 1, 1, work);
  }

  lemma ProducerRankBound(p: Params, x: Producer)
    requires Valid(p) && ProducerOk(p, x)
    ensures ProducerRank(p, x) >= 0 && (x.Stopped? <==> ProducerRank(p, x) == 0)
  {
    if !x.Stopped? {
      ProductNat(p.jobs - 1 - x.job, ProducerWork(p));
    }
  }

  lemma ProducerDrops(p: Params, s: State)
    requires Valid(p) && |s.table| == p.jobs && ProducerOk(p, s.prod) && !s.prod.Stopped?
    ensures ProducerRank(p, NextProducer(p, s).prod) == ProducerRank(p, s.prod) - 1
  {
    NextJob(p.jobs - 1 - s.prod.job, ProducerWork(p));
  }

  // ----- Scanning for a job -----

  /** How many steps of the scan lead from `scan` to a valid job, or to where `scan` wraps. */
  function Ahead(p: Params, table: seq<Job>, scan: nat): nat
    requires Valid(p) && |table| == p.jobs && scan <= TWO_32
    decreases TWO_32 - scan
  {
    if scan == TWO_32 || table[scan % p.jobs].valid then 0 else 1 + Ahead(p, table, scan + 1)
  }

  lemma {:induction false} AheadWithin(p: Params, table: seq<Job>, scan: nat)
    requires Valid(p) && |table| == p.jobs && scan <= TWO_32
    ensures scan + Ahead(p, table, scan) <= TWO_32
    decreases TWO_32 - scan
  {
    if scan < TWO_32 && !table[scan % p.jobs].valid {
      AheadWithin(p, table, scan + 1);
    }
  }

  /** From 0, a valid job is found before `scan` wraps. */
  lemma {:induction false} AheadFinds(p: Params, table: seq<Job>, scan: nat, j: nat)
    requires Countable(p) && |table| == p.jobs && scan <= j < p.jobs && table[j].valid
    ensures Ahead(p, table, scan) <= j - scan
    decreases j - scan
  {
    assert scan % p.jobs == scan by {
      DivUnique(scan, p.jobs, 0);
      DivBounds(scan, p.jobs);
    }
    if scan < j {
      AheadFinds(p, table, scan + 1, j);
    }
  }

  /** How many steps of the scan lead to a valid job, if there is one. */
  function Wait(p: Params, table: seq<Job>, scan: nat): nat
    requires Valid(p) && |table| == p.jobs && scan <= TWO_32
  {
    var ahead := Ahead(p, table, scan);
    if scan + ahead < TWO_32 then ahead else ahead + Ahead(p, table, 0)
  }

  lemma WaitBound(p: Params, table: seq<Job>, scan: nat)
    requires Valid(p) && |table| == p.jobs && scan <= TWO_32
    ensures Wait(p, table, scan) <= 2 * TWO_32
  {
    AheadWithin(p, table, scan);
    AheadWithin(p, table, 0);
  }

  lemma WaitDrops(p: Params, table: seq<Job>, scan: nat, j: nat)
    requires Countable(p) && |table| == p.jobs && scan < TWO_32 && j < p.jobs && table[j].valid
    requires !table[scan % p.jobs].valid
    ensures Wait(p, table, (scan + 1) % TWO_32) == Wait(p, table, scan) - 1
  {
    AheadWithin(p, table, scan);
    AheadFinds(p, table, 0, j);
    Fits32(scan + 1);
  }

  lemma Fits32(x: nat)
    ensures x < TWO_32 ==> x % TWO_32 == x
    ensures x == TWO_32 ==> x % TWO_32 == 0
  {}

  /** A sequence that has all numbers below `n` has at least `n` elements. */
  lemma {:induction false} AllBelow(s: seq<nat>, n: nat)
    requires forall j :: 0 <= j < n ==> j in s
    ensures |s| >= n
  {
    if n > 0 {
      assert n - 1 in s;
      var i :| 0 <= i < |s| && s[i] == n - 1;
      var rest := s[..i] + s[i + 1..];
      forall j | 0 <= j < n - 1
        ensures j in rest
      {
        assert j in s;
        var k :| 0 <= k < |s| && s[k] == j;
        assert rest[if k < i then k else k - 1] == j;
      }
      AllBelow(rest, n - 1);
    }
  }

  /** While the consumer scans after the producer's end, some job is valid. */
  lemma SomeJobIsValid(p: Params, s: State) returns (j: nat)
    requires Valid(p) && TableOk(p, s) && s.prod.Stopped? && |s.log| < p.jobs
    ensures j < p.jobs && s.table[j].valid
  {
    if forall k :: 0 <= k < p.jobs ==> k in s.log {
      AllBelow(s.log, p.jobs);
    }
    j :| 0 <= j < p.jobs && j !in s.log;
  }

  // ----- The consumer -----

  /** The steps of the final verification of one job. */
  function VerifyWork(p: Params): nat {
    2 * p.words + 2
  }

  /** The steps from the end of the copy to the clearing of the flag. */
  function SpotWork(p: Params): nat {
    2 * p.words + 2
  }

  /** The steps from the scan's success to the clearing of the flag. */
  function TakeWork(p: Params): nat {
    SpotWork(p) + 3 * p.words + 4
  }

  /** At most this many steps go by from one clearing of a flag to the next, or to the end of the verification. */
  function JobWork(p: Params): nat {
    ProductNat(p.jobs, VerifyWork(p));
    TakeWork(p) + 2 * TWO_32 + p.jobs * VerifyWork(p) + 1
  }

  /** The steps until the current job's flag is cleared, or until the end of the verification. */
  function ConsumerRank(p: Params, s: State): int
    requires Valid(p) && |s.table| == p.jobs && s.scan < TWO_32
  {
    match s.cons
    case Scan => TakeWork(p) + Wait(p, s.table, s.scan)
    case LoadSrc(_) => TakeWork(p) - 1
    case LoadDst(_, _) => TakeWork(p) - 2
    case LoadWords(_, _, _) => TakeWork(p) - 3
    case Strip(_, _, _, n, copied) => SpotWork(p) + 3 * (n - copied)
    case VLoad(_, _, _, n, copied, _, v0) => SpotWork(p) + 3 * (n - copied) - 1 - |v0|
    case VStore(_, _, _, n, copied, v0, i) => SpotWork(p) + 3 * (n - copied) - 1 - |v0| - i
    case SpotGot(_, _, _, n, k) => 2 * (n - k) + 1
    case SpotExp(_, _, _, n, k, _) => 2 * (n - k)
    case Clear(_) => 0
    case VerifySrc(j) => (p.jobs - 1 - j) * VerifyWork(p) + VerifyWork(p)
    case VerifyDst(j, _) => (p.jobs - 1 - j) * VerifyWork(p) + VerifyWork(p) - 1
    case VerifyGot(j, _, _, w) => (p.jobs - 1 - j) * VerifyWork(p) + 2 * (p.words - w)
    case VerifyExp(j, _, _, w, _) => (p.jobs - 1 - j) * VerifyWork(p) + 2 * (p.words - w) - 1
    case Finished => 0
  }

  function Measure(p: Params, s: State): int
    requires Valid(p) && |s.table| == p.jobs && s.scan < TWO_32
  {
    (p.jobs - |s.log|) * JobWork(p) + ConsumerRank(p, s)
  }

  lemma VerifyLeft(p: Params, j: nat)
    requires Valid(p) && j < p.jobs
    ensures 0 <= (p.jobs - 1 - j) * VerifyWork(p) && (p.jobs - 1) * VerifyWork(p) + VerifyWork(p) < JobWork(p)
  {
    ProductNat(p.jobs - 1 - j, VerifyWork(p));
    NextJob(p.jobs, VerifyWork(p));
  }

  lemma MeasureBound(p: Params, s: State)
    requires Valid(p) && ConsumerOk(p, s) && |s.table| == p.jobs && s.scan < TWO_32
    ensures Measure(p, s) >= 0
  {
    ProductNat(p.jobs - |s.log|, JobWork(p));
    if Verifying(s.cons) && !s.cons.Finished? {
      VerifyLeft(p, s.cons.job);
    }
  }

  /** Up to the clearing of the flag. */
  predicate InJob(c: Consumer) {
    c.LoadSrc? || c.LoadDst? || c.LoadWords? || c.Strip? || c.VLoad? || c.VStore? || c.SpotGot? || c.SpotExp?
  }

  lemma CopyDrops(p: Params, s: State, vl: nat)
    requires Valid(p) && LocalsOk(p, s.cons) && |s.table| == p.jobs && s.scan < TWO_32
    requires s.cons.Strip? || s.cons.VLoad? || s.cons.VStore?
    ensures ConsumerRank(p, NextConsumer(p, s, vl)) < ConsumerRank(p, s)
  {}

  lemma SpotDrops(p: Params, s: State, vl: nat)
    requires Valid(p) && LocalsOk(p, s.cons) && |s.table| == p.jobs && s.scan < TWO_32
    requires s.cons.SpotGot? || s.cons.SpotExp?
    ensures ConsumerRank(p, NextConsumer(p, s, vl)) < ConsumerRank(p, s)
  {}

  lemma JobDrops(p: Params, s: State, vl: nat)
    requires Valid(p) && TableOk(p, s) && ConsumerOk(p, s) && s.prod.Stopped? && s.scan < TWO_32 && InJob(s.cons)
    ensures ConsumerRank(p, NextConsumer(p, s, vl)) < ConsumerRank(p, s)
    ensures NextConsumer(p, s, vl).log == s.log
  {
    if s.cons.Strip? || s.cons.VLoad? || s.cons.VStore? {
      CopyDrops(p, s, vl);
    } else if s.cons.SpotGot? || s.cons.SpotExp? {
      SpotDrops(p, s, vl);
    }
  }

  lemma VerifyDrops(p: Params, s: State, vl: nat)
    requires Valid(p) && TableOk(p, s) && ConsumerOk(p, s) && s.scan < TWO_32
    requires Verifying(s.cons) && !s.cons.Finished?
    ensures ConsumerRank(p, NextConsumer(p, s, vl)) < ConsumerRank(p, s)
    ensures NextConsumer(p, s, vl).log == s.log
  {
    NextJob(p.jobs - 1 - s.cons.job, VerifyWork(p));
  }

  lemma ScanDrops(p: Params, s: State, vl: nat)
    requires Countable(p) && TableOk(p, s) && s.prod.Stopped? && s.scan < TWO_32 && s.cons.Scan? && |s.log| < p.jobs
    ensures ConsumerRank(p, NextConsumer(p, s, vl)) < ConsumerRank(p, s)
    ensures NextConsumer(p, s, vl).log == s.log
  {
    var j := SomeJobIsValid(p, s);
    RemainderNat(s.scan, p.jobs);
    if !s.table[s.scan % p.jobs].valid {
      WaitDrops(p, s.table, s.scan, j);
    }
  }

  /** What follows the clearing of a flag takes less than the work of a job. */
  lemma RankAfterClear(p: Params, s: State)
    requires Valid(p) && |s.table| == p.jobs && s.scan < TWO_32 && (s.cons.Scan? || s.cons == VerifySrc(0))
    ensures ConsumerRank(p, s) < JobWork(p)
  {
    VerifyLeft(p, 0);
    WaitBound(p, s.table, s.scan);
  }

  lemma ClearDrops(p: Params, s: State, vl: nat)
    requires Valid(p) && TableOk(p, s) && ConsumerOk(p, s) && s.prod.Stopped? && s.scan < TWO_32 && s.cons.Clear?
    ensures var t := NextConsumer(p, s, vl); |t.table| == p.jobs && t.scan < TWO_32 && Measure(p, t) < Measure(p, s)
  {
    var t := NextConsumer(p, s, vl);
    assert |t.log| == |s.log| + 1;
    NextJob(p.jobs - |s.log|, JobWork(p));
    RankAfterClear(p, t);
  }

  /** After the producer's end every step of the consumer lowers the measure. */
  lemma ConsumerDrops(p: Params, s: State, vl: nat)
    requires Countable(p) && Inv(p, s) && s.prod.Stopped? && s.scan < TWO_32 && !s.cons.Finished?
    ensures var t := NextConsumer(p, s, vl); |t.table| == p.jobs && t.scan < TWO_32 && Measure(p, t) < Measure(p, s)
  {
    if s.cons.Clear? {
      ClearDrops(p, s, vl);
    } else {
      if s.cons.Scan? {
        ScanDrops(p, s, vl);
      } else if InJob(s.cons) {
        JobDrops(p, s, vl);
      } else {
        VerifyDrops(p, s, vl);
      }
    }
  }

  // ----- Main results -----

  lemma ScanStep(p: Params, s: State, e: Event)
    requires Valid(p) && s.scan < TWO_32
    ensures Next(p, s, e).scan < TWO_32
  {}

  lemma {:induction false} ScanFits(p: Params, schedule: seq<Event>)
    requires Valid(p)
    ensures Exec(p, Init(p), schedule).scan < TWO_32
  {
    if schedule != [] {
      var k := |schedule| - 1;
      ScanFits(p, schedule[..k]);
      ScanStep(p, Exec(p, Init(p), schedule[..k]), schedule[k]);
    }
  }

  /** The consumer's next step ends a turn of its loop: it has looked at a job without data, or consumed one. */
  predicate EndsTurn(p: Params, s: State)
    requires Valid(p)
  {
    s.cons.Clear? || (s.cons.Scan? && s.scan % p.jobs < |s.table| && !s.table[s.scan % p.jobs].valid)
  }

  lemma TurnStep(p: Params, s: State, e: Event, ends: bool)
    requires Valid(p) && (s.cons.Clear? ==> s.cons.job < |s.table|) && ends == (e.Consume? && EndsTurn(p, s))
    ensures Next(p, s, e).scan == if ends then (s.scan + 1) % TWO_32 else s.scan
  {}

  /** The state and the number of completed turns after a schedule. */
  function Counted(p: Params, schedule: seq<Event>): (r: (State, nat))
    requires Valid(p)
    ensures r.0 == Exec(p, Init(p), schedule)
  {
    if schedule == [] then (Init(p), 0)
    else
      var (s, turns) := Counted(p, schedule[..|schedule| - 1]);
      var e := schedule[|schedule| - 1];
      (Next(p, s, e), turns + if e.Consume? && EndsTurn(p, s) then 1 else 0)
  }

  lemma CountedStep(p: Params, s: State, e: Event, turns: nat, ends: bool)
    requires Valid(p) && Inv(p, s) && s.scan == turns % TWO_32 && ends == (e.Consume? && EndsTurn(p, s))
    ensures Next(p, s, e).scan == (turns + if ends then 1 else 0) % TWO_32
  {
    TurnStep(p, s, e, ends);
    TurnCounted(turns, ends, s.scan, Next(p, s, e).scan);
  }

  lemma TurnCounted(n: nat, ends: bool, before: int, after: int)
    requires before == n % TWO_32 && after == if ends then (before + 1) % TWO_32 else before
    ensures after == (n + if ends then 1 else 0) % TWO_32
  {}

  /** The consumer looks at the jobs in turn: `scan` counts the completed turns of its loop, modulo 2^32. */
  lemma {:induction false} ScanCountsTurns(p: Params, schedule: seq<Event>)
    requires Valid(p)
    ensures Exec(p, Init(p), schedule).scan == Counted(p, schedule).1 % TWO_32
  {
    if schedule != [] {
      var before, e := schedule[..|schedule| - 1], schedule[|schedule| - 1];
      var (s, turns) := Counted(p, before);
      ScanCountsTurns(p, before);
      ExecInv(p, before);
      CountedStep(p, s, e, turns, e.Consume? && EndsTurn(p, s));
    }
  }

  function Consumes(grants: seq<nat>): (events: seq<Event>)
    ensures |events| == |grants| && forall i :: 0 <= i < |grants| ==> events[i] == Consume(grants[i])
  {
    seq(|grants|, i requires 0 <= i < |grants| => Consume(grants[i]))
  }

  lemma LastConsumes(schedule: seq<Event>, grants: seq<nat>)
    ensures grants == [] ==> schedule + Consumes(grants) == schedule
    ensures grants != [] ==> var k := |grants| - 1;
              schedule + Consumes(grants) == schedule + Consumes(grants[..k]) + [Consume(grants[k])]
  {
    if grants != [] {
      var k := |grants| - 1;
      assert Consumes(grants) == Consumes(grants[..k]) + [Consume(grants[k])];
    }
  }

  /** The state after the schedule, and the consumer's remaining steps in it. */
  function StepsLeft(p: Params, schedule: seq<Event>): int
    requires Valid(p)
  {
    ScanFits(p, schedule);
    ExecInv(p, schedule);
    Measure(p, Exec(p, Init(p), schedule))
  }

  lemma ConsumeOnce(p: Params, schedule: seq<Event>, grant: nat)
    requires Countable(p) && Exec(p, Init(p), schedule).prod.Stopped?
    ensures var s, t := Exec(p, Init(p), schedule), Exec(p, Init(p), schedule + [Consume(grant)]);
            && t.prod.Stopped? && (s.cons.Finished? ==> t.cons.Finished?)
            && (!s.cons.Finished? ==> StepsLeft(p, schedule + [Consume(grant)]) < StepsLeft(p, schedule))
  {
    var s := Exec(p, Init(p), schedule);
    assert (schedule + [Consume(grant)])[..|schedule|] == schedule;
    assert Exec(p, Init(p), schedule + [Consume(grant)]) == NextConsumer(p, s, grant);
    ScanFits(p, schedule);
    ExecInv(p, schedule);
    if !s.cons.Finished? {
      ConsumerDrops(p, s, grant);
    }
  }

  /** The consumer has made `n` steps since `schedule`, or has finished. */
  predicate HasRun(p: Params, schedule: seq<Event>, more: seq<Event>, n: nat)
    requires Valid(p)
  {
    && Exec(p, Init(p), more).prod.Stopped?
    && (Exec(p, Init(p), more).cons.Finished? || StepsLeft(p, more) + n <= StepsLeft(p, schedule))
  }

  lemma RunOnce(p: Params, schedule: seq<Event>, more: seq<Event>, n: nat, grant: nat)
    requires Countable(p) && HasRun(p, schedule, more, n)
    ensures HasRun(p, schedule, more + [Consume(grant)], n + 1)
  {
    ConsumeOnce(p, more, grant);
  }

  lemma {:induction false} ConsumerRuns(p: Params, schedule: seq<Event>, grants: seq<nat>)
    requires Countable(p) && Exec(p, Init(p), schedule).prod.Stopped?
    ensures HasRun(p, schedule, schedule + Consumes(grants), |grants|)
  {
    LastConsumes(schedule, grants);
    if grants != [] {
      var k := |grants| - 1;
      ConsumerRuns(p, schedule, grants[..k]);
      RunOnce(p, schedule, schedule + Consumes(grants[..k]), k, grants[k]);
    }
  }

  /**
    From every reachable state in which the producer has ended, a bounded number of the consumer's own steps, with
    whatever vector lengths, take it through all jobs and the final verification, which finds no error.
    */
  lemma ConsumerFinishes(p: Params, schedule: seq<Event>, grants: seq<nat>)
    requires Countable(p) && Exec(p, Init(p), schedule).prod.Stopped?
    requires |grants| > StepsLeft(p, schedule)
    ensures var t := Exec(p, Init(p), schedule + Consumes(grants));
            t.cons.Finished? && |t.log| == p.jobs && t.verifyErrs == 0
  {
    ConsumerRuns(p, schedule, grants);
    ExecInv(p, schedule + Consumes(grants));
    ScanFits(p, schedule + Consumes(grants));
    MeasureBound(p, Exec(p, Init(p), schedule + Consumes(grants)));
  }

  /** The producer's own steps take it to its end, whatever the consumer is doing. */
  lemma ProducerStops(p: Params, schedule: seq<Event>) returns (more: seq<Event>)
    requires Valid(p)
    ensures schedule <= more && Exec(p, Init(p), more).prod.Stopped?
    ensures forall i :: |schedule| <= i < |more| ==> more[i] == Produce
    ensures |more| - |schedule| == ProducerRank(p, Exec(p, Init(p), schedule).prod)
    decreases ProducerRank(p, Exec(p, Init(p), schedule).prod)
  {
    var s := Exec(p, Init(p), schedule);
    ExecInv(p, schedule);
    ProducerRankBound(p, s.prod);
    more := schedule;
    if !s.prod.Stopped? {
      ProducerDrops(p, s);
      assert (schedule + [Produce])[..|schedule|] == schedule;
      more := ProducerStops(p, schedule + [Produce]);
    }
  }

  /** Every reachable state can be continued to the end of the final verification. */
  lemma EveryRunCanFinish(p: Params, schedule: seq<Event>) returns (more: seq<Event>)
    requires Countable(p)
    ensures schedule <= more && Exec(p, Init(p), more).cons.Finished?
  {
    more := ProducerStops(p, schedule);
    ExecInv(p, more);
    ScanFits(p, more);
    MeasureBound(p, Exec(p, Init(p), more));
    var grants: seq<nat> := seq(StepsLeft(p, more) + 1, _ => 1);
    ConsumerFinishes(p, more, grants);
    more := more + Consumes(grants);
  }
}
