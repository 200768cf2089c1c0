/**
  The producer and the consumer of software/tests/cache-rlc-mimic/main.c: a table of jobs with valid flags, a
  source and a destination buffer.  The region of the last job wraps onto that of job 0.

  Every memory access is one step, the steps of the two cores interleave in any order, and memory is
  sequentially consistent; a vector load or store takes one step for each element.  The words that the producer
  writes are parameters.  `raced` is history: the last job's data have been written while job 0 was not consumed.
  */
module JobTable {
  import opened Arithmetic

  /**
    The number of jobs, the words of a packet, the words of each job's data, and the disturbance of the destination.
    */
  datatype Params = Params(jobs: nat, words: nat, value: (nat, nat) -> int, disturb: int -> int)

  datatype Job = Job(src_word_ofst: nat, dst_word_ofst: nat, words: nat, valid: bool)

  /** Where the producer is. */
  datatype Producer =
    | WriteSrc(job: nat, w: nat)
    | WriteDst(job: nat, w: nat)
    | SetSrc(job: nat)
    | SetDst(job: nat)
    | SetWords(job: nat)
    | Publish(job: nat)
    | Stopped

  /** Where the consumer is, with its local variables. */
  datatype Consumer =
    | Scan
    | LoadSrc(job: nat)
    | LoadDst(job: nat, sb: nat)
    | LoadWords(job: nat, sb: nat, db: nat)
    | Strip(job: nat, sb: nat, db: nat, n: nat, copied: nat)
    | VLoad(job: nat, sb: nat, db: nat, n: nat, copied: nat, vl: nat, v0: seq<int>)
    | VStore(job: nat, sb: nat, db: nat, n: nat, copied: nat, v0: seq<int>, i: nat)
    | SpotGot(job: nat, sb: nat, db: nat, n: nat, k: nat)
    | SpotExp(job: nat, sb: nat, db: nat, n: nat, k: nat, got: int)
    | Clear(job: nat)
    | VerifySrc(job: nat)
    | VerifyDst(job: nat, sb: nat)
    | VerifyGot(job: nat, sb: nat, db: nat, w: nat)
    | VerifyExp(job: nat, sb: nat, db: nat, w: nat, got: int)
    | Finished

  /** `log` lists the consumed jobs, `verifyErrs` counts the errors of the final verification alone. */
  datatype State = State(src: seq<int>, dst: seq<int>, table: seq<Job>, prod: Producer, cons: Consumer, scan: nat,
                         log: seq<nat>, errs: nat, verifyErrs: nat, raced: bool)

  /** Who steps; the consumer brings the vector length that it is granted. */
  datatype Event = Produce | Consume(vl: nat)

  predicate Valid(p: Params) {
    p.jobs >= 2 && p.words >= 1
  }

  /** The offset of a job's region, as the producer computes it. */
  function Base(p: Params, job: nat): nat
    requires Valid(p)
  {
    ModulusPositive(p.jobs, p.words);
    (job * p.words) % (p.jobs * p.words - p.words)
  }

  lemma ModulusPositive(jobs: nat, words: nat)
    requires jobs >= 2 && words >= 1
    ensures jobs * words - words > 0 && jobs * words - words == (jobs - 1) * words
  {}

  function Init(p: Params): State {
    State(seq(Size(p), _ => 0), seq(Size(p), _ => 0), seq(p.jobs, _ => Job(0, 0, 0, false)), WriteSrc(0, 0), Scan, 0,
          [], 0, 0, false)
  }

  function Size(p: Params): nat {
    ProductNat(p.jobs, p.words);
    p.jobs * p.words
  }

  /** A store to a buffer; one that would miss it is not made. */
  function Put(s: seq<int>, k: int, x: int): (r: seq<int>)
    ensures |r| == |s|
  {
    if 0 <= k < |s| then s[k := x] else s
  }

  function Get(s: seq<int>, k: int): int {
    if 0 <= k < |s| then s[k] else 0
  }

  function NextProducer(p: Params, s: State): State
    requires Valid(p)
  {
    match s.prod
    case WriteSrc(j, w) =>
      s.(src := Put(s.src, Base(p, j) + w, p.value(j, w)), prod := WriteDst(j, w),
         raced := s.raced || (j == p.jobs - 1 && 0 !in s.log))
    case WriteDst(j, w) =>
      s.(dst := Put(s.dst, Base(p, j) + w, p.disturb(p.value(j, w))),
         prod := if w + 1 < p.words then WriteSrc(j, w + 1) else SetSrc(j),
         raced := s.raced || (j == p.jobs - 1 && 0 !in s.log))
    case SetSrc(j) =>
      if j >= |s.table| then s else
      s.(table := s.table[j := s.table[j].(src_word_ofst := Base(p, j))], prod := SetDst(j))
    case SetDst(j) =>
      if j >= |s.table| then s else
      s.(table := s.table[j := s.table[j].(dst_word_ofst := Base(p, j))], prod := SetWords(j))
    case SetWords(j) =>
      if j >= |s.table| then s else
      s.(table := s.table[j := s.table[j].(words := p.words)], prod := Publish(j))
    case Publish(j) =>
      if j >= |s.table| then s else
      s.(table := s.table[j := s.table[j].(valid := true)],
         prod := if j + 1 < p.jobs then WriteSrc(j + 1, 0) else Stopped)
    case Stopped => s
  }

  /** The consumer's loop is left when all jobs have been consumed. */
  function AfterJob(p: Params, log: seq<nat>): Consumer {
    if |log| < p.jobs then Scan else VerifySrc(0)
  }

  function NextConsumer(p: Params, s: State, grant: nat): State
    requires Valid(p)
  {
    match s.cons
    case Scan =>
      var j := s.scan % p.jobs;
      if j >= |s.table| then s else
      if s.table[j].valid then s.(cons := LoadSrc(j)) else s.(scan := (s.scan + 1) % TWO_32)
    case LoadSrc(j) =>
      if j >= |s.table| then s else s.(cons := LoadDst(j, s.table[j].src_word_ofst))
    case LoadDst(j, sb) =>
      if j >= |s.table| then s else s.(cons := LoadWords(j, sb, s.table[j].dst_word_ofst))
    case LoadWords(j, sb, db) =>
      if j >= |s.table| then s else s.(cons := Strip(j, sb, db, s.table[j].words, 0))
    case Strip(j, sb, db, n, copied) =>
      if copied < n then
        s.(cons := VLoad(j, sb, db, n, copied, if 1 <= grant <= n - copied then grant else n - copied, []))
      else
        s.(cons := if n > 0 then SpotGot(j, sb, db, n, 0) else Clear(j))
    case VLoad(j, sb, db, n, copied, vl, v0) =>
      var v := v0 + [Get(s.src, sb + copied + |v0|)];
      s.(cons := if |v| < vl then VLoad(j, sb, db, n, copied, vl, v) else VStore(j, sb, db, n, copied, v, 0))
    case VStore(j, sb, db, n, copied, v0, i) =>
      s.(dst := Put(s.dst, db + copied + i, Get(v0, i)),
         cons := if i + 1 < |v0| then VStore(j, sb, db, n, copied, v0, i + 1) else Strip(j, sb, db, n, copied + |v0|))
    case SpotGot(j, sb, db, n, k) =>
      s.(cons := SpotExp(j, sb, db, n, k, Get(s.dst, db + k)))
    case SpotExp(j, sb, db, n, k, got) =>
      s.(errs := if got != Get(s.src, sb + k) then s.errs + 1 else s.errs,
         cons := if k + 17 < n then SpotGot(j, sb, db, n, k + 17) else Clear(j))
    case Clear(j) =>
      if j >= |s.table| then s else
      s.(table := s.table[j := s.table[j].(valid := false)], log := s.log + [j], scan := (s.scan + 1) % TWO_32,
         cons := AfterJob(p, s.log + [j]))
    case VerifySrc(j) =>
      if j >= |s.table| then s else s.(cons := VerifyDst(j, s.table[j].src_word_ofst))
    case VerifyDst(j, sb) =>
      if j >= |s.table| then s else s.(cons := VerifyGot(j, sb, s.table[j].dst_word_ofst, 0))
    case VerifyGot(j, sb, db, w) =>
      s.(cons := VerifyExp(j, sb, db, w, Get(s.dst, db + w)))
    case VerifyExp(j, sb, db, w, got) =>
      var bad := if got != Get(s.src, sb + w) then 1 else 0;
      s.(errs := s.errs + bad, verifyErrs := s.verifyErrs + bad,
         cons := if w + 1 < p.words then VerifyGot(j, sb, db, w + 1)
                 else if j + 1 < p.jobs then VerifySrc(j + 1) else Finished)
    case Finished => s
  }

  function Next(p: Params, s: State, e: Event): State
    requires Valid(p)
  {
    match e
    case Produce => NextProducer(p, s)
    case Consume(vl) => NextConsumer(p, s, vl)
  }

  /** The state after a schedule. */
  function Exec(p: Params, s: State, schedule: seq<Event>): State
    requires Valid(p)
  {
    if schedule == [] then s
    else Next(p, Exec(p, s, schedule[..|schedule| - 1]), schedule[|schedule| - 1])
  }

  // ----- Regions -----

  /** Jobs share the regions: the last job has that of job 0. */
  function Region(p: Params, job: nat): nat {
    if job == p.jobs - 1 then 0 else job
  }

  /** The last job of a region. */
  function Final(p: Params, r: nat): nat
    requires Valid(p)
  {
    if r == 0 then p.jobs - 1 else r
  }

  function Start(p: Params, r: nat): nat {
    ProductNat(r, p.words);
    r * p.words
  }

  lemma BaseIsStart(p: Params, job: nat)
    requires Valid(p) && job < p.jobs
    ensures Base(p, job) == Start(p, Region(p, job)) && Start(p, Region(p, job)) + p.words <= Size(p)
  {
    var modulus := (p.jobs - 1) * p.words;
    ModulusPositive(p.jobs, p.words);
    if job == p.jobs - 1 {
      MultipleMod(1, modulus);
      ScaleOrder(1, p.jobs, p.words);
    } else {
      ScaleOrder(job + 1, p.jobs - 1, p.words);
      ScaleOrder(0, job, p.words);
      Distribute(job, 1, p.words);
      ScaleOrder(job + 1, p.jobs, p.words);
      DivUnique(job * p.words, modulus, 0);
      DivBounds(job * p.words, modulus);
    }
  }

  /** Different regions do not overlap. */
  lemma RegionsDisjoint(p: Params, q: nat, r: nat)
    requires q != r
    ensures Start(p, q) + p.words <= Start(p, r) || Start(p, r) + p.words <= Start(p, q)
  {
    SlicesDisjoint(q, r, p.words);
  }

  // ----- The invariant -----

  /** How many jobs have been published. */
  function Published(p: Params, x: Producer): nat {
    match x
    case WriteSrc(j, _) => j
    case WriteDst(j, _) => j
    case SetSrc(j) => j
    case SetDst(j) => j
    case SetWords(j) => j
    case Publish(j) => j
    case Stopped => p.jobs
  }

  predicate ProducerOk(p: Params, x: Producer) {
    match x
    case WriteSrc(j, w) => j < p.jobs && w < p.words
    case WriteDst(j, w) => j < p.jobs && w < p.words
    case Stopped => true
    case _ => Published(p, x) < p.jobs
  }

  /** What the producer has entered so far for the job that it has not published yet. */
  predicate EntryOk(p: Params, table: seq<Job>, x: Producer)
    requires Valid(p)
  {
    match x
    case SetDst(j) => j < |table| && table[j].src_word_ofst == Base(p, j)
    case SetWords(j) => j < |table| && table[j].src_word_ofst == Base(p, j) == table[j].dst_word_ofst
    case Publish(j) =>
      && j < |table|
      && table[j].src_word_ofst == Base(p, j) == table[j].dst_word_ofst && table[j].words == p.words
    case _ => true
  }

  predicate PublishedOk(p: Params, x: Job, j: nat)
    requires Valid(p)
  {
    x.src_word_ofst == Base(p, j) == x.dst_word_ofst && x.words == p.words
  }

  ghost predicate TableOk(p: Params, s: State)
    requires Valid(p)
  {
    && |s.table| == p.jobs && EntryOk(p, s.table, s.prod)
    && (forall j :: 0 <= j < p.jobs ==> (s.table[j].valid <==> j < Published(p, s.prod) && j !in s.log))
    && (forall j :: 0 <= j < Published(p, s.prod) && j < p.jobs ==> PublishedOk(p, s.table[j], j))
  }

  ghost predicate LogOk(p: Params, s: State) {
    && (forall i :: 0 <= i < |s.log| ==> s.log[i] < Published(p, s.prod))
    && (forall i, k :: 0 <= i < k < |s.log| ==> s.log[i] != s.log[k])
  }

  /** The job that the consumer is working on, if any. */
  function InHand(c: Consumer): int {
    match c
    case LoadSrc(j) => j
    case LoadDst(j, _) => j
    case LoadWords(j, _, _) => j
    case Strip(j, _, _, _, _) => j
    case VLoad(j, _, _, _, _, _, _) => j
    case VStore(j, _, _, _, _, _, _) => j
    case SpotGot(j, _, _, _, _) => j
    case SpotExp(j, _, _, _, _, _) => j
    case Clear(j) => j
    case _ => -1
  }

  predicate Verifying(c: Consumer) {
    c.VerifySrc? || c.VerifyDst? || c.VerifyGot? || c.VerifyExp? || c.Finished?
  }

  /** The consumer's local variables. */
  predicate LocalsOk(p: Params, c: Consumer)
    requires Valid(p)
  {
    match c
    case LoadDst(j, sb) => sb == Base(p, j)
    case LoadWords(j, sb, db) => sb == db == Base(p, j)
    case Strip(j, sb, db, n, copied) => sb == db == Base(p, j) && n == p.words && copied <= n
    case VLoad(j, sb, db, n, copied, vl, v0) => sb == db == Base(p, j) && n == p.words && |v0| < vl && copied + vl <= n
    case VStore(j, sb, db, n, copied, v0, i) => sb == db == Base(p, j) && n == p.words && i < |v0| && copied + |v0| <= n
    case SpotGot(j, sb, db, n, k) => sb == db == Base(p, j) && n == p.words && k < n
    case SpotExp(j, sb, db, n, k, _) => sb == db == Base(p, j) && n == p.words && k < n
    case VerifySrc(j) => j < p.jobs
    case VerifyDst(j, sb) => j < p.jobs && sb == Base(p, j)
    case VerifyGot(j, sb, db, w) => j < p.jobs && sb == db == Base(p, j) && w < p.words
    case VerifyExp(j, sb, db, w, _) => j < p.jobs && sb == db == Base(p, j) && w < p.words
    case _ => true
  }

  ghost predicate ConsumerOk(p: Params, s: State)
    requires Valid(p)
  {
    && LocalsOk(p, s.cons)
    && (InHand(s.cons) >= 0 ==> InHand(s.cons) < Published(p, s.prod) && InHand(s.cons) !in s.log)
    && (if Verifying(s.cons) then |s.log| == p.jobs else |s.log| < p.jobs)
  }

  /** The data of the job in hand do not change under the consumer. */
  predicate Sound(p: Params, s: State, job: int) {
    job != 0 || !s.raced || p.jobs - 1 in s.log
  }

  /** The first `n` words of a region agree in both buffers. */
  ghost predicate Agree(s: State, start: nat, n: nat) {
    forall k :: start <= k < start + n ==> Get(s.dst, k) == Get(s.src, k)
  }

  /** How many words of the job in hand have been copied. */
  function Copied(c: Consumer): nat {
    match c
    case Strip(_, _, _, _, copied) => copied
    case VLoad(_, _, _, _, copied, _, _) => copied
    case VStore(_, _, _, _, copied, _, i) => copied + i
    case SpotGot(_, _, _, n, _) => n
    case SpotExp(_, _, _, n, _, _) => n
    case _ => 0
  }

  /** The register holds words of the source. */
  ghost predicate RegisterOk(s: State, start: nat) {
    match s.cons
    case VLoad(_, _, _, _, copied, _, v0) => Holds(s, v0, start + copied)
    case VStore(_, _, _, _, copied, v0, _) => Holds(s, v0, start + copied)
    case SpotExp(_, _, _, _, k, got) => got == Get(s.src, start + k)
    case _ => true
  }

  ghost predicate Holds(s: State, v: seq<int>, from: nat) {
    forall k :: from <= k < from + |v| ==> v[k - from] == Get(s.src, k)
  }

  ghost predicate CopyOk(p: Params, s: State) {
    var j := InHand(s.cons);
    j >= 0 && Sound(p, s, j) ==>
      && Agree(s, Start(p, Region(p, j)), if s.cons.Clear? then p.words else Copied(s.cons))
      && RegisterOk(s, Start(p, Region(p, j)))
  }

  /** Once the last job of a region has been consumed, the region agrees. */
  ghost predicate RegionsOk(p: Params, s: State)
    requires Valid(p)
  {
    forall r :: 0 <= r < p.jobs - 1 && Final(p, r) in s.log ==> Agree(s, Start(p, r), p.words)
  }

  ghost predicate ErrorsOk(p: Params, s: State)
    requires Valid(p)
  {
    && (!s.raced ==> s.errs == 0) && s.verifyErrs == 0
    && (s.cons.VerifyExp? ==> s.cons.got == Get(s.src, s.cons.sb + s.cons.w))
  }

  predicate BuffersOk(p: Params, s: State) {
    |s.src| == |s.dst| == Size(p)
  }

  ghost predicate Inv(p: Params, s: State)
    requires Valid(p)
  {
    && BuffersOk(p, s) && ProducerOk(p, s.prod) && TableOk(p, s) && LogOk(p, s) && ConsumerOk(p, s)
    && CopyOk(p, s) && RegionsOk(p, s) && ErrorsOk(p, s)
  }

  lemma InitInv(p: Params)
    requires Valid(p)
    ensures Inv(p, Init(p))
  {}

  // ----- The producer keeps the invariant -----

  /** Outside one region, nothing has changed. */
  ghost predicate SameOutside(p: Params, s: State, t: State, r: nat) {
    && |t.src| == |s.src| && |t.dst| == |s.dst|
    && forall k ::
        !(Start(p, r) <= k < Start(p, r) + p.words) ==> Get(t.src, k) == Get(s.src, k) && Get(t.dst, k) == Get(s.dst, k)
  }

  /** The producer writes to the region of a job that is not published, so the regions of consumed last jobs stay. */
  lemma RegionsAfterWrite(p: Params, s: State, t: State, j: nat)
    requires Valid(p) && RegionsOk(p, s) && LogOk(p, s) && j == Published(p, s.prod) < p.jobs && t.log == s.log
    requires SameOutside(p, s, t, Region(p, j))
    ensures RegionsOk(p, t)
  {
    forall r | 0 <= r < p.jobs - 1 && Final(p, r) in t.log
      ensures Agree(t, Start(p, r), p.words)
    {
      assert Agree(s, Start(p, r), p.words);
      RegionsDisjoint(p, r, Region(p, j));
    }
  }

  /** The job in hand has another region, unless the last job's data are being written while job 0 is in hand. */
  lemma CopyAfterWrite(p: Params, s: State, t: State, j: nat)
    requires Valid(p) && LogOk(p, s) && ConsumerOk(p, s) && CopyOk(p, s) && j == Published(p, s.prod) < p.jobs
    requires t.cons == s.cons && t.log == s.log && (t.raced <==> s.raced || (j == p.jobs - 1 && 0 !in s.log))
    requires SameOutside(p, s, t, Region(p, j))
    ensures CopyOk(p, t)
  {
    var h := InHand(s.cons);
    if h >= 0 && Sound(p, t, h) {
      assert Region(p, h) != Region(p, j);
      RegionsDisjoint(p, Region(p, h), Region(p, j));
      assert Sound(p, s, h);
      RegisterKept(p, s, t, h, Region(p, j));
    }
  }

  lemma RegisterKept(p: Params, s: State, t: State, h: nat, r: nat)
    requires Valid(p) && LocalsOk(p, s.cons) && t.cons == s.cons && InHand(s.cons) == h && Region(p, h) != r
    requires SameOutside(p, s, t, r) && RegisterOk(s, Start(p, Region(p, h)))
    ensures RegisterOk(t, Start(p, Region(p, h)))
  {
    RegionsDisjoint(p, Region(p, h), r);
  }

  /** Distinct numbers below `n` are at most `n`; and if they are `n`, none is missing. */
  lemma {:induction false} Pigeonhole(s: seq<nat>, n: nat)
    requires forall i :: 0 <= i < |s| ==> s[i] < n
    requires forall i, k :: 0 <= i < k < |s| ==> s[i] != s[k]
    ensures |s| <= n
    ensures |s| == n ==> forall x :: 0 <= x < n ==> x in s
  {
    assert |s| > 0 ==> s[0] < n;
    if n > 0 {
      if i :| 0 <= i < |s| && s[i] == n - 1 {
        var rest := s[..i] + s[i + 1..];
        Pigeonhole(rest, n - 1);
        assert forall x :: x in rest ==> x in s;
        assert n - 1 in s;
      } else {
        Pigeonhole(s, n - 1);
      }
    }
  }

  /** When the consumer verifies, the producer has stopped. */
  lemma VerifyingAlone(p: Params, s: State)
    requires Valid(p) && LogOk(p, s) && ConsumerOk(p, s) && ProducerOk(p, s.prod) && Verifying(s.cons)
    ensures s.prod.Stopped? && forall j :: 0 <= j < p.jobs ==> j in s.log
  {
    Pigeonhole(s.log, Published(p, s.prod));
  }

  lemma StepData(p: Params, s: State)
    requires Valid(p) && Inv(p, s) && (s.prod.WriteSrc? || s.prod.WriteDst?)
    ensures Inv(p, NextProducer(p, s))
  {
    var t := NextProducer(p, s);
    var j := s.prod.job;
    BaseIsStart(p, j);
    assert SameOutside(p, s, t, Region(p, j));
    RegionsAfterWrite(p, s, t, j);
    CopyAfterWrite(p, s, t, j);
    if Verifying(s.cons) {
      VerifyingAlone(p, s);
    }
  }

  /** Nothing but the table, the producer and the raced flag differs. */
  lemma DataUnchanged(p: Params, s: State, t: State)
    requires Valid(p) && RegionsOk(p, s) && CopyOk(p, s) && ErrorsOk(p, s)
    requires t.src == s.src && t.dst == s.dst && t.cons == s.cons && t.log == s.log && t.raced == s.raced
    requires t.errs == s.errs && t.verifyErrs == s.verifyErrs
    ensures RegionsOk(p, t) && CopyOk(p, t) && ErrorsOk(p, t)
  {
    forall r | 0 <= r < p.jobs - 1 && Final(p, r) in t.log
      ensures Agree(t, Start(p, r), p.words)
    {
      assert Agree(s, Start(p, r), p.words);
    }
  }

  /** Entering and publishing a job. */
  lemma TableAfterEntry(p: Params, s: State)
    requires Valid(p) && ProducerOk(p, s.prod) && TableOk(p, s) && LogOk(p, s)
    requires !s.prod.WriteSrc? && !s.prod.WriteDst?
    ensures var t := NextProducer(p, s);
            ProducerOk(p, t.prod) && TableOk(p, t) && LogOk(p, t) && Published(p, t.prod) >= Published(p, s.prod)
  {}

  lemma StepEntry(p: Params, s: State)
    requires Valid(p) && Inv(p, s) && !s.prod.WriteSrc? && !s.prod.WriteDst?
    ensures Inv(p, NextProducer(p, s))
  {
    TableAfterEntry(p, s);
    DataUnchanged(p, s, NextProducer(p, s));
  }

  // ----- The consumer keeps the invariant -----

  /** A step of the consumer that only moves between its own locals: the memory and the log stay. */
  lemma LocalStep(p: Params, s: State, t: State)
    requires Valid(p) && Inv(p, s)
    requires t.src == s.src && t.dst == s.dst && t.table == s.table && t.prod == s.prod && t.log == s.log
    requires ConsumerOk(p, t) && CopyOk(p, t) && ErrorsOk(p, t)
    ensures Inv(p, t)
  {
    forall r | 0 <= r < p.jobs - 1 && Final(p, r) in t.log
      ensures Agree(t, Start(p, r), p.words)
    {
      assert Agree(s, Start(p, r), p.words);
    }
  }

  lemma StepTake(p: Params, s: State, vl: nat)
    requires Valid(p) && Inv(p, s) && (s.cons.Scan? || s.cons.LoadSrc? || s.cons.LoadDst? || s.cons.LoadWords?)
    ensures Inv(p, NextConsumer(p, s, vl))
  {
    var t := NextConsumer(p, s, vl);
    if s.cons.Scan? {
      RemainderNat(s.scan, p.jobs);
    }
    LocalStep(p, s, t);
  }

  lemma StepStrip(p: Params, s: State, vl: nat)
    requires Valid(p) && Inv(p, s) && s.cons.Strip?
    ensures Inv(p, NextConsumer(p, s, vl))
  {
    LocalStep(p, s, NextConsumer(p, s, vl));
  }

  lemma StepVLoad(p: Params, s: State, vl: nat)
    requires Valid(p) && Inv(p, s) && s.cons.VLoad?
    ensures Inv(p, NextConsumer(p, s, vl))
  {
    CopyAfterVLoad(p, s, vl);
    LocalStep(p, s, NextConsumer(p, s, vl));
  }

  lemma CopyAfterVLoad(p: Params, s: State, vl: nat)
    requires Valid(p) && ConsumerOk(p, s) && CopyOk(p, s) && s.cons.VLoad? && s.cons.job < p.jobs
    ensures CopyOk(p, NextConsumer(p, s, vl))
  {
    BaseIsStart(p, s.cons.job);
  }

  lemma StepVStore(p: Params, s: State, vl: nat)
    requires Valid(p) && Inv(p, s) && s.cons.VStore?
    ensures Inv(p, NextConsumer(p, s, vl))
  {
    CopyAfterVStore(p, s, vl);
    RegionsAfterVStore(p, s, vl);
  }

  lemma CopyAfterVStore(p: Params, s: State, vl: nat)
    requires Valid(p) && BuffersOk(p, s) && ConsumerOk(p, s) && CopyOk(p, s) && s.cons.VStore? && s.cons.job < p.jobs
    ensures CopyOk(p, NextConsumer(p, s, vl))
  {
    BaseIsStart(p, s.cons.job);
  }

  lemma RegionsAfterVStore(p: Params, s: State, vl: nat)
    requires Valid(p) && BuffersOk(p, s) && ConsumerOk(p, s) && CopyOk(p, s) && s.cons.VStore? && s.cons.job < p.jobs
    requires RegionsOk(p, s)
    ensures RegionsOk(p, NextConsumer(p, s, vl))
  {
    var t := NextConsumer(p, s, vl);
    var j := s.cons.job;
    BaseIsStart(p, j);
    forall r | 0 <= r < p.jobs - 1 && Final(p, r) in t.log
      ensures Agree(t, Start(p, r), p.words)
    {
      assert Agree(s, Start(p, r), p.words);
      if r != Region(p, j) {
        RegionsDisjoint(p, r, Region(p, j));
      }
    }
  }

  lemma CopyAfterSpot(p: Params, s: State, vl: nat)
    requires Valid(p) && ConsumerOk(p, s) && CopyOk(p, s) && ErrorsOk(p, s)
    requires (s.cons.SpotGot? || s.cons.SpotExp?) && s.cons.job < p.jobs
    ensures var t := NextConsumer(p, s, vl); ConsumerOk(p, t) && CopyOk(p, t) && ErrorsOk(p, t)
  {
    BaseIsStart(p, s.cons.job);
  }

  lemma StepSpot(p: Params, s: State, vl: nat)
    requires Valid(p) && Inv(p, s) && (s.cons.SpotGot? || s.cons.SpotExp?)
    ensures Inv(p, NextConsumer(p, s, vl))
  {
    CopyAfterSpot(p, s, vl);
    LocalStep(p, s, NextConsumer(p, s, vl));
  }

  lemma StepClear(p: Params, s: State, vl: nat)
    requires Valid(p) && Inv(p, s) && s.cons.Clear?
    ensures Inv(p, NextConsumer(p, s, vl))
  {
    RegionsAfterClear(p, s, vl);
    LogAfterClear(p, s, vl);
  }

  lemma LogAfterClear(p: Params, s: State, vl: nat)
    requires Valid(p) && TableOk(p, s) && LogOk(p, s) && ConsumerOk(p, s) && ProducerOk(p, s.prod) && s.cons.Clear?
    ensures TableOk(p, NextConsumer(p, s, vl)) && LogOk(p, NextConsumer(p, s, vl))
    ensures ConsumerOk(p, NextConsumer(p, s, vl))
  {
    TableAfterClear(p, s, vl);
    var log := s.log + [s.cons.job];
    assert forall i :: 0 <= i < |s.log| ==> log[i] == s.log[i];
    Pigeonhole(log, p.jobs);
  }

  lemma TableAfterClear(p: Params, s: State, vl: nat)
    requires Valid(p) && TableOk(p, s) && ConsumerOk(p, s) && ProducerOk(p, s.prod) && s.cons.Clear?
    ensures TableOk(p, NextConsumer(p, s, vl))
  {}

  lemma RegionsAfterClear(p: Params, s: State, vl: nat)
    requires Valid(p) && CopyOk(p, s) && ConsumerOk(p, s) && ProducerOk(p, s.prod) && RegionsOk(p, s) && s.cons.Clear?
    ensures RegionsOk(p, NextConsumer(p, s, vl))
  {
    var t := NextConsumer(p, s, vl);
    forall r | 0 <= r < p.jobs - 1 && Final(p, r) in t.log
      ensures Agree(t, Start(p, r), p.words)
    {
      if Final(p, r) in s.log {
        assert Agree(s, Start(p, r), p.words);
      } else {
        assert Final(p, r) == s.cons.job && Region(p, s.cons.job) == r && Sound(p, s, s.cons.job);
      }
    }
  }

  /** Verification finds what it expects. */
  lemma VerifiedAgree(p: Params, s: State)
    requires Valid(p) && RegionsOk(p, s) && LocalsOk(p, s.cons) && s.cons.VerifyGot?
    requires forall j :: 0 <= j < p.jobs ==> j in s.log
    ensures Get(s.dst, s.cons.db + s.cons.w) == Get(s.src, s.cons.sb + s.cons.w)
  {
    var r := Region(p, s.cons.job);
    BaseIsStart(p, s.cons.job);
    assert Final(p, r) in s.log;
    assert Agree(s, Start(p, r), p.words);
  }

  lemma LocalsAfterVerify(p: Params, s: State, vl: nat)
    requires Valid(p) && TableOk(p, s) && ConsumerOk(p, s) && s.prod.Stopped? && Verifying(s.cons)
    ensures var t := NextConsumer(p, s, vl); ConsumerOk(p, t) && CopyOk(p, t)
  {}

  lemma StepVerify(p: Params, s: State, vl: nat)
    requires Valid(p) && Inv(p, s) && Verifying(s.cons)
    ensures Inv(p, NextConsumer(p, s, vl))
  {
    VerifyingAlone(p, s);
    LocalsAfterVerify(p, s, vl);
    if s.cons.VerifyGot? {
      VerifiedAgree(p, s);
    }
    LocalStep(p, s, NextConsumer(p, s, vl));
  }

  lemma NextInv(p: Params, s: State, e: Event)
    requires Valid(p) && Inv(p, s)
    ensures Inv(p, Next(p, s, e))
  {
    match e
    case Produce =>
      if s.prod.WriteSrc? || s.prod.WriteDst? {
        StepData(p, s);
      } else {
        StepEntry(p, s);
      }
    case Consume(vl) =>
      if s.cons.Strip? {
        StepStrip(p, s, vl);
      } else if s.cons.VLoad? {
        StepVLoad(p, s, vl);
      } else if s.cons.VStore? {
        StepVStore(p, s, vl);
      } else if s.cons.SpotGot? || s.cons.SpotExp? {
        StepSpot(p, s, vl);
      } else if s.cons.Clear? {
        StepClear(p, s, vl);
      } else if Verifying(s.cons) {
        StepVerify(p, s, vl);
      } else {
        StepTake(p, s, vl);
      }
  }

  lemma {:induction false} ExecInv(p: Params, schedule: seq<Event>)
    requires Valid(p)
    ensures Inv(p, Exec(p, Init(p), schedule))
  {
    if schedule == [] {
      InitInv(p);
    } else {
      var k := |schedule| - 1;
      ExecInv(p, schedule[..k]);
      NextInv(p, Exec(p, Init(p), schedule[..k]), schedule[k]);
    }
  }

  // ----- What the producer has written -----

  /** The first `n` words from `start` on are job `j`'s data. */
  ghost predicate SrcIs(p: Params, src: seq<int>, j: nat, start: nat, n: nat) {
    forall k :: start <= k < start + n ==> Get(src, k) == p.value(j, k - start)
  }

  function Written(p: Params, x: Producer): nat {
    match x
    case WriteSrc(_, w) => w
    case WriteDst(_, w) => w + 1
    case _ => p.words
  }

  function RegionStart(p: Params, j: nat): nat {
    Start(p, Region(p, j))
  }

  /** The source holds the data of the last published job of each region, and the data written so far. */
  ghost predicate Produced(p: Params, s: State) {
    && (forall j :: 0 < j < Published(p, s.prod) ==> SrcIs(p, s.src, j, RegionStart(p, j), p.words))
    && (Published(p, s.prod) < p.jobs ==>
          SrcIs(p, s.src, Published(p, s.prod), RegionStart(p, Published(p, s.prod)), Written(p, s.prod)))
  }

  lemma WordWritten(p: Params, src: seq<int>, j: nat, start: nat, w: nat)
    requires SrcIs(p, src, j, start, w) && start + w < |src|
    ensures SrcIs(p, Put(src, start + w, p.value(j, w)), j, start, w + 1)
  {
    var t := Put(src, start + w, p.value(j, w));
    forall k | start <= k < start + w + 1
      ensures Get(t, k) == p.value(j, k - start)
    {
      if k < start + w {
        assert Get(src, k) == p.value(j, k - start);
      } else {
        assert k - start == w;
      }
    }
  }

  lemma WriteElsewhere(p: Params, src: seq<int>, j: nat, start: nat, k: nat, x: int)
    requires SrcIs(p, src, j, start, p.words) && !(start <= k < start + p.words)
    ensures SrcIs(p, Put(src, k, x), j, start, p.words)
  {
    forall m | start <= m < start + p.words
      ensures Get(Put(src, k, x), m) == p.value(j, m - start)
    {
      assert Get(src, m) == p.value(j, m - start);
    }
  }

  lemma WriteSrcProduces(p: Params, s: State)
    requires Valid(p) && BuffersOk(p, s) && ProducerOk(p, s.prod) && s.prod.WriteSrc? && Produced(p, s)
    ensures Produced(p, NextProducer(p, s))
  {
    var i, w := s.prod.job, s.prod.w;
    BaseIsStart(p, i);
    WordWritten(p, s.src, i, RegionStart(p, i), w);
    forall j | 0 < j < i
      ensures SrcIs(p, NextProducer(p, s).src, j, RegionStart(p, j), p.words)
    {
      RegionsDisjoint(p, Region(p, j), Region(p, i));
      WriteElsewhere(p, s.src, j, RegionStart(p, j), RegionStart(p, i) + w, p.value(i, w));
    }
  }

  lemma NextProduced(p: Params, s: State, e: Event)
    requires Valid(p) && Inv(p, s) && Produced(p, s)
    ensures Produced(p, Next(p, s, e))
  {
    if e.Produce? && s.prod.WriteSrc? {
      WriteSrcProduces(p, s);
    } else {
      SourceKept(p, s, e);
    }
  }

  lemma SourceUnchanged(p: Params, s: State, e: Event)
    requires Valid(p) && (e.Produce? ==> !s.prod.WriteSrc?)
    ensures Next(p, s, e).src == s.src && (e.Consume? ==> Next(p, s, e).prod == s.prod)
  {}

  lemma SourceKept(p: Params, s: State, e: Event)
    requires Valid(p) && Produced(p, s) && TableOk(p, s) && ProducerOk(p, s.prod) && (e.Produce? ==> !s.prod.WriteSrc?)
    ensures Produced(p, Next(p, s, e))
  {
    var t := Next(p, s, e);
    SourceUnchanged(p, s, e);
    forall j | 0 < j < Published(p, t.prod)
      ensures SrcIs(p, t.src, j, RegionStart(p, j), p.words)
    {
      assert j < Published(p, s.prod) ==> SrcIs(p, s.src, j, RegionStart(p, j), p.words);
    }
  }

  lemma {:induction false} ExecProduced(p: Params, schedule: seq<Event>)
    requires Valid(p)
    ensures Produced(p, Exec(p, Init(p), schedule))
  {
    if schedule != [] {
      var k := |schedule| - 1;
      ExecInv(p, schedule[..k]);
      ExecProduced(p, schedule[..k]);
      NextProduced(p, Exec(p, Init(p), schedule[..k]), schedule[k]);
    }
  }

  // ----- Main results -----

  lemma {:induction false} OnceInLog(s: seq<nat>, x: nat)
    requires forall i, k :: 0 <= i < k < |s| ==> s[i] != s[k]
    ensures multiset(s)[x] == if x in s then 1 else 0
  {
    if s != [] {
      var k := |s| - 1;
      OnceInLog(s[..k], x);
      assert s == s[..k] + [s[k]];
    }
  }

  /** A job is consumed at most once, and only after it was published; its flag tells whether it still has to be. */
  lemma ConsumedAtMostOnce(p: Params, schedule: seq<Event>, j: nat)
    requires Valid(p) && j < p.jobs
    ensures var s := Exec(p, Init(p), schedule);
            && multiset(s.log)[j] <= 1
            && (j in s.log ==> j < Published(p, s.prod))
            && |s.table| == p.jobs && (s.table[j].valid <==> j < Published(p, s.prod) && j !in s.log)
  {
    ExecInv(p, schedule);
    OnceInLog(Exec(p, Init(p), schedule).log, j);
  }

  /** When the consumer leaves its loop, it has consumed every job exactly once. */
  lemma ConsumedExactlyOnce(p: Params, schedule: seq<Event>, j: nat)
    requires Valid(p) && j < p.jobs && Verifying(Exec(p, Init(p), schedule).cons)
    ensures multiset(Exec(p, Init(p), schedule).log)[j] == 1
  {
    ExecInv(p, schedule);
    VerifyingAlone(p, Exec(p, Init(p), schedule));
    OnceInLog(Exec(p, Init(p), schedule).log, j);
  }

  /**
    The final verification finds no error, whatever the interleaving: the destination equals the source in
    every job's region, although the last job's region is that of job 0, and both hold the data of the last job
    that has the region.
    */
  lemma VerificationPasses(p: Params, schedule: seq<Event>, j: nat, w: nat)
    requires Valid(p) && j < p.jobs && w < p.words && Verifying(Exec(p, Init(p), schedule).cons)
    ensures var s, k := Exec(p, Init(p), schedule), Base(p, j) + w;
            && s.verifyErrs == 0 && k < |s.src| == |s.dst|
            && s.dst[k] == s.src[k] == p.value(Final(p, Region(p, j)), w)
  {
    var s, r := Exec(p, Init(p), schedule), Region(p, j);
    ExecInv(p, schedule);
    ExecProduced(p, schedule);
    VerifyingAlone(p, s);
    BaseIsStart(p, j);
    assert SrcIs(p, s.src, Final(p, r), RegionStart(p, Final(p, r)), p.words);
    assert Final(p, r) in s.log;
    AgreeingWord(p, s, r, Start(p, r), w);
  }

  lemma AgreeingWord(p: Params, s: State, r: nat, start: nat, w: nat)
    requires Valid(p) && Agree(s, start, p.words) && SrcIs(p, s.src, Final(p, r), start, p.words) && w < p.words
    requires start + w < |s.src| == |s.dst|
    ensures s.dst[start + w] == s.src[start + w] == p.value(Final(p, r), w)
  {
    var k := start + w;
    assert Get(s.dst, k) == Get(s.src, k) == p.value(Final(p, r), k - start);
  }

  /** The spot checks find an error only if the last job's data were written before job 0 was consumed. */
  lemma SpotErrorsNeedRace(p: Params, schedule: seq<Event>)
    requires Valid(p) && !Exec(p, Init(p), schedule).raced
    ensures Exec(p, Init(p), schedule).errs == 0
  {
    ExecInv(p, schedule);
  }

  lemma ExecOne(p: Params, s: State, schedule: seq<Event>, e: Event)
    requires Valid(p)
    ensures Exec(p, s, schedule + [e]) == Next(p, Exec(p, s, schedule), e)
  {
    assert (schedule + [e])[..|schedule|] == schedule;
  }

  // ----- The buffers in memory -----

  /** The two buffers, the job table, and the program counters of the two cores. */
  class Buffers {
    const src_buf: array<int>
    const dst_buf: array<int>
    const p: Params
    var job_table: seq<Job>
    var prod: Producer
    var cons: Consumer
    var scan: nat
    var errs: nat
    ghost var log: seq<nat>
    ghost var verifyErrs: nat
    ghost var raced: bool
    var consumed: nat

    ghost predicate Ok()
      reads this
    {
      Valid(p) && src_buf != dst_buf && src_buf.Length == dst_buf.Length == Size(p) && consumed == |log|
    }

    ghost function View(): State
      reads this, src_buf, dst_buf
    {
      State(src_buf[..], dst_buf[..], job_table, prod, cons, scan, log, errs, verifyErrs, raced)
    }

    constructor (p: Params)
      requires Valid(p)
      ensures Ok() && this.p == p && fresh(src_buf) && fresh(dst_buf) && View() == Init(p)
    {
      this.p := p;
      src_buf, dst_buf := new int[Size(p)](_ => 0), new int[Size(p)](_ => 0);
      job_table := seq(p.jobs, _ => Job(0, 0, 0, false));
      prod, cons, scan, errs, consumed := WriteSrc(0, 0), Scan, 0, 0, 0;
      log, verifyErrs, raced := [], 0, false;
      new;
      assert src_buf[..] == seq(Size(p), _ => 0) && dst_buf[..] == seq(Size(p), _ => 0);
    }

    /** One memory access of the producer. */
    method Produce()
      requires Ok() && Inv(p, View())
      modifies this, src_buf, dst_buf
      ensures Ok() && View() == NextProducer(p, old(View()))
    {
      match prod {
        case WriteSrc(j, w) =>
          BaseIsStart(p, j);
          src_buf[Base(p, j) + w] := p.value(j, w);
          assert src_buf[..] == Put(old(src_buf[..]), Base(p, j) + w, p.value(j, w));
          prod := WriteDst(j, w);
          raced := raced || (j == p.jobs - 1 && 0 !in log);
        case WriteDst(j, w) =>
          BaseIsStart(p, j);
          dst_buf[Base(p, j) + w] := p.disturb(p.value(j, w));
          assert dst_buf[..] == Put(old(dst_buf[..]), Base(p, j) + w, p.disturb(p.value(j, w)));
          prod := if w + 1 < p.words then WriteSrc(j, w + 1) else SetSrc(j);
          raced := raced || (j == p.jobs - 1 && 0 !in log);
        case SetSrc(j) =>
          job_table := job_table[j := job_table[j].(src_word_ofst := Base(p, j))];
          prod := SetDst(j);
        case SetDst(j) =>
          job_table := job_table[j := job_table[j].(dst_word_ofst := Base(p, j))];
          prod := SetWords(j);
        case SetWords(j) =>
          job_table := job_table[j := job_table[j].(words := p.words)];
          prod := Publish(j);
        case Publish(j) =>
          job_table := job_table[j := job_table[j].(valid := true)];
          prod := if j + 1 < p.jobs then WriteSrc(j + 1, 0) else Stopped;
        case Stopped =>
      }
    }

    /** One memory access of the consumer in its scanning loop, up to the copy. */
    method Take(vl: nat)
      requires Ok() && Inv(p, View())
      requires cons.Scan? || cons.LoadSrc? || cons.LoadDst? || cons.LoadWords? || cons.Strip?
      modifies this
      ensures Ok() && View() == NextConsumer(p, old(View()), vl)
    {
      match cons {
        case Scan =>
          RemainderNat(scan, p.jobs);
          var j := scan % p.jobs;
          if job_table[j].valid {
            cons := LoadSrc(j);
          } else {
            scan := (scan + 1) % TWO_32;
          }
        case LoadSrc(j) => cons := LoadDst(j, job_table[j].src_word_ofst);
        case LoadDst(j, sb) => cons := LoadWords(j, sb, job_table[j].dst_word_ofst);
        case LoadWords(j, sb, db) => cons := Strip(j, sb, db, job_table[j].words, 0);
        case Strip(j, sb, db, n, copied) =>
          if copied < n {
            cons := VLoad(j, sb, db, n, copied, if 1 <= vl <= n - copied then vl else n - copied, []);
          } else {
            cons := if n > 0 then SpotGot(j, sb, db, n, 0) else Clear(j);
          }
      }
    }

    /** One memory access of the consumer in the copy, for one element of a register. */
    method Copy()
      requires Ok() && BuffersOk(p, View()) && ConsumerOk(p, View())
      requires (cons.VLoad? || cons.VStore?) && cons.job < p.jobs
      modifies this, dst_buf
      ensures Ok() && forall vl: nat :: View() == NextConsumer(p, old(View()), vl)
    {
      BaseIsStart(p, cons.job);
      match cons {
        case VLoad(j, sb, db, n, copied, len, v0) =>
          var v := v0 + [src_buf[sb + copied + |v0|]];
          cons := if |v| < len then VLoad(j, sb, db, n, copied, len, v) else VStore(j, sb, db, n, copied, v, 0);
        case VStore(j, sb, db, n, copied, v0, i) =>
          dst_buf[db + copied + i] := v0[i];
          assert dst_buf[..] == Put(old(dst_buf[..]), db + copied + i, v0[i]);
          cons := if i + 1 < |v0| then VStore(j, sb, db, n, copied, v0, i + 1) else Strip(j, sb, db, n, copied + |v0|);
      }
    }

    /** One memory access of the consumer in the spot check or the clearing of the flag. */
    method CheckAndClear()
      requires Ok() && BuffersOk(p, View()) && TableOk(p, View()) && ConsumerOk(p, View())
      requires (cons.SpotGot? || cons.SpotExp? || cons.Clear?) && cons.job < p.jobs
      modifies this
      ensures Ok() && forall vl: nat :: View() == NextConsumer(p, old(View()), vl)
    {
      BaseIsStart(p, cons.job);
      match cons {
        case SpotGot(j, sb, db, n, k) =>
          cons := SpotExp(j, sb, db, n, k, dst_buf[db + k]);
        case SpotExp(j, sb, db, n, k, got) =>
          if got != src_buf[sb + k] {
            errs := errs + 1;
          }
          cons := if k + 17 < n then SpotGot(j, sb, db, n, k + 17) else Clear(j);
        case Clear(j) =>
          job_table := job_table[j := job_table[j].(valid := false)];
          consumed, log := consumed + 1, log + [j];
          cons := if consumed < p.jobs then Scan else VerifySrc(0);
          scan := (scan + 1) % TWO_32;
      }
    }

    /** One memory access of the final verification. */
    method Verify()
      requires Ok() && BuffersOk(p, View()) && TableOk(p, View()) && ConsumerOk(p, View()) && Verifying(cons)
      modifies this
      ensures Ok() && forall vl: nat :: View() == NextConsumer(p, old(View()), vl)
    {
      match cons {
        case VerifySrc(j) => cons := VerifyDst(j, job_table[j].src_word_ofst);
        case VerifyDst(j, sb) => cons := VerifyGot(j, sb, job_table[j].dst_word_ofst, 0);
        case VerifyGot(j, sb, db, w) =>
          BaseIsStart(p, j);
          cons := VerifyExp(j, sb, db, w, dst_buf[db + w]);
        case VerifyExp(j, sb, db, w, got) =>
          BaseIsStart(p, j);
          if got != src_buf[sb + w] {
            errs, verifyErrs := errs + 1, verifyErrs + 1;
          }
          cons := if w + 1 < p.words then VerifyGot(j, sb, db, w + 1)
                  else if j + 1 < p.jobs then VerifySrc(j + 1) else Finished;
        case Finished =>
      }
    }

    /** One step of either core. */
    method Step(e: Event)
      requires Ok() && Inv(p, View())
      modifies this, src_buf, dst_buf
      ensures Ok() && Inv(p, View()) && View() == Next(p, old(View()), e)
    {
      NextInv(p, View(), e);
      match e {
        case Produce => Produce();
        case Consume(vl) =>
          if cons.Scan? || cons.LoadSrc? || cons.LoadDst? || cons.LoadWords? || cons.Strip? {
            Take(vl);
          } else if Verifying(cons) {
            Verify();
          } else if cons.VLoad? || cons.VStore? {
            Copy();
          } else {
            CheckAndClear();
          }
      }
    }

    /**
      Executes a whole schedule: once the consumer verifies, the destination equals the source in every job's region.
      */
    method Run(schedule: seq<Event>)
      requires Ok() && View() == Init(p)
      modifies this, src_buf, dst_buf
      ensures Ok() && View() == Exec(p, old(View()), schedule)
      ensures Verifying(cons) ==> verifyErrs == 0
      ensures Verifying(cons) ==> forall j, w :: 0 <= j < p.jobs && 0 <= w < p.words ==> Delivered(j, w)
    {
      InitInv(p);
      for i := 0 to |schedule|
        invariant Ok() && Inv(p, View()) && View() == Exec(p, old(View()), schedule[..i])
      {
        ExecOne(p, old(View()), schedule[..i], schedule[i]);
        assert schedule[..i + 1] == schedule[..i] + [schedule[i]];
        Step(schedule[i]);
      }
      assert schedule[..|schedule|] == schedule;
      if Verifying(cons) {
        forall j, w | 0 <= j < p.jobs && 0 <= w < p.words
          ensures Delivered(j, w)
        {
          VerificationPasses(p, schedule, j, w);
        }
      }
    }

    /** Word `w` of job `j`'s region is the same in both buffers. */
    ghost predicate Delivered(j: nat, w: nat)
      requires Valid(p)
      reads src_buf, dst_buf
    {
      var k := Base(p, j) + w;
      k < src_buf.Length && k < dst_buf.Length && dst_buf[k] == src_buf[k]
    }
  }
}
