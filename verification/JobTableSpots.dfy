/**
  When the spot checks of software/tests/cache-rlc-mimic/main.c can report an error: exactly if at some checked word
  the last job's data, or what the producer first leaves in the destination for them, differ from job 0's data.
  */
module JobTableSpots {
  import opened Arithmetic
  import opened JobTable

  /** Word `w` is spot-checked, and the last job's writes to it can be told from job 0's data. */
  predicate Telling(p: Params, w: nat)
    requires Valid(p)
  {
    && w < p.words && w % 17 == 0
    && var last := p.value(p.jobs - 1, w); (p.value(0, w) != last || p.disturb(last) != last)
  }

  ghost predicate Indistinct(p: Params)
    requires Valid(p)
  {
    forall w :: 0 <= w < p.words ==> !Telling(p, w)
  }

  lemma RegionZero(p: Params)
    requires Valid(p)
    ensures Base(p, 0) == 0 && Base(p, p.jobs - 1) == 0 && Start(p, 0) == 0 && Size(p) >= p.words
  {
    BaseIsStart(p, 0);
    BaseIsStart(p, p.jobs - 1);
  }

  // ----- Without telling words no spot check fails -----

  /** Word `k` is checked, and both jobs of region 0 have the same data there. */
  predicate Checked(p: Params, k: int) {
    0 <= k < p.words && k % 17 == 0
  }

  /** How many words of region 0 have been written to both buffers. */
  function Ready(p: Params, x: Producer): nat {
    if Published(p, x) > 0 then p.words
    else match x
      case WriteSrc(_, w) => w
      case WriteDst(_, w) => w
      case _ => p.words
  }

  ghost predicate MemoryCalm(p: Params, s: State) {
    && (forall k :: 0 <= k < Ready(p, s.prod) && Checked(p, k) ==> Get(s.src, k) == p.value(0, k) == Get(s.dst, k))
    && (s.prod.WriteDst? && s.prod.job == 0 && Checked(p, s.prod.w) ==> Get(s.src, s.prod.w) == p.value(0, s.prod.w))
  }

  ghost predicate RegisterCalm(p: Params, v: seq<int>, copied: nat) {
    forall k :: copied <= k < copied + |v| && Checked(p, k) ==> v[k - copied] == p.value(0, k)
  }

  ghost predicate ConsumerCalm(p: Params, c: Consumer) {
    match c
    case VLoad(j, _, _, _, copied, _, v0) => Region(p, j) == 0 ==> RegisterCalm(p, v0, copied)
    case VStore(j, _, _, _, copied, v0, _) => Region(p, j) == 0 ==> RegisterCalm(p, v0, copied)
    case SpotGot(_, _, _, _, k) => k % 17 == 0
    case SpotExp(j, _, _, _, k, got) => k % 17 == 0 && (Region(p, j) == 0 ==> got == p.value(0, k))
    case _ => true
  }

  ghost predicate Calm(p: Params, s: State) {
    MemoryCalm(p, s) && ConsumerCalm(p, s.cons) && s.errs == 0
  }

  /** A write to another region leaves region 0 alone. */
  lemma OtherRegion(p: Params, j: nat, k: nat)
    requires Valid(p) && j < p.jobs && Region(p, j) != 0 && k < p.words
    ensures k < Base(p, j)
  {
    BaseIsStart(p, j);
    RegionsDisjoint(p, 0, Region(p, j));
    RegionZero(p);
    ScaleOrder(1, Region(p, j), p.words);
  }

  lemma ProducerCalm(p: Params, s: State)
    requires Valid(p) && Indistinct(p) && Inv(p, s) && Calm(p, s)
    ensures Calm(p, NextProducer(p, s))
  {
    if s.prod.WriteSrc? || s.prod.WriteDst? {
      var t, j, w := NextProducer(p, s), s.prod.job, s.prod.w;
      RegionZero(p);
      assert !Telling(p, w);
      forall k | 0 <= k < Ready(p, t.prod) && Checked(p, k)
        ensures Get(t.src, k) == p.value(0, k) == Get(t.dst, k)
      {
        if Region(p, j) != 0 {
          OtherRegion(p, j, k);
        }
      }
    }
  }

  lemma LoadCalm(p: Params, s: State, vl: nat)
    requires Valid(p) && Inv(p, s) && Calm(p, s) && s.cons.VLoad?
    ensures Calm(p, NextConsumer(p, s, vl))
  {
    BaseIsStart(p, s.cons.job);
    RegionZero(p);
  }

  lemma StoreCalm(p: Params, s: State, vl: nat)
    requires Valid(p) && Inv(p, s) && Calm(p, s) && s.cons.VStore?
    ensures Calm(p, NextConsumer(p, s, vl))
  {
    var t, j := NextConsumer(p, s, vl), s.cons.job;
    RegionZero(p);
    BaseIsStart(p, j);
    forall k | 0 <= k < Ready(p, t.prod) && Checked(p, k)
      ensures Get(t.src, k) == p.value(0, k) == Get(t.dst, k)
    {
      if Region(p, j) != 0 {
        OtherRegion(p, j, k);
      }
    }
  }

  lemma SpotGotCalm(p: Params, s: State, vl: nat)
    requires Valid(p) && Inv(p, s) && Calm(p, s) && s.cons.SpotGot?
    ensures Calm(p, NextConsumer(p, s, vl))
  {
    RegionZero(p);
    BaseIsStart(p, s.cons.job);
    assert Region(p, s.cons.job) == 0 ==> Checked(p, s.cons.k) && Get(s.dst, s.cons.k) == p.value(0, s.cons.k);
  }

  lemma SpotComparesEqual(p: Params, s: State)
    requires Valid(p) && Inv(p, s) && Calm(p, s) && s.cons.SpotExp?
    ensures s.cons.got == Get(s.src, s.cons.sb + s.cons.k)
  {
    RegionZero(p);
    BaseIsStart(p, s.cons.job);
    if Region(p, s.cons.job) == 0 {
      assert Checked(p, s.cons.k) && Get(s.src, s.cons.k) == p.value(0, s.cons.k);
    } else {
      assert Sound(p, s, s.cons.job);
    }
  }

  lemma NextChecked(k: nat)
    requires k % 17 == 0
    ensures (k + 17) % 17 == 0
  {}

  lemma SpotExpCalm(p: Params, s: State, vl: nat)
    requires Valid(p) && Inv(p, s) && Calm(p, s) && s.cons.SpotExp?
    ensures Calm(p, NextConsumer(p, s, vl))
  {
    SpotComparesEqual(p, s);
    NextChecked(s.cons.k);
  }

  lemma VerifyCalm(p: Params, s: State, vl: nat)
    requires Valid(p) && Inv(p, s) && Calm(p, s) && Verifying(s.cons)
    ensures Calm(p, NextConsumer(p, s, vl))
  {}

  lemma TakeCalm(p: Params, s: State, vl: nat)
    requires Valid(p) && Calm(p, s) && (s.cons.Scan? || s.cons.LoadSrc? || s.cons.LoadDst? || s.cons.LoadWords?)
    ensures Calm(p, NextConsumer(p, s, vl))
  {}

  lemma StripOrClearCalm(p: Params, s: State, vl: nat)
    requires Valid(p) && Calm(p, s) && (s.cons.Strip? || s.cons.Clear?)
    ensures Calm(p, NextConsumer(p, s, vl))
  {}

  lemma NextCalm(p: Params, s: State, e: Event)
    requires Valid(p) && Indistinct(p) && Inv(p, s) && Calm(p, s)
    ensures Calm(p, Next(p, s, e))
  {
    match e
    case Produce => ProducerCalm(p, s);
    case Consume(vl) =>
      if s.cons.VLoad? {
        LoadCalm(p, s, vl);
      } else if s.cons.VStore? {
        StoreCalm(p, s, vl);
      } else if s.cons.SpotGot? {
        SpotGotCalm(p, s, vl);
      } else if s.cons.SpotExp? {
        SpotExpCalm(p, s, vl);
      } else if Verifying(s.cons) {
        VerifyCalm(p, s, vl);
      } else if s.cons.Strip? || s.cons.Clear? {
        StripOrClearCalm(p, s, vl);
      } else {
        TakeCalm(p, s, vl);
      }
  }

  lemma {:induction false} ExecCalm(p: Params, schedule: seq<Event>)
    requires Valid(p) && Indistinct(p)
    ensures Calm(p, Exec(p, Init(p), schedule))
  {
    if schedule != [] {
      var k := |schedule| - 1;
      ExecInv(p, schedule[..k]);
      ExecCalm(p, schedule[..k]);
      NextCalm(p, Exec(p, Init(p), schedule[..k]), schedule[k]);
    }
  }

  // ----- A telling word makes some run report an error -----

  /** The state after a schedule. */
  function At(p: Params, schedule: seq<Event>): State
    requires Valid(p)
  {
    Exec(p, Init(p), schedule)
  }

  /** Only the producer has stepped between the two states. */
  predicate ConsumerWaits(s: State, t: State) {
    t.cons == s.cons && t.scan == s.scan && t.log == s.log && t.errs == s.errs
  }

  lemma ProduceOne(p: Params, schedule: seq<Event>) returns (more: seq<Event>)
    requires Valid(p)
    ensures At(p, more) == NextProducer(p, At(p, schedule)) && ConsumerWaits(At(p, schedule), At(p, more))
    ensures more == schedule + [Produce]
  {
    more := schedule + [Produce];
    ExecOne(p, Init(p), schedule, Produce);
  }

  /** The producer writes the data of a job up to word `w`. */
  lemma WriteUpTo(p: Params, schedule: seq<Event>, j: nat, w: nat) returns (more: seq<Event>)
    requires Valid(p) && At(p, schedule).prod == WriteSrc(j, 0) && w < p.words
    ensures At(p, more).prod == WriteSrc(j, w) && ConsumerWaits(At(p, schedule), At(p, more))
    ensures At(p, more).raced ==> At(p, schedule).raced || j == p.jobs - 1
  {
    more := schedule;
    for i := 0 to w
      invariant At(p, more).prod == WriteSrc(j, i) && ConsumerWaits(At(p, schedule), At(p, more))
      invariant At(p, more).raced ==> At(p, schedule).raced || j == p.jobs - 1
    {
      more := ProduceOne(p, more);
      more := ProduceOne(p, more);
    }
  }

  /** The producer completes the entry of a job, up to its publication. */
  lemma EnterJob(p: Params, schedule: seq<Event>, j: nat) returns (more: seq<Event>)
    requires Valid(p) && At(p, schedule).prod == WriteSrc(j, 0) && j < p.jobs
    ensures At(p, more).prod == Publish(j) && ConsumerWaits(At(p, schedule), At(p, more))
    ensures At(p, more).raced ==> At(p, schedule).raced || j == p.jobs - 1
  {
    more := WriteUpTo(p, schedule, j, p.words - 1);
    more := ProduceOne(p, more);
    more := ProduceOne(p, more);
    for i := 0 to 3
      invariant At(p, more).prod == [SetSrc(j), SetDst(j), SetWords(j), Publish(j)][i]
      invariant ConsumerWaits(At(p, schedule), At(p, more))
      invariant At(p, more).raced ==> At(p, schedule).raced || j == p.jobs - 1
    {
      ExecInv(p, more);
      more := ProduceOne(p, more);
    }
  }

  /** The producer goes on to the beginning of a later job. */
  lemma ReachJob(p: Params, schedule: seq<Event>, j: nat, target: nat) returns (more: seq<Event>)
    requires Valid(p) && At(p, schedule).prod == WriteSrc(j, 0) && j <= target < p.jobs
    ensures At(p, more).prod == WriteSrc(target, 0) && ConsumerWaits(At(p, schedule), At(p, more))
  {
    more := schedule;
    for i := j to target
      invariant At(p, more).prod == WriteSrc(i, 0) && ConsumerWaits(At(p, schedule), At(p, more))
    {
      more := EnterJob(p, more, i);
      ExecInv(p, more);
      more := ProduceOne(p, more);
    }
  }

  /** The consumer has taken nothing yet, job 0 is published and its data are in the source. */
  ghost predicate FirstPublished(p: Params, s: State)
    requires Valid(p)
  {
    && s.prod == WriteSrc(1, 0) && !s.raced && s.log == []
    && forall k :: 0 <= k < p.words ==> Get(s.src, k) == p.value(0, k)
  }

  lemma PublishFirst(p: Params) returns (schedule: seq<Event>)
    requires Valid(p)
    ensures FirstPublished(p, At(p, schedule)) && At(p, schedule).cons == Scan && At(p, schedule).scan == 0
  {
    schedule := EnterJob(p, [], 0);
    ExecProduced(p, schedule);
    ExecInv(p, schedule);
    RegionZero(p);
    var s := At(p, schedule);
    assert SrcIs(p, s.src, 0, 0, p.words);
    forall k | 0 <= k < p.words
      ensures Get(s.src, k) == p.value(0, k)
    {
      assert Get(s.src, k) == p.value(0, k - 0);
    }
    schedule := ProduceOne(p, schedule);
  }

  lemma ConsumeOne(p: Params, schedule: seq<Event>, vl: nat) returns (more: seq<Event>)
    requires Valid(p) && FirstPublished(p, At(p, schedule)) && !At(p, schedule).cons.Clear?
    ensures At(p, more) == NextConsumer(p, At(p, schedule), vl) && FirstPublished(p, At(p, more))
  {
    more := schedule + [Consume(vl)];
    ExecOne(p, Init(p), schedule, Consume(vl));
  }

  /** The consumer takes job 0 and is about to copy it. */
  lemma TakeFirst(p: Params) returns (schedule: seq<Event>)
    requires Valid(p)
    ensures FirstPublished(p, At(p, schedule)) && At(p, schedule).cons == Strip(0, 0, 0, p.words, 0)
  {
    RegionZero(p);
    schedule := PublishFirst(p);
    for i := 0 to 4
      invariant FirstPublished(p, At(p, schedule)) && At(p, schedule).scan == 0
      invariant At(p, schedule).cons
             == [Scan, LoadSrc(0), LoadDst(0, 0), LoadWords(0, 0, 0), Strip(0, 0, 0, p.words, 0)][i]
    {
      ExecInv(p, schedule);
      RemainderNat(0, p.jobs);
      assert At(p, schedule).table[0].valid && PublishedOk(p, At(p, schedule).table[0], 0);
      schedule := ConsumeOne(p, schedule, 0);
    }
  }

  /** The consumer copies job 0 in one strip. */
  lemma CopyFirst(p: Params) returns (schedule: seq<Event>)
    requires Valid(p)
    ensures FirstPublished(p, At(p, schedule)) && At(p, schedule).cons == SpotGot(0, 0, 0, p.words, 0)
  {
    schedule := TakeFirst(p);
    schedule := ConsumeOne(p, schedule, p.words);
    while At(p, schedule).cons.VLoad?
      invariant FirstPublished(p, At(p, schedule))
      invariant var c := At(p, schedule).cons;
                || (c.VLoad? && |c.v0| < p.words && c == VLoad(0, 0, 0, p.words, 0, p.words, c.v0))
                || (c.VStore? && |c.v0| == p.words && c == VStore(0, 0, 0, p.words, 0, c.v0, 0))
      decreases var c := At(p, schedule).cons; if c.VLoad? then p.words - |c.v0| else 0
    {
      schedule := ConsumeOne(p, schedule, 0);
    }
    while At(p, schedule).cons.VStore?
      invariant FirstPublished(p, At(p, schedule))
      invariant var c := At(p, schedule).cons;
                || (c.VStore? && |c.v0| == p.words && c.i < p.words && c == VStore(0, 0, 0, p.words, 0, c.v0, c.i))
                || c == Strip(0, 0, 0, p.words, p.words)
      decreases var c := At(p, schedule).cons; if c.VStore? then p.words - c.i else 0
    {
      schedule := ConsumeOne(p, schedule, 0);
    }
    schedule := ConsumeOne(p, schedule, 0);
  }

  lemma SpotNext(p: Params, schedule: seq<Event>, k: nat) returns (more: seq<Event>)
    requires Valid(p) && FirstPublished(p, At(p, schedule)) && At(p, schedule).cons == SpotGot(0, 0, 0, p.words, k)
    requires k + 17 < p.words
    ensures FirstPublished(p, At(p, more)) && At(p, more).cons == SpotGot(0, 0, 0, p.words, k + 17)
  {
    more := ConsumeOne(p, schedule, 0);
    more := ConsumeOne(p, more, 0);
  }

  lemma NextMultiple(k: nat, w: nat)
    requires k % 17 == 0 && w % 17 == 0 && k < w
    ensures k + 17 <= w && (k + 17) % 17 == 0
  {}

  /** After the copy, job 0's words are in the destination. */
  lemma FirstCopied(p: Params, schedule: seq<Event>, k: nat, w: nat)
    requires Valid(p) && FirstPublished(p, At(p, schedule)) && At(p, schedule).cons == SpotGot(0, 0, 0, p.words, k)
    requires w < p.words
    ensures |At(p, schedule).src| == |At(p, schedule).dst| == Size(p)
    ensures Get(At(p, schedule).dst, w) == p.value(0, w)
  {
    ExecInv(p, schedule);
    RegionZero(p);
    var s := At(p, schedule);
    assert Sound(p, s, 0) && Agree(s, 0, p.words);
    assert Get(s.dst, w) == Get(s.src, w);
  }

  /** The consumer comes to the spot check of a word of job 0. */
  lemma SpotFirst(p: Params, w: nat) returns (schedule: seq<Event>)
    requires Valid(p) && w < p.words && w % 17 == 0
    ensures FirstPublished(p, At(p, schedule)) && At(p, schedule).cons == SpotGot(0, 0, 0, p.words, w)
    ensures |At(p, schedule).src| == |At(p, schedule).dst| == Size(p)
    ensures Get(At(p, schedule).dst, w) == p.value(0, w)
  {
    schedule := CopyFirst(p);
    var k := 0;
    while k < w
      invariant k <= w && k % 17 == 0
      invariant FirstPublished(p, At(p, schedule)) && At(p, schedule).cons == SpotGot(0, 0, 0, p.words, k)
      decreases w - k
    {
      NextMultiple(k, w);
      schedule := SpotNext(p, schedule, k);
      k := k + 17;
    }
    FirstCopied(p, schedule, k, w);
  }

  /** The producer writes word `w` of the last job over that of job 0. */
  lemma LastWrite(p: Params, s: State, w: nat)
    requires Valid(p) && BuffersOk(p, s) && s.prod == WriteSrc(p.jobs - 1, w) && w < p.words
    ensures var t := NextProducer(p, s);
            && t.prod == WriteDst(p.jobs - 1, w) && |t.dst| == Size(p)
            && Get(t.src, w) == p.value(p.jobs - 1, w)
  {
    RegionZero(p);
  }

  /** The producer has just written word `w` of the last job's data to the source, the consumer standing still. */
  lemma LastSource(p: Params, schedule: seq<Event>, w: nat) returns (more: seq<Event>)
    requires Valid(p) && At(p, schedule).prod == WriteSrc(1, 0) && w < p.words
    ensures At(p, more).prod == WriteDst(p.jobs - 1, w) && ConsumerWaits(At(p, schedule), At(p, more))
    ensures Get(At(p, more).src, w) == p.value(p.jobs - 1, w) && |At(p, more).dst| == Size(p)
  {
    RegionZero(p);
    more := ReachJob(p, schedule, 1, p.jobs - 1);
    more := WriteUpTo(p, more, p.jobs - 1, w);
    ExecInv(p, more);
    LastWrite(p, At(p, more), w);
    more := ProduceOne(p, more);
  }

  /** If job 0's word differs from the last job's, the consumer loads the one and compares it with the other. */
  lemma SourceTells(p: Params, w: nat) returns (schedule: seq<Event>)
    requires Valid(p) && w < p.words && w % 17 == 0 && p.value(0, w) != p.value(p.jobs - 1, w)
    ensures At(p, schedule).errs > 0
  {
    schedule := SpotFirst(p, w);
    schedule := ConsumeOne(p, schedule, 0);
    assert At(p, schedule).cons == SpotExp(0, 0, 0, p.words, w, p.value(0, w));
    schedule := LastSource(p, schedule, w);
    ExecOne(p, Init(p), schedule, Consume(0));
    schedule := schedule + [Consume(0)];
  }

  /** The consumer looks at a word that differs between the buffers. */
  lemma Look(p: Params, s: State, w: nat)
    requires Valid(p) && s.cons == SpotGot(0, 0, 0, p.words, w) && Get(s.dst, w) != Get(s.src, w)
    ensures NextConsumer(p, NextConsumer(p, s, 0), 0).errs == s.errs + 1
  {
    var t := NextConsumer(p, s, 0);
    assert t.cons == SpotExp(0, 0, 0, p.words, w, Get(s.dst, w)) && t.src == s.src && t.errs == s.errs;
  }

  lemma LookTwice(p: Params, schedule: seq<Event>, w: nat) returns (more: seq<Event>)
    requires Valid(p) && At(p, schedule).cons == SpotGot(0, 0, 0, p.words, w)
    requires Get(At(p, schedule).dst, w) != Get(At(p, schedule).src, w)
    ensures At(p, more).errs > 0
  {
    Look(p, At(p, schedule), w);
    ExecOne(p, Init(p), schedule, Consume(0));
    ExecOne(p, Init(p), schedule + [Consume(0)], Consume(0));
    more := schedule + [Consume(0)] + [Consume(0)];
  }

  lemma Disturb(p: Params, s: State, w: nat)
    requires Valid(p) && s.prod == WriteDst(p.jobs - 1, w) && w < p.words && |s.dst| == Size(p)
    ensures var t := NextProducer(p, s);
            t.src == s.src && Get(t.dst, w) == p.disturb(p.value(p.jobs - 1, w))
  {
    RegionZero(p);
  }

  /** If the producer disturbs the word in the destination, the consumer finds it disturbed. */
  lemma DisturbanceTells(p: Params, w: nat) returns (schedule: seq<Event>)
    requires Valid(p) && w < p.words && w % 17 == 0
    requires p.disturb(p.value(p.jobs - 1, w)) != p.value(p.jobs - 1, w)
    ensures At(p, schedule).errs > 0
  {
    schedule := SpotFirst(p, w);
    schedule := LastSource(p, schedule, w);
    Disturb(p, At(p, schedule), w);
    schedule := ProduceOne(p, schedule);
    schedule := LookTwice(p, schedule, w);
  }

  predicate SpotErrorAfter(p: Params, schedule: seq<Event>)
    requires Valid(p)
  {
    At(p, schedule).errs > 0
  }

  /**
    Some run counts an error if and only if some spot-checked word tells the last job's writes from job 0's
    data, for any number of jobs and any packet size.  The final verification adds no error in any run, so all
    errors that are counted are the spot checks'.
    */
  lemma SpotErrorsIff(p: Params)
    requires Valid(p)
    ensures (exists schedule :: SpotErrorAfter(p, schedule)) <==> exists w :: 0 <= w < p.words && Telling(p, w)
  {
    if w :| 0 <= w < p.words && Telling(p, w) {
      var schedule;
      if p.value(0, w) != p.value(p.jobs - 1, w) {
        schedule := SourceTells(p, w);
      } else {
        schedule := DisturbanceTells(p, w);
      }
      assert SpotErrorAfter(p, schedule);
    } else {
      forall schedule
        ensures !SpotErrorAfter(p, schedule)
      {
        ExecCalm(p, schedule);
      }
    }
  }

  // ----- The program's own disturbance -----

  const MASK: bv32 := 0x5a5a5a5a

  /** What the producer writes to the destination instead of a word. */
  function Xored(v: int): int
    requires 0 <= v < TWO_32
  {
    ((v as bv32) ^ MASK) as int
  }

  lemma XorChanges(v: bv32)
    ensures v ^ MASK != v
  {}

  /** It differs from every word, so it is seen if the last job's data come in time: some run counts an error. */
  lemma ProgramTells(p: Params)
    requires Valid(p) && 0 <= p.value(p.jobs - 1, 0) < TWO_32
    requires forall v :: 0 <= v < TWO_32 ==> p.disturb(v) == Xored(v)
    ensures exists schedule :: SpotErrorAfter(p, schedule)
  {
    var v := p.value(p.jobs - 1, 0);
    XorChanges(v as bv32);
    assert Xored(v) != v;
    assert Telling(p, 0);
    SpotErrorsIff(p);
  }
}
