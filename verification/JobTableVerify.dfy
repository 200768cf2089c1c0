/**
  What the checks of software/tests/cache-rlc-mimic/main.c are worth: whatever the buffers and the table hold, the
  final verification counts exactly the words in which a job's destination differs from its source, and a spot check
  that runs undisturbed those among the words that it looks at.
  */
module JobTableVerify {
  import opened JobTable

  /** Word `w` of job `j` differs between source and destination, where the table says that they are. */
  predicate Differs(s: State, j: nat, w: nat)
    requires j < |s.table|
  {
    Get(s.dst, s.table[j].dst_word_ofst + w) != Get(s.src, s.table[j].src_word_ofst + w)
  }

  /** The number of the first `w` words of job `j` that differ. */
  function BadWords(s: State, j: nat, w: nat): nat
    requires j < |s.table|
  {
    if w == 0 then 0 else BadWords(s, j, w - 1) + if Differs(s, j, w - 1) then 1 else 0
  }

  /** The same for the first `j` jobs. */
  function BadJobs(p: Params, s: State, j: nat): nat
    requires j <= |s.table|
  {
    if j == 0 then 0 else BadJobs(p, s, j - 1) + BadWords(s, j - 1, p.words)
  }

  /** The errors found so far, by the place that the verification has come to. */
  predicate Found(s: State, t: State, n: nat) {
    t.errs == s.errs + n && t.verifyErrs == s.verifyErrs + n
  }

  /** The verification that began in `s` has come to the state `t`. */
  predicate VerifiedSoFar(p: Params, s: State, t: State)
    requires |s.table| == p.jobs
  {
    && t.src == s.src && t.dst == s.dst && t.table == s.table && t.prod.Stopped?
    && match t.cons
       case VerifySrc(j) => j < p.jobs && Found(s, t, BadJobs(p, s, j))
       case VerifyDst(j, sb) => j < p.jobs && sb == s.table[j].src_word_ofst && Found(s, t, BadJobs(p, s, j))
       case VerifyGot(j, sb, db, w) =>
         && j < p.jobs && sb == s.table[j].src_word_ofst && db == s.table[j].dst_word_ofst && w < p.words
         && Found(s, t, BadJobs(p, s, j) + BadWords(s, j, w))
       case VerifyExp(j, sb, db, w, got) =>
         && j < p.jobs && sb == s.table[j].src_word_ofst && db == s.table[j].dst_word_ofst && w < p.words
         && got == Get(s.dst, db + w) && Found(s, t, BadJobs(p, s, j) + BadWords(s, j, w))
       case Finished => Found(s, t, BadJobs(p, s, p.jobs))
       case _ => false
  }

  lemma WordCounted(s: State, j: nat, w: nat)
    requires j < |s.table|
    ensures BadWords(s, j, w + 1) == BadWords(s, j, w) + if Differs(s, j, w) then 1 else 0
  {}

  lemma JobCounted(p: Params, s: State, j: nat)
    requires j < |s.table|
    ensures BadJobs(p, s, j + 1) == BadJobs(p, s, j) + BadWords(s, j, p.words)
  {}

  /** Where a comparison leads to. */
  function Compared(p: Params, c: Consumer): Consumer
    requires c.VerifyExp?
  {
    if c.w + 1 < p.words then VerifyGot(c.job, c.sb, c.db, c.w + 1)
    else if c.job + 1 < p.jobs then VerifySrc(c.job + 1)
    else Finished
  }

  lemma CompareStep(p: Params, t: State, vl: nat)
    requires Valid(p) && t.cons.VerifyExp?
    ensures var bad := if t.cons.got != Get(t.src, t.cons.sb + t.cons.w) then 1 else 0;
            NextConsumer(p, t, vl)
            == t.(errs := t.errs + bad, verifyErrs := t.verifyErrs + bad, cons := Compared(p, t.cons))
  {}

  lemma CompareCounts(p: Params, s: State, t: State, v: State, bad: nat)
    requires Valid(p) && |s.table| == p.jobs && VerifiedSoFar(p, s, t) && t.cons.VerifyExp?
    requires bad == if Differs(s, t.cons.job, t.cons.w) then 1 else 0
    requires v == t.(errs := t.errs + bad, verifyErrs := t.verifyErrs + bad, cons := Compared(p, t.cons))
    ensures VerifiedSoFar(p, s, v)
  {
    WordCounted(s, t.cons.job, t.cons.w);
    JobCounted(p, s, t.cons.job);
  }

  lemma LoadStep(p: Params, s: State, t: State, vl: nat)
    requires Valid(p) && |s.table| == p.jobs && VerifiedSoFar(p, s, t) && !t.cons.VerifyExp?
    ensures VerifiedSoFar(p, s, NextConsumer(p, t, vl))
  {}

  lemma VerifyStep(p: Params, s: State, t: State, e: Event)
    requires Valid(p) && |s.table| == p.jobs && VerifiedSoFar(p, s, t)
    ensures VerifiedSoFar(p, s, Next(p, t, e))
  {
    if e.Consume? {
      if t.cons.VerifyExp? {
        CompareStep(p, t, e.vl);
        CompareCounts(p, s, t, NextConsumer(p, t, e.vl), if Differs(s, t.cons.job, t.cons.w) then 1 else 0);
      } else {
        LoadStep(p, s, t, e.vl);
      }
    }
  }

  lemma {:induction false} VerifyRun(p: Params, s: State, rest: seq<Event>)
    requires Valid(p) && |s.table| == p.jobs && s.prod.Stopped? && s.cons == VerifySrc(0)
    ensures VerifiedSoFar(p, s, Exec(p, s, rest))
  {
    if rest != [] {
      VerifyRun(p, s, rest[..|rest| - 1]);
      VerifyStep(p, s, Exec(p, s, rest[..|rest| - 1]), rest[|rest| - 1]);
    }
  }

  lemma {:induction false} NoBadWords(s: State, j: nat, w: nat)
    requires j < |s.table|
    ensures BadWords(s, j, w) == 0 <==> forall k: nat :: k < w ==> !Differs(s, j, k)
  {
    if w > 0 {
      NoBadWords(s, j, w - 1);
    }
  }

  lemma {:induction false} NoBadJobs(p: Params, s: State, j: nat)
    requires j <= |s.table|
    ensures BadJobs(p, s, j) == 0 <==> forall i: nat, k: nat :: i < j && k < p.words ==> !Differs(s, i, k)
  {
    if j > 0 {
      NoBadJobs(p, s, j - 1);
      NoBadWords(s, j - 1, p.words);
    }
  }

  /**
    From any state in which the verification begins, be it reachable or not: at its end it has counted the differing
    words, so it reports an error if and only if some word of some job differs.
    */
  lemma VerificationCounts(p: Params, s: State, rest: seq<Event>)
    requires Valid(p) && |s.table| == p.jobs && s.prod.Stopped? && s.cons == VerifySrc(0)
    requires Exec(p, s, rest).cons.Finished?
    ensures var t := Exec(p, s, rest);
            && t.verifyErrs == s.verifyErrs + BadJobs(p, s, p.jobs) && t.errs == s.errs + BadJobs(p, s, p.jobs)
            && (t.verifyErrs > s.verifyErrs <==> exists j: nat, w: nat :: j < p.jobs && w < p.words && Differs(s, j, w))
  {
    VerifyRun(p, s, rest);
    NoBadJobs(p, s, p.jobs);
  }

  // ----- The spot check -----

  /** Word `k` of a packet with the given offsets differs. */
  predicate SpotDiffers(s: State, sb: nat, db: nat, k: nat) {
    Get(s.dst, db + k) != Get(s.src, sb + k)
  }

  /** The number of words below `k` whose numbers are multiples of 17 and which differ. */
  function BadSpots(s: State, sb: nat, db: nat, k: nat): nat {
    if k == 0 then 0
    else BadSpots(s, sb, db, k - 1) + if (k - 1) % 17 == 0 && SpotDiffers(s, sb, db, k - 1) then 1 else 0
  }

  lemma NoSpot(k: nat, m: nat)
    requires k % 17 == 0 && 0 < m < 17
    ensures (k + m) % 17 != 0
  {}

  lemma {:induction false} NextSpot(s: State, sb: nat, db: nat, k: nat, m: nat)
    requires k % 17 == 0 && 1 <= m <= 17
    ensures BadSpots(s, sb, db, k + m) == BadSpots(s, sb, db, k) + if SpotDiffers(s, sb, db, k) then 1 else 0
  {
    if m > 1 {
      NextSpot(s, sb, db, k, m - 1);
      NoSpot(k, m - 1);
    }
  }

  /** The spot check of job `j` that began in `s` has come to the state `t`. */
  predicate SpotsSoFar(s: State, t: State, j: nat, sb: nat, db: nat, n: nat) {
    && t.src == s.src && t.dst == s.dst
    && match t.cons
       case SpotGot(i, a, b, len, k) =>
         && i == j && a == sb && b == db && len == n && k < n && k % 17 == 0
         && t.errs == s.errs + BadSpots(s, sb, db, k)
       case SpotExp(i, a, b, len, k, got) =>
         && i == j && a == sb && b == db && len == n && k < n && k % 17 == 0 && got == Get(s.dst, db + k)
         && t.errs == s.errs + BadSpots(s, sb, db, k)
       case Clear(i) => i == j && t.errs == s.errs + BadSpots(s, sb, db, n)
       case _ => false
  }

  lemma SpotStep(p: Params, s: State, t: State, j: nat, sb: nat, db: nat, n: nat, vl: nat)
    requires Valid(p) && SpotsSoFar(s, t, j, sb, db, n) && !t.cons.Clear?
    ensures SpotsSoFar(s, NextConsumer(p, t, vl), j, sb, db, n)
  {
    if t.cons.SpotExp? {
      var k := t.cons.k;
      assert (k + 17) % 17 == 0;
      NextSpot(s, sb, db, k, if k + 17 < n then 17 else n - k);
    }
  }

  lemma {:induction false} SpotRun(p: Params, s: State, rest: seq<Event>, j: nat, sb: nat, db: nat, n: nat)
    requires Valid(p) && s.cons == SpotGot(j, sb, db, n, 0) && n > 0
    requires forall k :: 0 <= k < |rest| ==> rest[k].Consume? && !Exec(p, s, rest[..k]).cons.Clear?
    ensures SpotsSoFar(s, Exec(p, s, rest), j, sb, db, n)
  {
    if rest != [] {
      var last := |rest| - 1;
      forall k | 0 <= k < last
        ensures rest[..last][k].Consume? && !Exec(p, s, rest[..last][..k]).cons.Clear?
      {
        assert rest[..last][..k] == rest[..k];
      }
      SpotRun(p, s, rest[..last], j, sb, db, n);
      SpotStep(p, s, Exec(p, s, rest[..last]), j, sb, db, n, rest[last].vl);
    }
  }

  /**
    From any state in which the spot check of a packet begins: if nobody else steps, it has counted at its end exactly
    the differing words among those whose numbers are multiples of 17.
    */
  lemma SpotCheckCounts(p: Params, s: State, rest: seq<Event>, j: nat, sb: nat, db: nat, n: nat)
    requires Valid(p) && s.cons == SpotGot(j, sb, db, n, 0) && n > 0
    requires forall k :: 0 <= k < |rest| ==> rest[k].Consume? && !Exec(p, s, rest[..k]).cons.Clear?
    requires Exec(p, s, rest).cons.Clear?
    ensures Exec(p, s, rest).errs == s.errs + BadSpots(s, sb, db, n) && Exec(p, s, rest).cons.job == j
  {
    SpotRun(p, s, rest, j, sb, db, n);
  }
}
