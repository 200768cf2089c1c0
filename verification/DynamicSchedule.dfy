/**
  The dynamic schedule: `__kmpc_dispatch_init_4` and `__kmpc_dispatch_next_4` of software/snRuntime/src/omp/kmp.c.
  Both bodies run under the event unit's mutex, so a run of a team is a sequence of whole calls in some order.
  */
module DynamicSchedule {
  import opened Arithmetic
  import opened Loops

  /** The loop fields of a team. */
  datatype Loop = Loop(start: int, end: int, incr: int, chunk: int, isSetup: bool)

  datatype Call = Init(lb: int, ub: int, st: int, chunk: int) | Next

  datatype Answer = NoAnswer | Exhausted | Grant(lb: int, ub: int, last: bool)

  /** One call: the loop afterwards and what the caller is told. */
  function Serve(l: Loop, c: Call): (Loop, Answer) {
    match c
    case Init(lb, ub, st, chunk) =>
      if l.isSetup then (l, NoAnswer) else (Loop(lb, ub, st, chunk, true), NoAnswer)
    case Next =>
      if l.start > l.end then
        (l.(isSetup := false), Exhausted)
      else
        var ub := l.start + l.chunk - 1;
        (l.(start := l.start + l.chunk), if ub >= l.end then Grant(l.start, l.end, true) else Grant(l.start, ub, false))
  }

  /** The loop and the answers after a history of calls. */
  function Exec(l: Loop, calls: seq<Call>): (r: (Loop, seq<Answer>))
    ensures |r.1| == |calls|
  {
    if calls == [] then (l, [])
    else
      var (before, answers) := Exec(l, calls[..|calls| - 1]);
      var (after, answer) := Serve(before, calls[|calls| - 1]);
      (after, answers + [answer])
  }

  // ----- What a history hands out -----

  /** The ranges among the answers, in order. */
  function Granted(answers: seq<Answer>): seq<Answer> {
    if answers == [] then []
    else Granted(answers[..|answers| - 1]) + (if answers[|answers| - 1].Grant? then [answers[|answers| - 1]] else [])
  }

  /** How many calls set the loop up. */
  function Setups(l: Loop, calls: seq<Call>): nat {
    if calls == [] then 0
    else
      var before := calls[..|calls| - 1];
      Setups(l, before) + (if calls[|calls| - 1].Init? && !Exec(l, before).0.isSetup then 1 else 0)
  }

  function NextCalls(calls: seq<Call>): nat {
    if calls == [] then 0
    else NextCalls(calls[..|calls| - 1]) + (if calls[|calls| - 1].Next? then 1 else 0)
  }

  predicate Covers(a: Answer, x: int) {
    a.Grant? && a.lb <= x <= a.ub
  }

  /** How often iteration `x` is handed out. */
  function Times(answers: seq<Answer>, x: int): nat {
    if answers == [] then 0
    else Times(answers[..|answers| - 1], x) + (if Covers(answers[|answers| - 1], x) then 1 else 0)
  }

  /** The number of ranges of a loop. */
  function Count(lb: int, ub: int, chunk: int): nat
    requires chunk > 0
  {
    if ub < lb then 0
    else
      IterationBounds(lb, ub, chunk, 0);
      Size(lb, ub, chunk)
  }

  function Chunk(lb: int, ub: int, chunk: int, j: nat): Answer
    requires chunk > 0
  {
    Grant(lb + j * chunk, if lb + j * chunk + chunk - 1 < ub then lb + j * chunk + chunk - 1 else ub,
          j == Count(lb, ub, chunk) - 1)
  }

  /** The first `k` ranges of a loop. */
  function Chunks(lb: int, ub: int, chunk: int, k: nat): (s: seq<Answer>)
    requires chunk > 0
    ensures |s| == k && forall j :: 0 <= j < k ==> s[j] == Chunk(lb, ub, chunk, j)
  {
    if k == 0 then [] else Chunks(lb, ub, chunk, k - 1) + [Chunk(lb, ub, chunk, k - 1)]
  }

  function Repeat(s: seq<Answer>, m: nat): seq<Answer> {
    if m == 0 then [] else Repeat(s, m - 1) + s
  }

  /** The ranges that `m` complete passes and `k` ranges of a further one hand out. */
  function Passes(lb: int, ub: int, chunk: int, m: nat, k: nat): seq<Answer>
    requires chunk > 0
  {
    Repeat(Chunks(lb, ub, chunk, Count(lb, ub, chunk)), m) + Chunks(lb, ub, chunk, k)
  }

  function AtMost(a: nat, b: nat): nat {
    if a < b then a else b
  }

  /** A team's history of one loop: it starts with an `Init`, and every `Init` names the same loop. */
  ghost predicate OneLoop(l: Loop, calls: seq<Call>, lb: int, ub: int, chunk: int) {
    && !l.isSetup && calls != [] && calls[0].Init? && chunk > 0
    && forall i ::
        0 <= i < |calls| && calls[i].Init? ==> calls[i].lb == lb && calls[i].ub == ub && calls[i].chunk == chunk
  }

  lemma RangeLeft(lb: int, ub: int, chunk: int, k: nat)
    requires chunk > 0 && k <= Count(lb, ub, chunk)
    ensures lb + k * chunk <= ub <==> k < Count(lb, ub, chunk)
    ensures k < Count(lb, ub, chunk) ==> (lb + k * chunk + chunk - 1 >= ub <==> k + 1 == Count(lb, ub, chunk))
  {
    if lb <= ub {
      IterationBounds(lb, ub, chunk, k);
      IterationBounds(lb, ub, chunk, k + 1);
      ScaleOrder(0, k, chunk);
      Distribute(k, 1, chunk);
    }
  }

  /** The state of the team's loop after `k` ranges of the current pass. */
  predicate At(l: Loop, lb: int, ub: int, chunk: int, k: nat)
    requires chunk > 0
  {
    && k <= Count(lb, ub, chunk) && l.start == lb + k * chunk && l.end == ub && l.chunk == chunk
    && (!l.isSetup ==> k == Count(lb, ub, chunk))
  }

  /** `Next` in the k-th position hands out the k-th range. */
  lemma NextGrants(l: Loop, lb: int, ub: int, chunk: int, k: nat)
    requires chunk > 0 && At(l, lb, ub, chunk, k)
    ensures var (after, answer) := Serve(l, Next);
            if k < Count(lb, ub, chunk) then
              answer == Chunk(lb, ub, chunk, k) && At(after, lb, ub, chunk, k + 1) && after.isSetup == l.isSetup
            else answer == Exhausted && At(after, lb, ub, chunk, k) && !after.isSetup
  {
    RangeLeft(lb, ub, chunk, k);
    Distribute(k, 1, chunk);
  }

  /** One call more: what it does to the loop, the answers, and the counts of calls. */
  lemma OneMore(l: Loop, before: seq<Call>, call: Call)
    ensures var (state, answers) := Exec(l, before);
            var (after, answer) := Serve(state, call);
            var calls := before + [call];
            && Exec(l, calls) == (after, answers + [answer])
            && Granted(answers + [answer]) == Granted(answers) + (if answer.Grant? then [answer] else [])
            && Setups(l, calls) == Setups(l, before) + (if call.Init? && !state.isSetup then 1 else 0)
            && NextCalls(calls) == NextCalls(before) + (if call.Next? then 1 else 0)
  {
    assert (before + [call])[..|before|] == before;
    GrantedAppend(Exec(l, before).1, Serve(Exec(l, before).0, call).1);
  }

  /** The history has set the loop up, completed a pass for each earlier setup, and `k` ranges of the current one. */
  predicate SoFar(l: Loop, calls: seq<Call>, lb: int, ub: int, chunk: int, k: nat)
    requires chunk > 0
  {
    && Setups(l, calls) >= 1 && At(Exec(l, calls).0, lb, ub, chunk, k)
    && Granted(Exec(l, calls).1) == Passes(lb, ub, chunk, Setups(l, calls) - 1, k)
    && (Setups(l, calls) == 1 ==> k == AtMost(NextCalls(calls), Count(lb, ub, chunk)))
  }

  lemma FirstInit(l: Loop, call: Call)
    requires !l.isSetup && call.Init? && call.chunk > 0
    ensures SoFar(l, [call], call.lb, call.ub, call.chunk, 0)
  {
    OneMore(l, [], call);
    assert [] + [call] == [call];
  }

  lemma NextOnce(l: Loop, before: seq<Call>, lb: int, ub: int, chunk: int, j: nat)
    requires chunk > 0 && SoFar(l, before, lb, ub, chunk, j)
    ensures SoFar(l, before + [Next], lb, ub, chunk, if j < Count(lb, ub, chunk) then j + 1 else j)
  {
    OneMore(l, before, Next);
    NextGrants(Exec(l, before).0, lb, ub, chunk, j);
    PassesGrow(lb, ub, chunk, Setups(l, before) - 1, j);
  }

  lemma PassesGrow(lb: int, ub: int, chunk: int, m: nat, j: nat)
    requires chunk > 0
    ensures Passes(lb, ub, chunk, m, j + 1) == Passes(lb, ub, chunk, m, j) + [Chunk(lb, ub, chunk, j)]
  {}

  lemma PassCompletes(lb: int, ub: int, chunk: int, m: nat)
    requires chunk > 0
    ensures Passes(lb, ub, chunk, m, Count(lb, ub, chunk)) == Passes(lb, ub, chunk, m + 1, 0)
  {
    assert Repeat(Chunks(lb, ub, chunk, Count(lb, ub, chunk)), m + 1) + [] ==
           Repeat(Chunks(lb, ub, chunk, Count(lb, ub, chunk)), m + 1);
  }

  /** A late init sets the loop up again. */
  lemma InitAgain(l: Loop, before: seq<Call>, call: Call, lb: int, ub: int, chunk: int, j: nat)
    requires call.Init? && call == Init(lb, ub, call.st, chunk) && chunk > 0 && !Exec(l, before).0.isSetup
    requires SoFar(l, before, lb, ub, chunk, j)
    ensures SoFar(l, before + [call], lb, ub, chunk, 0)
  {
    OneMore(l, before, call);
    PassCompletes(lb, ub, chunk, Setups(l, before) - 1);
  }

  lemma InitIgnored(l: Loop, before: seq<Call>, call: Call, lb: int, ub: int, chunk: int, j: nat)
    requires call.Init? && chunk > 0 && Exec(l, before).0.isSetup
    requires SoFar(l, before, lb, ub, chunk, j)
    ensures SoFar(l, before + [call], lb, ub, chunk, j)
  {
    OneMore(l, before, call);
  }

  /**
    Everything that a history hands out: whole passes over the loop, one per earlier setup, and the first `k`
    ranges of the current pass.
    */
  lemma {:induction false} HandsOutPasses(l: Loop, calls: seq<Call>, lb: int, ub: int, chunk: int) returns (k: nat)
    requires OneLoop(l, calls, lb, ub, chunk)
    ensures SoFar(l, calls, lb, ub, chunk, k)
    decreases |calls|
  {
    var before, call := calls[..|calls| - 1], calls[|calls| - 1];
    assert calls == before + [call];
    if before == [] {
      k := 0;
      FirstInit(l, call);
    } else {
      assert before[0] == calls[0];
      var j := HandsOutPasses(l, before, lb, ub, chunk);
      if call.Next? {
        k := if j < Count(lb, ub, chunk) then j + 1 else j;
        NextOnce(l, before, lb, ub, chunk, j);
      } else {
        if Exec(l, before).0.isSetup {
          k := j;
          InitIgnored(l, before, call, lb, ub, chunk, j);
        } else {
          k := 0;
          InitAgain(l, before, call, lb, ub, chunk, j);
        }
      }
    }
  }

  lemma GrantedAppend(answers: seq<Answer>, a: Answer)
    ensures Granted(answers + [a]) == Granted(answers) + (if a.Grant? then [a] else [])
  {
    assert (answers + [a])[..|answers|] == answers;
  }

  // ----- How often each iteration is handed out -----

  lemma TimesOne(answers: seq<Answer>, a: Answer, x: int)
    ensures Times(answers + [a], x) == Times(answers, x) + (if Covers(a, x) then 1 else 0)
  {
    assert (answers + [a])[..|answers|] == answers;
  }

  lemma {:induction false} TimesGranted(answers: seq<Answer>, x: int)
    ensures Times(Granted(answers), x) == Times(answers, x)
  {
    if answers != [] {
      var before, a := answers[..|answers| - 1], answers[|answers| - 1];
      TimesGranted(before, x);
      TimesOne(Granted(before), a, x);
      assert a.Grant? ==> Granted(answers) == Granted(before) + [a];
      assert !a.Grant? ==> Granted(answers) == Granted(before);
    }
  }

  lemma {:induction false} TimesConcat(a: seq<Answer>, b: seq<Answer>, x: int)
    ensures Times(a + b, x) == Times(a, x) + Times(b, x)
  {
    if b == [] {
      assert a + b == a;
    } else {
      var before, last := b[..|b| - 1], b[|b| - 1];
      TimesConcat(a, before, x);
      TimesOne(a + before, last, x);
      assert a + b == a + before + [last];
    }
  }

  lemma {:induction false} TimesRepeat(s: seq<Answer>, m: nat, x: int)
    requires Times(s, x) <= 1
    ensures Times(Repeat(s, m), x) == if Times(s, x) == 1 then m else 0
  {
    if m > 0 {
      TimesRepeat(s, m - 1, x);
      TimesConcat(Repeat(s, m - 1), s, x);
    }
  }

  lemma CoversChunk(lb: int, ub: int, chunk: int, j: nat, x: int)
    requires chunk > 0
    ensures Covers(Chunk(lb, ub, chunk, j), x) <==> x <= ub && lb + j * chunk <= x < lb + (j + 1) * chunk
    ensures 0 <= j * chunk <= (j + 1) * chunk
  {
    Distribute(j, 1, chunk);
    ScaleOrder(0, j, chunk);
  }

  /** The first `k` ranges hand out the iterations before the cursor, each once, and nothing else. */
  lemma {:induction false} TimesChunks(lb: int, ub: int, chunk: int, k: nat, x: int)
    requires chunk > 0
    ensures Times(Chunks(lb, ub, chunk, k), x) == if lb <= x <= ub && x < lb + k * chunk then 1 else 0
  {
    if k > 0 {
      TimesChunks(lb, ub, chunk, k - 1, x);
      TimesOne(Chunks(lb, ub, chunk, k - 1), Chunk(lb, ub, chunk, k - 1), x);
      CoversChunk(lb, ub, chunk, k - 1, x);
    }
  }

  /** A complete pass hands out every iteration once. */
  lemma TimesPass(lb: int, ub: int, chunk: int, x: int)
    requires chunk > 0
    ensures Times(Chunks(lb, ub, chunk, Count(lb, ub, chunk)), x) == if lb <= x <= ub then 1 else 0
  {
    TimesChunks(lb, ub, chunk, Count(lb, ub, chunk), x);
    RangeLeft(lb, ub, chunk, Count(lb, ub, chunk));
  }

  lemma TimesPasses(lb: int, ub: int, chunk: int, m: nat, k: nat, x: int)
    requires chunk > 0
    ensures Times(Passes(lb, ub, chunk, m, k), x)
         == if lb <= x <= ub then m + (if x < lb + k * chunk then 1 else 0) else 0
  {
    var pass := Chunks(lb, ub, chunk, Count(lb, ub, chunk));
    TimesConcat(Repeat(pass, m), Chunks(lb, ub, chunk, k), x);
    TimesPass(lb, ub, chunk, x);
    TimesRepeat(pass, m, x);
    TimesChunks(lb, ub, chunk, k, x);
  }

  /** Each iteration has been handed out once per setup, save that the current pass has not come to it yet. */
  lemma HandedOutEqually(l: Loop, calls: seq<Call>, lb: int, ub: int, chunk: int, x: int)
    requires OneLoop(l, calls, lb, ub, chunk)
    ensures var (after, answers) := Exec(l, calls);
            Times(answers, x) == if lb <= x <= ub then Setups(l, calls) - (if x >= after.start then 1 else 0) else 0
  {
    var k := HandsOutPasses(l, calls, lb, ub, chunk);
    var (after, answers) := Exec(l, calls);
    TimesGranted(answers, x);
    TimesOfPasses(answers, lb, ub, chunk, Setups(l, calls), k, after.start, x);
  }

  lemma TimesOfPasses(answers: seq<Answer>, lb: int, ub: int, chunk: int, setups: nat, k: nat, start: int, x: int)
    requires chunk > 0 && setups > 0 && k <= Count(lb, ub, chunk) && start == lb + k * chunk
    requires Granted(answers) == Passes(lb, ub, chunk, setups - 1, k) && Times(Granted(answers), x) == Times(answers, x)
    ensures Times(answers, x) == if lb <= x <= ub then setups - (if x >= start then 1 else 0) else 0
  {
    TimesPasses(lb, ub, chunk, setups - 1, k, x);
  }

  /**
    Within one setup, whatever the interleaving: the j-th answered `Next` gets the j-th range, as long as there
    are ranges; so `q` calls get the first min(q, count) of them.
    */
  lemma OneSetup(l: Loop, calls: seq<Call>, lb: int, ub: int, chunk: int)
    requires OneLoop(l, calls, lb, ub, chunk) && Setups(l, calls) == 1
    ensures var q, count := NextCalls(calls), Count(lb, ub, chunk);
            Granted(Exec(l, calls).1) == Chunks(lb, ub, chunk, if q < count then q else count)
  {
    var k := HandsOutPasses(l, calls, lb, ub, chunk);
    assert Repeat(Chunks(lb, ub, chunk, Count(lb, ub, chunk)), 0) == [];
  }

  /** The ranges are in order, follow each other without gap from `lb` to `ub`, and only the final one is last. */
  lemma ChunksPartition(lb: int, ub: int, chunk: int, j: nat)
    requires chunk > 0 && j < Count(lb, ub, chunk)
    ensures var c := Chunk(lb, ub, chunk, j);
            && c.lb <= c.ub <= ub && c.ub - c.lb < chunk
            && (j == 0 ==> c.lb == lb)
            && (if c.last then c.ub == ub && j == Count(lb, ub, chunk) - 1
                else
                  && c.ub + 1 == Chunk(lb, ub, chunk, j + 1).lb
                  && j + 1 < Count(lb, ub, chunk) && c.ub - c.lb == chunk - 1)
  {
    RangeLeft(lb, ub, chunk, j);
    Distribute(j, 1, chunk);
  }

  /** The number of ranges is the number of iterations divided by the chunk size, rounded up. */
  lemma CountIsCeiling(lb: int, ub: int, chunk: int)
    requires chunk > 0 && lb <= ub
    ensures var n, count := ub - lb + 1, Count(lb, ub, chunk); (count - 1) * chunk < n <= count * chunk
  {
    DivBounds(ub - lb, chunk);
  }

  // ----- When a loop is handed out exactly once -----

  /** Some member sets the loop up again: more calls of `Next` than the loop has ranges come before its `Init`. */
  ghost predicate LateInit(calls: seq<Call>, count: nat) {
    exists j :: 0 <= j < |calls| && IsLate(calls, count, j)
  }

  predicate IsLate(calls: seq<Call>, count: nat, j: nat)
    requires j < |calls|
  {
    calls[j].Init? && NextCalls(calls[..j]) > count
  }

  lemma LateInitStep(calls: seq<Call>, count: nat)
    requires calls != []
    ensures var before, last := calls[..|calls| - 1], |calls| - 1;
            LateInit(calls, count) <==> LateInit(before, count) || IsLate(calls, count, last)
  {
    var before, last := calls[..|calls| - 1], |calls| - 1;
    forall j | 0 <= j < last
      ensures IsLate(calls, count, j) == IsLate(before, count, j)
    {
      assert calls[..j] == before[..j];
    }
    if LateInit(before, count) {
      var j :| 0 <= j < |before| && IsLate(before, count, j);
      assert IsLate(calls, count, j);
    }
  }

  /** There is a second setup exactly if there is a late init; until then the loop is set up until it is exhausted. */
  lemma {:induction false} SetupsCountLateInits(l: Loop, calls: seq<Call>, lb: int, ub: int, chunk: int)
    requires OneLoop(l, calls, lb, ub, chunk)
    ensures Setups(l, calls) >= 1
    ensures Setups(l, calls) == 1 <==> !LateInit(calls, Count(lb, ub, chunk))
    ensures Setups(l, calls) == 1 ==>
              (Exec(l, calls).0.isSetup <==> NextCalls(calls) <= Count(lb, ub, chunk))
  {
    var before, call := calls[..|calls| - 1], calls[|calls| - 1];
    LateInitStep(calls, Count(lb, ub, chunk));
    if before != [] {
      SetupsCountLateInits(l, before, lb, ub, chunk);
      assert calls == before + [call];
      StaysSetUp(l, before, call, lb, ub, chunk);
    }
  }

  lemma StaysSetUp(l: Loop, before: seq<Call>, call: Call, lb: int, ub: int, chunk: int)
    requires before != [] && OneLoop(l, before, lb, ub, chunk)
    requires Setups(l, before) == 1 ==> (Exec(l, before).0.isSetup <==> NextCalls(before) <= Count(lb, ub, chunk))
    ensures var calls := before + [call];
            Setups(l, before) == 1 && Setups(l, calls) == 1 ==>
              (Exec(l, calls).0.isSetup <==> NextCalls(calls) <= Count(lb, ub, chunk))
  {
    var calls := before + [call];
    assert calls[..|before|] == before;
    if Setups(l, before) == 1 {
      var k := HandsOutPasses(l, before, lb, ub, chunk);
      NextGrants(Exec(l, before).0, lb, ub, chunk, k);
    }
  }

  /** The team is done: a member has been told that the loop is exhausted, and no new pass has begun. */
  predicate Done(l: Loop) {
    l.start > l.end
  }

  /** Every iteration has been handed out exactly once, and nothing else. */
  ghost predicate ExactlyOnce(answers: seq<Answer>, lb: int, ub: int) {
    forall x :: Times(answers, x) == if lb <= x <= ub then 1 else 0
  }

  lemma NoLateInitOnce(l: Loop, calls: seq<Call>, lb: int, ub: int, chunk: int)
    requires OneLoop(l, calls, lb, ub, chunk) && Done(Exec(l, calls).0) && !LateInit(calls, Count(lb, ub, chunk))
    ensures ExactlyOnce(Exec(l, calls).1, lb, ub)
  {
    SetupsCountLateInits(l, calls, lb, ub, chunk);
    DoneHandsOutEqually(l, calls, lb, ub, chunk);
  }

  lemma LateInitTwice(l: Loop, calls: seq<Call>, lb: int, ub: int, chunk: int)
    requires OneLoop(l, calls, lb, ub, chunk) && lb <= ub && Done(Exec(l, calls).0)
    requires LateInit(calls, Count(lb, ub, chunk))
    ensures Times(Exec(l, calls).1, lb) > 1
  {
    SetupsCountLateInits(l, calls, lb, ub, chunk);
    DoneHandsOutEqually(l, calls, lb, ub, chunk);
  }

  lemma DoneHandsOutEqually(l: Loop, calls: seq<Call>, lb: int, ub: int, chunk: int)
    requires OneLoop(l, calls, lb, ub, chunk) && Done(Exec(l, calls).0)
    ensures forall x :: Times(Exec(l, calls).1, x) == if lb <= x <= ub then Setups(l, calls) else 0
  {
    var answers := Exec(l, calls).1;
    var k := HandsOutPasses(l, calls, lb, ub, chunk);
    forall x
      ensures Times(answers, x) == if lb <= x <= ub then Setups(l, calls) else 0
    {
      HandedOutEqually(l, calls, lb, ub, chunk, x);
    }
  }

  /**
    After a complete run every iteration of a non-empty loop has been handed out exactly once if and only if
    no member's `Init` comes after more calls of `Next` than the loop has ranges.
    */
  lemma ExactlyOnceIff(l: Loop, calls: seq<Call>, lb: int, ub: int, chunk: int)
    requires OneLoop(l, calls, lb, ub, chunk) && lb <= ub && Done(Exec(l, calls).0)
    ensures ExactlyOnce(Exec(l, calls).1, lb, ub) <==> !LateInit(calls, Count(lb, ub, chunk))
  {
    if LateInit(calls, Count(lb, ub, chunk)) {
      LateInitTwice(l, calls, lb, ub, chunk);
    } else {
      NoLateInitOnce(l, calls, lb, ub, chunk);
    }
  }

  // ----- Loops that follow each other -----

  /** One loop of a program, and the calls that the team makes for it, up to the barrier at its end. */
  datatype Episode = Episode(lb: int, ub: int, chunk: int, calls: seq<Call>)

  /** All members' inits come before the loop is exhausted, and some member has been told that it is. */
  ghost predicate Orderly(e: Episode) {
    && e.calls != [] && e.calls[0].Init? && e.chunk > 0
    && (forall i :: 0 <= i < |e.calls| && e.calls[i].Init? ==>
          e.calls[i].lb == e.lb && e.calls[i].ub == e.ub && e.calls[i].chunk == e.chunk)
    && !LateInit(e.calls, Count(e.lb, e.ub, e.chunk))
    && NextCalls(e.calls) > Count(e.lb, e.ub, e.chunk)
  }

  /** The state of the team after a number of episodes. */
  function After(l: Loop, episodes: seq<Episode>): Loop {
    if episodes == [] then l
    else Exec(After(l, episodes[..|episodes| - 1]), episodes[|episodes| - 1].calls).0
  }

  /** An orderly episode hands its loop out exactly once and leaves the team ready for the next one. */
  lemma OrderlyEpisode(l: Loop, e: Episode)
    requires !l.isSetup && Orderly(e)
    ensures !Exec(l, e.calls).0.isSetup && ExactlyOnce(Exec(l, e.calls).1, e.lb, e.ub)
  {
    SetupsCountLateInits(l, e.calls, e.lb, e.ub, e.chunk);
    var k := HandsOutPasses(l, e.calls, e.lb, e.ub, e.chunk);
    RangeLeft(e.lb, e.ub, e.chunk, k);
    NoLateInitOnce(l, e.calls, e.lb, e.ub, e.chunk);
  }

  /** Loops that follow each other, with a barrier between them, are each handed out exactly once. */
  lemma {:induction false} SuccessiveLoops(l: Loop, episodes: seq<Episode>)
    requires !l.isSetup && forall i :: 0 <= i < |episodes| ==> Orderly(episodes[i])
    ensures !After(l, episodes).isSetup
    ensures forall i :: 0 <= i < |episodes| ==> EpisodeExact(l, episodes, i)
  {
    if episodes != [] {
      var k := |episodes| - 1;
      SuccessiveLoops(l, episodes[..k]);
      OrderlyEpisode(After(l, episodes[..k]), episodes[k]);
      forall i | 0 <= i < k
        ensures EpisodeExact(l, episodes, i)
      {
        assert EpisodeExact(l, episodes[..k], i) && episodes[..k][..i] == episodes[..i];
      }
    }
  }

  ghost predicate EpisodeExact(l: Loop, episodes: seq<Episode>, i: nat)
    requires i < |episodes|
  {
    ExactlyOnce(Exec(After(l, episodes[..i]), episodes[i].calls).1, episodes[i].lb, episodes[i].ub)
  }

  /** Two threads on one iteration: the second one's late `Init` makes it run the iteration again. */
  lemma LateInitCounterexample(l: Loop)
    requires !l.isSetup
    ensures Times(Exec(l, [Init(0, 0, 1, 1), Next, Next, Init(0, 0, 1, 1), Next]).1, 0) == 2
  {
    var init := Init(0, 0, 1, 1);
    var armed, done := Loop(0, 0, 1, 1, true), Loop(1, 0, 1, 1, false);
    var grant := Grant(0, 0, true);
    var all := [init, Next, Next, init, Next];
    ExecOne(l, all[..0], init);
    ExecOne(l, all[..1], Next);
    ExecOne(l, all[..2], Next);
    ExecOne(l, all[..3], init);
    ExecOne(l, all[..4], Next);
    assert all[..0] + [init] == all[..1] && all[..1] + [Next] == all[..2] && all[..2] + [Next] == all[..3];
    assert all[..3] + [init] == all[..4] && all[..4] + [Next] == all;
    var answers := [NoAnswer, grant, Exhausted, NoAnswer, grant];
    assert answers[..0] + [NoAnswer] == answers[..1] && answers[..1] + [grant] == answers[..2];
    assert answers[..2] + [Exhausted] == answers[..3] && answers[..3] + [NoAnswer] == answers[..4];
    assert answers[..4] + [grant] == answers;
    assert Exec(l, all[..1]) == (armed, answers[..1]);
    assert Exec(l, all[..2]) == (done.(isSetup := true), answers[..2]);
    assert Exec(l, all[..3]) == (done, answers[..3]);
    assert Exec(l, all[..4]) == (armed, answers[..4]);
    assert Exec(l, all).1 == answers;
    TimesOne(answers[..0], NoAnswer, 0);
    TimesOne(answers[..1], grant, 0);
    TimesOne(answers[..2], Exhausted, 0);
    TimesOne(answers[..3], NoAnswer, 0);
    TimesOne(answers[..4], grant, 0);
  }

  lemma ExecOne(l: Loop, calls: seq<Call>, c: Call)
    ensures var (before, answers) := Exec(l, calls);
            Exec(l, calls + [c]) == (Serve(before, c).0, answers + [Serve(before, c).1])
  {
    assert (calls + [c])[..|calls|] == calls;
  }

  // ----- The team's fields -----

  const INT32_MAX: int := 0x7fff_ffff

  class Team {
    var loop_start: int
    var loop_end: int
    var loop_incr: int
    var loop_chunk: int
    var loop_is_setup: bool

    constructor ()
      ensures View() == Loop(0, 0, 0, 0, false)
    {
      loop_start, loop_end, loop_incr, loop_chunk, loop_is_setup := 0, 0, 0, 0, false;
    }

    function View(): Loop
      reads this
    {
      Loop(loop_start, loop_end, loop_incr, loop_chunk, loop_is_setup)
    }

    /** The next range can be computed without signed overflow. */
    predicate Fits()
      reads this
    {
      loop_start <= loop_end ==> loop_start + loop_chunk <= INT32_MAX
    }

    /** `__kmpc_dispatch_init_4` */
    method DispatchInit(lb: int, ub: int, st: int, chunk: int)
      modifies this
      ensures View() == Serve(old(View()), Init(lb, ub, st, chunk)).0
    {
      if !loop_is_setup {
        loop_is_setup := true;
        loop_start := lb;
        loop_end := ub;
        loop_incr := st;
        loop_chunk := chunk;
      }
    }

    /**
      `__kmpc_dispatch_next_4`: `last0`, `lb0` and `ub0` are what the out-pointers held before.  The last flag
      is raised but never lowered.
      */
    method DispatchNext(last0: bool, lb0: int, ub0: int) returns (work: bool, last: bool, lb: int, ub: int, st: int)
      requires Fits()
      modifies this
      ensures View() == Serve(old(View()), Next).0 && st == 1
      ensures var answer := Serve(old(View()), Next).1;
              && work == answer.Grant?
              && (if work then lb == answer.lb && ub == answer.ub && last == (last0 || answer.last)
                  else lb == lb0 && ub == ub0 && last == last0)
    {
      last, lb, ub, st := last0, lb0, ub0, 1;
      if loop_start > loop_end {
        loop_is_setup := false;
        work := false;
        return;
      }
      lb := loop_start;
      ub := lb + loop_chunk - 1;
      if ub >= loop_end {
        ub := loop_end;
        last := true;
      }
      loop_start := loop_start + loop_chunk;
      work := true;
    }

    /** A whole history of calls, in the order in which the calls obtain the mutex. */
    method Run(calls: seq<Call>, ghost lb: int, ghost ub: int, ghost chunk: int) returns (answers: seq<Answer>)
      requires OneLoop(View(), calls, lb, ub, chunk) && ub + chunk <= INT32_MAX
      modifies this
      ensures (View(), answers) == Exec(old(View()), calls)
    {
      answers := [];
      var i := 0;
      while i < |calls|
        invariant 0 <= i <= |calls|
        invariant (View(), answers) == Exec(old(View()), calls[..i])
      {
        ghost var before := View();
        assert calls[..i + 1][..i] == calls[..i];
        match calls[i] {
          case Init(first, end, st, size) =>
            DispatchInit(first, end, st, size);
            answers := answers + [NoAnswer];
          case Next =>
            ghost var k := HandsOutPasses(old(View()), calls[..i], lb, ub, chunk);
            var work, last, first, end, st := DispatchNext(false, 0, 0);
            answers := answers + [if work then Grant(first, end, last) else Exhausted];
        }
        assert (View(), answers[i]) == Serve(before, calls[i]);
        i := i + 1;
      }
      assert calls[..|calls|] == calls;
    }
  }
}
