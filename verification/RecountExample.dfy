/** A run from genesis at whose end a solution is accepted that one validation verifies, where two are
    required: a later thread's acceptance stores its counter, and the next block counts on from there. */
module RecountExample {
  import opened Basics
  import opened Protocol
  import opened Splitting
  import opened Verification
  import opened CliCodec
  import opened Handlers
  import opened Blocks
  import opened Invariant
  import opened Runs
  import opened Escrow
  import opened Verdicts
  import opened Counts
  import opened Stories

  /** The signed frame. */
  function Signed(c: Cast): Frame
    requires EQUALS in c.signed
  {
    SignedFrame(c.signed)
  }

  /** The reveal belongs to the signed frame, and its signature verifies for both workers. */
  ghost predicate Verifies(env: Env, c: Cast) {
    && EQUALS in c.signed && ParseEntry(c.revealed).Some?
    && var (f, r) := (Signed(c), ParseEntry(c.revealed).value);
       && r.filename == f.filename && r.cid != [] && r.hash != []
       && env.keyDecodes(c.key) && env.signatureDecodes(f.signature)
       && forall x | x == c.a || x == c.b ::
            env.messageBuilds(r.hash, x) && env.verifies(c.key, r.hash, x, f.signature)
  }

  /** The frame after the reveal, with a counter. */
  function Shown(c: Cast, valid: int): Frame
    requires EQUALS in c.signed && ParseEntry(c.revealed).Some?
  {
    var r := ParseEntry(c.revealed).value;
    Signed(c).(cid := r.cid, hash := r.hash, validCount := valid)
  }

  function Vote(c: Cast, x: Str, reverse: bool): Validation
    requires EQUALS in c.signed
  {
    Validation(x, [Signed(c)], c.key, reverse)
  }

  /** Thread 0 before it is judged: workers a and b, the proposer's vote and an empty one. */
  function First(c: Cast, valid: int, accepted: bool): Thread
    requires EQUALS in c.signed && ParseEntry(c.revealed).Some?
  {
    NewOne(0).(workers := [c.a, c.b],
      solution := Some(Solution(c.a, [Shown(c, valid)], c.key, [], accepted)),
      validations := [Vote(c, c.a, false), Validation(c.a, [], c.key, false)])
  }

  /** Thread 1: worker b alone. */
  function Second(c: Cast, valid: int, accepted: bool): Thread
    requires EQUALS in c.signed && ParseEntry(c.revealed).Some?
  {
    NewOne(1).(workers := [c.b],
      solution := Some(Solution(c.b, [Shown(c, valid)], c.key, [], accepted)),
      validations := [Vote(c, c.b, false)])
  }

  // ---------- judging ----------

  lemma Votes(env: Env, c: Cast, x: Str, valid: int, reverse: bool)
    requires Verifies(env, c) && (x == c.a || x == c.b)
    ensures Judge(env, Shown(c, valid), Vote(c, x, reverse)) == Good
    ensures Judge(env, Shown(c, valid), Validation(x, [], c.key, reverse)) == Absent
  {
  }

  lemma TallyOne(env: Env, f: Frame, v: Validation)
    requires Judge(env, f, v) == Good
    ensures Tally(env, f, [v]) == (f.(validCount := f.validCount + 1), true) && Count(env, f, [v], Good) == 1
  {
    assert [v][..0] == [];
    assert Tally(env, f, []) == (f, true) && Count(env, f, [], Good) == 0;
  }

  lemma TallyTwo(env: Env, f: Frame, v: Validation, w: Validation)
    requires Judge(env, f, v) == Good && Judge(env, f, w) == Absent
    ensures Tally(env, f, [v, w]) == (f.(validCount := f.validCount + 1), true) && Count(env, f, [v, w], Good) == 1
  {
    TallyOne(env, f, v);
    assert [v, w][..1] == [v];
  }

  lemma OneFrame(env: Env, th: Thread, f: Frame, g: Frame)
    requires th.solution.Some? && th.solution.value.frames == [f]
    requires Tally(env, f, th.validations) == (g, true)
    ensures Evaluated(env, th) == WithFrames(th, [g])
    ensures Accepts(Evaluated(env, th)) <==> g.validCount >= MinValidValidations(th.workers)
  {
    assert TallyAll(env, [f], th.validations, 0) == ([f], true);
    assert TallyAll(env, [f], th.validations, 1).0 == [g];
    var passing := Passing([g], MinValidValidations(th.workers));
    if g.validCount >= MinValidValidations(th.workers) { assert passing == {0}; } else { assert passing == {}; }
  }

  lemma FirstJudged(env: Env, c: Cast, valid: int)
    requires Verifies(env, c)
    ensures Due(First(c, valid, false)) && Evaluated(env, First(c, valid, false)) == First(c, valid + 1, false)
    ensures Takes(env, First(c, valid, false)) <==> valid >= 1
    ensures |Endorsers(env, Shown(c, valid), First(c, valid, false).validations)| == 1
  {
    hide Judge;
    Votes(env, c, c.a, valid, false);
    TallyTwo(env, Shown(c, valid), Vote(c, c.a, false), Validation(c.a, [], c.key, false));
    OneFrame(env, First(c, valid, false), Shown(c, valid), Shown(c, valid + 1));
    CountsVerdicts(env, Shown(c, valid), First(c, valid, false).validations);
  }

  lemma SecondJudged(env: Env, c: Cast)
    requires Verifies(env, c)
    ensures Takes(env, Second(c, 0, false)) && Looked(env, Second(c, 0, false)) == Second(c, 1, true)
    ensures !Due(Second(c, 1, true))
  {
    hide Judge;
    Votes(env, c, c.b, 0, false);
    TallyOne(env, Shown(c, 0), Vote(c, c.b, false));
    OneFrame(env, Second(c, 0, false), Shown(c, 0), Shown(c, 1));
  }

  /** The first block accepts thread 1 and stores the counter of thread 0; the second accepts thread 0. */
  lemma TwoBlocks(env: Env, c: Cast, t: Task)
    requires Verifies(env, c) && !t.completed && t.threads == [First(c, 0, false), Second(c, 0, false)]
    ensures Recounted(env, t.threads, 0)
    ensures BegunTask(env, t) == t.(threads := [First(c, 1, false), Second(c, 1, true)])
    ensures BegunTask(env, BegunTask(env, t)) == t.(threads := [First(c, 2, true), Second(c, 1, true)])
  {
    hide Due, Accepts, Evaluated, Scan, First, Second;
    FirstJudged(env, c, 0);
    FirstJudged(env, c, 1);
    SecondJudged(env, c);
    FirstLooked(env, c, 0);
    FirstLooked(env, c, 1);
    PairScanned(env, t.threads);
    PairScanned(env, [First(c, 1, false), Second(c, 1, true)]);
    FirstRecounted(env, c);
  }

  lemma PairScanned(env: Env, ths: seq<Thread>)
    requires |ths| == 2
    ensures Scan(env, ths, 2).1 == [
      if Takes(env, ths[0]) || Takes(env, ths[1]) then Looked(env, ths[0]) else ths[0],
      if Takes(env, ths[1]) then Looked(env, ths[1]) else ths[1]]
  {
    hide Takes, Looked, Scan;
    ScanStored(env, ths, 2, 0);
    ScanStored(env, ths, 2, 1);
  }

  lemma FirstLooked(env: Env, c: Cast, valid: int)
    requires Verifies(env, c)
    ensures Looked(env, First(c, valid, false)) == First(c, valid + 1, valid >= 1)
  {
    hide Due, Accepts, Evaluated;
    FirstJudged(env, c, valid);
  }

  lemma FirstRecounted(env: Env, c: Cast)
    requires Verifies(env, c)
    ensures Recounted(env, [First(c, 0, false), Second(c, 0, false)], 0)
  {
    hide Accepts, Evaluated;
    var ths := [First(c, 0, false), Second(c, 0, false)];
    FirstJudged(env, c, 0);
    SecondJudged(env, c);
    assert Takes(env, ths[1]);
    assert LaterTaken(env, ths, 0);
  }

  // ---------- the run ----------

  lemma RevealsOne(env: Env, c: Cast)
    requires Verifies(env, c)
    ensures RevealOf([Signed(c)], [c.revealed]) == Some([Shown(c, 0)])
  {
    var r := ParseEntry(c.revealed).value;
    assert [c.revealed][..0] == [];
    assert FramesOf([]) == map[];
    assert FramesOf([c.revealed]) == map[r.filename := r];
    assert RevealedFrames([Signed(c)], FramesOf([c.revealed])) == [Shown(c, 0)];
  }

  /** Worker a validates twice, b joins, and a reveals. */
  function FirstDone(g: State, c: Cast): seq<Event>
  {
    Proposal(g, c)
      + [Tx(Validate(c, c.a, 0, [c.signed]))] + [Tx(Validate(c, c.a, 0, []))]
      + [Tx(Join(c.b, 0))] + [Tx(Reveal(c, c.a, 0))]
  }

  lemma OneSigned(c: Cast)
    requires EQUALS in c.signed
    ensures Parses([c.signed]) && SignedFrames([c.signed]) == [Signed(c)] && SignedFrames([]) == []
  {
  }

  lemma Direction(x: Str)
    ensures !Reverse([x], x)
  {
    assert [x][..0] == [];
  }

  lemma FirstIsDone(env: Env, g: State, c: Cast)
    requires Ready(env, g, c) && Verifies(env, c)
    ensures var s := Run(env, g, FirstDone(g, c));
      Scene(s, [First(c, 0, false), NewOne(1)], c, Some(0), Some(0)) && s.params == g.params
  {
    hide Scene, Itoa, ThreadId, Proposal, RevealOf, SignedFrame, Reverse, ParseEntry, Step;
    OneSigned(c);
    Direction(c.a);
    RevealsOne(env, c);
    var th0 := WithSolution(c, WithWorker(NewOne(0), c.a), c.a);
    var th1 := th0.(validations := [Vote(c, c.a, false)]);
    var th2 := th0.(validations := First(c, 0, false).validations);
    var th3 := th2.(workers := [c.a, c.b]);
    var e0 := Proposal(g, c);
    var e1 := e0 + [Tx(Validate(c, c.a, 0, [c.signed]))];
    var e2 := e1 + [Tx(Validate(c, c.a, 0, []))];
    var e3 := e2 + [Tx(Join(c.b, 0))];
    Proposed0(env, g, c);
    assert th0.workers == [c.a];
    assert WithValidation(c, th0, c.a, [c.signed]) == th1;
    assert WithValidation(c, th1, c.a, []) == th2;
    assert WithWorker(th2, c.b) == th3;
    Vote0(env, g, e0, c, th0, [c.signed]);
    Vote0(env, g, e1, c, th1, []);
    var ths := [th2, NewOne(1)];
    JoinGoes(env, Run(env, g, e2), c, ths, c.b, 0, Some(0), None);
    Continues(env, g, e2, Tx(Join(c.b, 0)));
    assert ths[0 := th3] == [th3, NewOne(1)];
    ths := [th3, NewOne(1)];
    RevealGoes(env, Run(env, g, e3), c, ths, c.a, 0, Some(0), Some(0));
    Continues(env, g, e3, Tx(Reveal(c, c.a, 0)));
    assert WithFrames(th3, [Shown(c, 0)]) == First(c, 0, false);
    assert ths[0 := First(c, 0, false)] == [First(c, 0, false), NewOne(1)];
  }

  /** The proposer of thread 0 validates. */
  lemma Vote0(env: Env, g: State, es: seq<Event>, c: Cast, th: Thread, entries: seq<Str>)
    requires Scene(Run(env, g, es), [th, NewOne(1)], c, Some(0), None) && Run(env, g, es).params == g.params
    requires c.a in th.workers && Proposes(th, c.a) && Parses(entries)
    ensures var s := Run(env, g, es + [Tx(Validate(c, c.a, 0, entries))]);
      Scene(s, [WithValidation(c, th, c.a, entries), NewOne(1)], c, Some(0), None) && s.params == g.params
  {
    hide Scene, Itoa, ThreadId;
    var ths := [th, NewOne(1)];
    ValidateGoes(env, Run(env, g, es), c, ths, c.a, 0, entries, Some(0), None);
    Continues(env, g, es, Tx(Validate(c, c.a, 0, entries)));
    assert ths[0 := WithValidation(c, th, c.a, entries)] == [WithValidation(c, th, c.a, entries), NewOne(1)];
  }

  /** Worker b joins thread 1, proposes, validates and reveals. */
  function BothDone(g: State, c: Cast): seq<Event> {
    FirstDone(g, c)
      + [Tx(Join(c.b, 1))] + [Tx(Propose(c, c.b, 1))]
      + [Tx(Validate(c, c.b, 1, [c.signed]))] + [Tx(Reveal(c, c.b, 1))]
  }

  lemma BothAreDone(env: Env, g: State, c: Cast)
    requires Ready(env, g, c) && Verifies(env, c)
    ensures Scene(Run(env, g, BothDone(g, c)), [First(c, 0, false), Second(c, 0, false)], c, Some(0), Some(1))
  {
    hide Scene, Itoa, ThreadId, FirstDone, RevealOf, SignedFrame, Reverse, ParseEntry, Step;
    OneSigned(c);
    Direction(c.b);
    RevealsOne(env, c);
    var th0 := First(c, 0, false);
    var th1 := WithWorker(NewOne(1), c.b);
    var th2 := WithSolution(c, th1, c.b);
    var th3 := WithValidation(c, th2, c.b, [c.signed]);
    assert th1.workers == [c.b];
    assert th3.validations == [Vote(c, c.b, false)];
    var e0 := FirstDone(g, c);
    var e1 := e0 + [Tx(Join(c.b, 1))];
    var e2 := e1 + [Tx(Propose(c, c.b, 1))];
    var e3 := e2 + [Tx(Validate(c, c.b, 1, [c.signed]))];
    FirstIsDone(env, g, c);
    JoinGoes(env, Run(env, g, e0), c, [th0, NewOne(1)], c.b, 1, Some(0), Some(0));
    Continues(env, g, e0, Tx(Join(c.b, 1)));
    assert [th0, NewOne(1)][1 := th1] == [th0, th1];
    ProposeGoes(env, Run(env, g, e1), c, [th0, th1], c.b, 1, Some(0), Some(1));
    Continues(env, g, e1, Tx(Propose(c, c.b, 1)));
    assert [th0, th1][1 := th2] == [th0, th2];
    ValidateGoes(env, Run(env, g, e2), c, [th0, th2], c.b, 1, [c.signed], Some(0), Some(1));
    Continues(env, g, e2, Tx(Validate(c, c.b, 1, [c.signed])));
    assert [th0, th2][1 := th3] == [th0, th3];
    RevealGoes(env, Run(env, g, e3), c, [th0, th3], c.b, 1, Some(0), Some(1));
    Continues(env, g, e3, Tx(Reveal(c, c.b, 1)));
    assert WithFrames(th3, [Shown(c, 0)]) == Second(c, 0, false);
    assert [th0, th3][1 := Second(c, 0, false)] == [th0, Second(c, 0, false)];
  }

  lemma Judging(env: Env, g: State, es: seq<Event>, c: Cast)
    requires Inv(Run(env, g, es))
    ensures Judges(env, Run(env, g, es), BeginBlock(Hearing(c)))
    ensures Run(env, g, es + [BeginBlock(Hearing(c))]) == Begun(env, Run(env, g, es))
  {
    hide Inv, Begun, Step;
    Continues(env, g, es, BeginBlock(Hearing(c)));
    JudgesRuns(env, Run(env, g, es), BeginBlock(Hearing(c)));
  }

  /** The whole run: two judging blocks at the end. */
  function Recounting(g: State, c: Cast): seq<Event> {
    BothDone(g, c) + [BeginBlock(Hearing(c))] + [BeginBlock(Hearing(c))]
  }

  /** Thread 0 had two workers when it was judged, so two verifying validations are required of a frame.
      Its only frame has one, counted twice, and the solution is accepted. */
  lemma AcceptedOnOneVote(env: Env, g: State, c: Cast)
    requires Ready(env, g, c) && Verifies(env, c)
    ensures Disturbed(env, g, Recounting(g, c), Key(), 0)
    ensures StoredThread(Run(env, g, Recounting(g, c)), Key(), 0)
    ensures var th := Run(env, g, Recounting(g, c)).tasks[Key()].threads[0];
      && th.solution.Some? && th.solution.value.accepted
      && MinValidValidations(th.workers) == 2 && |th.solution.value.frames| == 1
      && th.solution.value.frames[0].validCount == 2
      && |Endorsers(env, th.solution.value.frames[0], th.validations)| == 1
  {
    hide Inv, Books, Itoa, ThreadId, BothDone, BegunTask, Step, Recounted, Judges;
    var es, e := BothDone(g, c), BeginBlock(Hearing(c));
    var s := Run(env, g, es);
    BothAreDone(env, g, c);
    TwoBlocks(env, c, s.tasks[Key()]);
    Judging(env, g, es, c);
    ReachesInv(env, g, es + [e]);
    Judging(env, g, es + [e], c);
    FirstJudged(env, c, 2);
    var run := Recounting(g, c);
    assert run[..|es|] == es && run[|es|] == e;
    assert Disturbs(env, Run(env, g, run[..|es|]), run[|es|], Key(), 0);
  }

  lemma ReachesInv(env: Env, g: State, es: seq<Event>)
    requires EmptyGenesis(g)
    ensures Inv(Run(env, g, es))
  {
    hide Inv;
    ReachableInv(env, g, es);
  }
}
