/** Runs from genesis, message by message: two workers are hired, one of them orders a task of two frames in
    two threads, and they join, propose, validate and reveal. */
module Stories {
  import opened Basics
  import opened Protocol
  import opened Splitting
  import opened Verification
  import opened Handlers
  import opened Blocks
  import opened Invariant
  import opened BlockInvariant
  import opened Runs
  import opened Escrow

  /** Who takes part and what they send: workers a and b, the task, and one frame with its entry in a
      proposal or validation and its entry in a reveal. */
  datatype Cast = Cast(a: Str, b: Str, cid: Str, reward: Coin, key: Str, signed: Str, revealed: Str)

  /** The genesis state and the cast fit: valid data, and funds for two stakes and the reward. */
  ghost predicate Ready(env: Env, g: State, c: Cast) {
    var stake := g.params.minWorkerStaking;
    && EmptyGenesis(g) && g.params.maxWorkersPerThread >= 2
    && c.a != c.b && c.a != [] && c.b != []
    && stake.amount >= 0 && env.denomValid(stake.denom)
    && c.reward.denom == stake.denom && c.reward.amount >= 4
    && g.bank.Balance(c.a, stake.denom) >= stake.amount + c.reward.amount
    && g.bank.Balance(c.b, stake.denom) >= stake.amount
    && env.cidDecodes(c.cid) && env.keyDecodes(c.key) && EQUALS in c.signed
  }

  // ---------- the messages ----------

  function Key(): Str { Itoa(1) }

  function Hire(g: State, x: Str): Msg { AddWorker(x, [], [], g.params.minWorkerStaking) }
  function Order(c: Cast): Msg { CreateVideoRenderingTask(c.a, c.cid, 1, 2, 2, Some(c.reward)) }
  function Join(x: Str, i: nat): Msg { SubscribeWorkerToTask(x, Key(), ThreadId(Key(), i)) }
  function Propose(c: Cast, x: Str, i: nat): Msg { ProposeSolution(x, Key(), ThreadId(Key(), i), c.key, [c.signed]) }
  function Validate(c: Cast, x: Str, i: nat, entries: seq<Str>): Msg {
    SubmitValidation(x, Key(), ThreadId(Key(), i), c.key, entries)
  }
  function Reveal(c: Cast, x: Str, i: nat): Msg { RevealSolution(x, Key(), ThreadId(Key(), i), [c.revealed]) }
  function Submit(x: Str, i: nat): Msg { SubmitSolution(x, Key(), ThreadId(Key(), i), [], 0) }

  // ---------- the threads ----------

  function NewOne(i: nat): Thread { Thread(ThreadId(Key(), i), Key(), i + 1, i + 1, false, [], None, [], 0) }
  function WithWorker(th: Thread, x: Str): Thread { th.(workers := th.workers + [x]) }
  function WithSolution(c: Cast, th: Thread, x: Str): Thread
    requires EQUALS in c.signed
  {
    th.(solution := Some(Solution(x, [SignedFrame(c.signed)], c.key, [], false)))
  }
  function WithValidation(c: Cast, th: Thread, x: Str, entries: seq<Str>): Thread
    requires Parses(entries)
  {
    th.(validations := th.validations + [Validation(x, SignedFrames(entries), c.key, Reverse(th.workers, x))])
  }

  // ---------- the scenes ----------

  /** The state of a scene: the task with its threads, and where the two workers are; balanced books. */
  ghost predicate Scene(s: State, ths: seq<Thread>, c: Cast, ia: Option<nat>, ib: Option<nat>) {
    && Inv(s) && Books(s)
    && Key() in s.tasks && s.tasks[Key()].taskId == Key() && !s.tasks[Key()].completed
    && s.tasks[Key()].threads == ths && s.tasks[Key()].reward == Some(c.reward)
    && (forall i :: 0 <= i < |ths| ==> ths[i].threadId == ThreadId(Key(), i))
    && Stands(s, c.a, ia) && Stands(s, c.b, ib)
  }

  predicate Stands(s: State, x: Str, i: Option<nat>) {
    && x in s.workers && s.workers[x].enabled && s.workers[x].address == x
    && match i
       case None => s.workers[x].currentTaskId == []
       case Some(j) => s.workers[x].currentTaskId == Key() && s.workers[x].currentThreadIndex == j
  }

  /** An orderly message goes through. */
  lemma Goes(env: Env, s: State, m: Msg, now: State)
    requires Inv(s) && Books(s) && Handle(env, s, m) == Some(now) && Orderly(s, m)
    ensures Inv(now) && Books(now) && Step(env, s, Tx(m)) == now
  {
    hide Inv, Books, Orderly, Handle;
    HandleInv(env, s, m);
    BooksExact(env, s, m);
  }

  lemma Continues(env: Env, g: State, es: seq<Event>, e: Event)
    ensures Run(env, g, es + [e]) == Step(env, Run(env, g, es), e)
  {
    assert (es + [e])[..|es|] == es;
  }

  // ---------- one message each ----------

  lemma HireGoes(env: Env, s: State, m: Msg)
    requires m.AddWorker? && m.creator !in s.workers && m.stake == s.params.minWorkerStaking
    requires m.stake.amount >= 0 && env.denomValid(m.stake.denom)
    requires s.bank.Balance(m.creator, m.stake.denom) >= m.stake.amount
    ensures AddWorkerStep(env, s, m).Some?
    ensures var now := AddWorkerStep(env, s, m).value;
      && now == s.(bank := now.bank, workers := s.workers[m.creator := NewWorker(m, m.stake.denom)])
      && now.bank.Balance(m.creator, m.stake.denom) == s.bank.Balance(m.creator, m.stake.denom) - m.stake.amount
      && forall y | y != m.creator :: now.bank.Balance(y, m.stake.denom) == s.bank.Balance(y, m.stake.denom)
  {
  }

  lemma TwoRanges()
    ensures RangeOf(1, 2, 2, 0) == FrameRange(1, 1) && RangeOf(1, 2, 2, 1) == FrameRange(2, 2)
  {
  }

  lemma OrderGoes(env: Env, s: State, c: Cast)
    requires s.nextId == 1 && env.cidDecodes(c.cid) && env.denomValid(c.reward.denom)
    requires 0 <= c.reward.amount <= s.bank.Balance(c.a, c.reward.denom)
    ensures CreateStep(env, s, Order(c)).Some?
    ensures var now := CreateStep(env, s, Order(c)).value;
      && now.workers == s.workers && now.params == s.params
      && Key() in now.tasks && now.tasks[Key()].taskId == Key() && !now.tasks[Key()].completed
      && now.tasks[Key()].reward == Some(c.reward)
      && now.tasks[Key()].threads == [NewOne(0), NewOne(1)]
  {
    hide Itoa, ThreadId, RangeOf;
    var ths := FreshThreads(Key(), 1, 2, 2);
    TwoRanges();
    assert ths[0] == NewOne(0) && ths[1] == NewOne(1);
    assert ths == [NewOne(0), NewOne(1)];
  }

  lemma FindsOpen(threads: seq<Thread>, i: nat, max: int)
    requires i < |threads| && !threads[i].completed && |threads[i].workers| < max
    requires forall j :: 0 <= j < |threads| ==> threads[j].threadId == ThreadId(Key(), j)
    ensures FirstOpen(threads, ThreadId(Key(), i), max) == i
  {
    hide ThreadId;
    var j := FirstOpen(threads, ThreadId(Key(), i), max);
    assert Open(threads[i], ThreadId(Key(), i), max);
    if j >= 0 { ThreadIdInjective(Key(), i, j); }
  }

  lemma JoinGoes(env: Env, s: State, c: Cast, ths: seq<Thread>, x: Str, i: nat, ia: Option<nat>, ib: Option<nat>)
    requires Scene(s, ths, c, ia, ib) && (x == c.a || x == c.b) && c.a != c.b && i < |ths|
    requires !ths[i].completed && |ths[i].workers| < s.params.maxWorkersPerThread && x !in ths[i].workers
    ensures var now := Step(env, s, Tx(Join(x, i)));
      && Scene(now, ths[i := WithWorker(ths[i], x)], c,
               if x == c.a then Some(i) else ia, if x == c.b then Some(i) else ib)
      && now.params == s.params
  {
    hide Inv, Books, Itoa, ThreadId, FirstOpen, Orderly;
    FindsOpen(ths, i, s.params.maxWorkersPerThread);
    assert Orderly(s, Join(x, i)) by { OtherOrderly(s, Join(x, i)); }
    Goes(env, s, Join(x, i), SubscribeStep(s, Join(x, i)).value);
  }

  lemma OtherOrderly(s: State, m: Msg)
    requires !m.CreateVideoRenderingTask? && !m.SubmitSolution?
    ensures Orderly(s, m)
  {
  }

  lemma ProposeGoes(env: Env, s: State, c: Cast, ths: seq<Thread>, x: Str, i: nat, ia: Option<nat>, ib: Option<nat>)
    requires Scene(s, ths, c, ia, ib) && (x == c.a || x == c.b) && i < |ths| && x in ths[i].workers
    requires ths[i].solution.None? && ths[i].startFrame == ths[i].endFrame
    requires env.keyDecodes(c.key) && EQUALS in c.signed
    ensures var now := Step(env, s, Tx(Propose(c, x, i)));
      Scene(now, ths[i := WithSolution(c, ths[i], x)], c, ia, ib) && now.params == s.params
  {
    hide Inv, Books, Itoa, ThreadId, Orderly, SignedFrame;
    var m := Propose(c, x, i);
    forall j | 0 <= j < |ths| && ths[j].threadId == m.threadId ensures j == i {
      ThreadIdInjective(Key(), j, i);
    }
    assert SignedFrames(m.signatures) == [SignedFrame(c.signed)];
    assert ProposedThreads(env, ths, m) == ths[i := WithSolution(c, ths[i], x)];
    OtherOrderly(s, m);
    Goes(env, s, m, ProposeStep(env, s, m).value);
  }

  /** The proposer validates and stays. */
  lemma ValidateGoes(
      env: Env, s: State, c: Cast, ths: seq<Thread>, x: Str, i: nat, entries: seq<Str>,
      ia: Option<nat>, ib: Option<nat>)
    requires Scene(s, ths, c, ia, ib) && ((x == c.a && ia == Some(i)) || (x == c.b && ib == Some(i))) && i < |ths|
    requires x in ths[i].workers && Proposes(ths[i], x) && Parses(entries)
    ensures var now := Step(env, s, Tx(Validate(c, x, i, entries)));
      Scene(now, ths[i := WithValidation(c, ths[i], x, entries)], c, ia, ib) && now.params == s.params
  {
    hide Inv, Books, Itoa, ThreadId, Orderly, SignedFrame, Reverse;
    var m := Validate(c, x, i, entries);
    OtherOrderly(s, m);
    Goes(env, s, m, ValidateStep(s, m).value);
  }

  lemma RevealGoes(env: Env, s: State, c: Cast, ths: seq<Thread>, x: Str, i: nat, ia: Option<nat>, ib: Option<nat>)
    requires Scene(s, ths, c, ia, ib) && ((x == c.a && ia == Some(i)) || (x == c.b && ib == Some(i))) && i < |ths|
    requires x in ths[i].workers && Proposes(ths[i], x) && !ths[i].solution.value.accepted
    requires RevealOf(ths[i].solution.value.frames, [c.revealed]).Some?
    ensures var now := Step(env, s, Tx(Reveal(c, x, i)));
      && Scene(now, ths[i := WithFrames(ths[i], RevealOf(ths[i].solution.value.frames, [c.revealed]).value)], c, ia, ib)
      && now.params == s.params
  {
    hide Inv, Books, Itoa, ThreadId, Orderly, RevealOf;
    var m := Reveal(c, x, i);
    OtherOrderly(s, m);
    Goes(env, s, m, RevealStep(s, m).value);
  }

  // ---------- the opening ----------

  /** Both workers are hired and the task is ordered. */
  function Opening(g: State, c: Cast): seq<Event> {
    [] + [Tx(Hire(g, c.a))] + [Tx(Hire(g, c.b))] + [Tx(Order(c))]
  }

  lemma Opens(env: Env, g: State, c: Cast)
    requires Ready(env, g, c)
    ensures var s := Run(env, g, Opening(g, c));
      Scene(s, [NewOne(0), NewOne(1)], c, None, None) && s.params == g.params
  {
    hide Inv, Books, Itoa, ThreadId, Orderly, AddWorkerStep, CreateStep;
    assert Genesis(g) && Inv(g) && Books(g) by { GenesisInv(g); GenesisBooks(g); }
    var one, two := Step(env, g, Tx(Hire(g, c.a))), Step(env, Step(env, g, Tx(Hire(g, c.a))), Tx(Hire(g, c.b)));
    HireGoes(env, g, Hire(g, c.a));
    OtherOrderly(g, Hire(g, c.a));
    Goes(env, g, Hire(g, c.a), AddWorkerStep(env, g, Hire(g, c.a)).value);
    HireGoes(env, one, Hire(g, c.b));
    OtherOrderly(one, Hire(g, c.b));
    Goes(env, one, Hire(g, c.b), AddWorkerStep(env, one, Hire(g, c.b)).value);
    OrderGoes(env, two, c);
    assert Orderly(two, Order(c)) by { Affordable(two, c); }
    Goes(env, two, Order(c), CreateStep(env, two, Order(c)).value);
    var es := [] + [Tx(Hire(g, c.a))];
    Continues(env, g, [], Tx(Hire(g, c.a)));
    Continues(env, g, es, Tx(Hire(g, c.b)));
    Continues(env, g, es + [Tx(Hire(g, c.b))], Tx(Order(c)));
  }

  lemma Affordable(s: State, c: Cast)
    requires c.reward.amount <= s.bank.Balance(c.a, c.reward.denom)
    ensures Orderly(s, Order(c))
  {
  }

  /** Worker a has joined thread 0. */
  function Joined(g: State, c: Cast): seq<Event> { Opening(g, c) + [Tx(Join(c.a, 0))] }

  lemma Joins(env: Env, g: State, c: Cast)
    requires Ready(env, g, c)
    ensures var s := Run(env, g, Joined(g, c));
      Scene(s, [WithWorker(NewOne(0), c.a), NewOne(1)], c, Some(0), None) && s.params == g.params
  {
    hide Scene, Itoa, ThreadId, Opening;
    var s, ths := Run(env, g, Opening(g, c)), [NewOne(0), NewOne(1)];
    Opens(env, g, c);
    JoinGoes(env, s, c, ths, c.a, 0, None, None);
    Continues(env, g, Opening(g, c), Tx(Join(c.a, 0)));
    assert ths[0 := WithWorker(ths[0], c.a)] == [WithWorker(NewOne(0), c.a), NewOne(1)];
  }

  /** Worker a has proposed a solution for thread 0. */
  function Proposal(g: State, c: Cast): seq<Event> { Joined(g, c) + [Tx(Propose(c, c.a, 0))] }

  lemma Proposed0(env: Env, g: State, c: Cast)
    requires Ready(env, g, c)
    ensures var s := Run(env, g, Proposal(g, c));
      && Scene(s, [WithSolution(c, WithWorker(NewOne(0), c.a), c.a), NewOne(1)], c, Some(0), None)
      && s.params == g.params
  {
    hide Scene, Itoa, ThreadId, Joined;
    var s, ths := Run(env, g, Joined(g, c)), [WithWorker(NewOne(0), c.a), NewOne(1)];
    Joins(env, g, c);
    ProposeGoes(env, s, c, ths, c.a, 0, Some(0), None);
    Continues(env, g, Joined(g, c), Tx(Propose(c, c.a, 0)));
    assert ths[0 := WithSolution(c, ths[0], c.a)] == [WithSolution(c, WithWorker(NewOne(0), c.a), c.a), NewOne(1)];
  }

  // ---------- a read that fails ----------

  /** A node of worker a whose database gives no record of the thread, as with a locked or damaged file. */
  function Deaf(c: Cast): Local { Local(true, c.a, 0, Some(Database(q => None, q => None))) }

  /** The same node with a database in order. */
  function Hearing(c: Cast): Local {
    Local(true, c.a, 0, Some(Database(
      q => Some(ThreadRow(false, false, false, false, false, false, false, false)), q => Some(false))))
  }

  /** A reachable state in which BeginBlock panics on a node whose read fails, and gets to its end on the
      same node with its database in order. */
  lemma FailedReadPanics(env: Env, g: State, c: Cast)
    requires Ready(env, g, c)
    ensures var s := Run(env, g, Joined(g, c));
      && BeginBlockOn(env, Deaf(c), s) == BlockResult(Panic, s)
      && BeginBlockOn(env, Hearing(c), s) == BlockResult(Proceed, Begun(env, s))
  {
    hide Inv, Books, Itoa, ThreadId, Joined, Begun;
    var s := Run(env, g, Joined(g, c));
    Joins(env, g, c);
    HooksNeedOnlyReads(env, Deaf(c), s);
    HooksNeedOnlyReads(env, Hearing(c), s);
  }
}
