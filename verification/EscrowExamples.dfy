/** The two ways in which the module's books stop balancing, which Escrow.Orderly excludes. */
module EscrowExamples {
  import opened Basics
  import opened Protocol
  import opened Splitting
  import opened Workers
  import opened Handlers
  import opened Invariant
  import opened Runs
  import opened Escrow
  import opened Stories

  /** In any genesis state, a requester who cannot pay the reward creates a task with it: the failed transfer
      is ignored. */
  lemma UnfundedTask(env: Env, g: State, m: Msg)
    requires EmptyGenesis(g) && m.CreateVideoRenderingTask? && env.cidDecodes(m.cid) && m.threads > 0
    requires m.reward.Some? && env.denomValid(m.reward.value.denom)
    requires m.reward.value.amount > g.bank.Balance(m.creator, m.reward.value.denom)
    ensures Books(g) && Handle(env, g, m).Some? && !Books(Handle(env, g, m).value)
  {
    hide Inv, Books;
    GenesisInv(g);
    GenesisBooks(g);
    BooksExact(env, g, m);
  }

  // ---------- submitting the same solution twice ----------

  /** In a good state a submission for an existing thread goes through exactly when the creator proposed
      its solution and the reward is in the staking denomination. Completion is not asked about. */
  lemma SubmissionAccepted(env: Env, s: State, m: Msg)
    requires Inv(s) && m.SubmitSolution? && m.taskId in s.tasks
    requires FirstThread(s.tasks[m.taskId].threads, m.threadId) >= 0
    ensures s.tasks[m.taskId].reward.Some?
    ensures var t := s.tasks[m.taskId];
      var d := t.reward.value.denom;
      SubmitStep(env, s, m).Some?
      <==> Proposes(t.threads[FirstThread(t.threads, m.threadId)], m.creator)
           && env.denomValid(d) && d == s.params.minWorkerStaking.denom
  {
    hide Inv, ReleaseAll, FirstThread, Declared, Submitted, WithThread, Timed, LookUp, ThreadReward, ThreadId;
    var t := s.tasks[m.taskId];
    var i := FirstThread(t.threads, m.threadId);
    OrdinaryTask(s, m.taskId);
    assert ThreadOk(m.taskId, i, t.threads[i], s.params.maxWorkersPerThread, s.workers.Keys);
    RewardsFit(t.reward.value.amount, |t.threads|);
    if Proposes(t.threads[i], m.creator) {
      WinnerCredited(s, m, i);
    }
  }

  /** The release loop gets through, and crediting the winner succeeds if the denominations agree. */
  lemma WinnerCredited(s: State, m: Msg, i: nat)
    requires Inv(s) && m.SubmitSolution? && m.taskId in s.tasks && i < |s.tasks[m.taskId].threads|
    requires Proposes(s.tasks[m.taskId].threads[i], m.creator)
    requires s.tasks[m.taskId].threads[i].threadId == m.threadId
    ensures s.tasks[m.taskId].reward.Some?
    ensures var t := s.tasks[m.taskId];
      var ws := ReleaseAll(s.workers, WithThread(t, i, Submitted(t.threads[i], m)), m.threadId, t.threads[i].workers);
      && ws.Some?
      && (Declared(LookUp(ws.value, m.creator), WinnerReward(t)).Some?
          <==> t.reward.value.denom == s.params.minWorkerStaking.denom)
  {
    hide ReleaseAll, ReleaseOne;
    var t := s.tasks[m.taskId];
    var th := t.threads[i];
    OrdinaryTask(s, m.taskId);
    assert ThreadOk(m.taskId, i, th, s.params.maxWorkersPerThread, s.workers.Keys);
    ReleaseAllFrees(s, m.taskId, i, WithThread(t, i, Submitted(th, m)), th.workers);
    assert m.creator in th.workers && m.creator in s.workers;
    assert WorkerOk(m.creator, s.workers[m.creator], s.params.minWorkerStaking.denom);
  }

  lemma {:induction false} FirstThreadKept(a: seq<Thread>, b: seq<Thread>, threadId: Str)
    requires |a| == |b| && forall i :: 0 <= i < |a| ==> a[i].threadId == b[i].threadId
    ensures FirstThread(a, threadId) == FirstThread(b, threadId)
  {
    if a != [] { FirstThreadKept(a[..|a| - 1], b[..|b| - 1], threadId); }
  }

  /** What a submission leaves of its task. */
  lemma AfterSubmission(env: Env, s: State, m: Msg)
    requires m.SubmitSolution? && SubmitStep(env, s, m).Some?
    requires FirstThread(s.tasks[m.taskId].threads, m.threadId) >= 0
    ensures m.taskId in s.tasks
    ensures var t, now := s.tasks[m.taskId], SubmitStep(env, s, m).value;
      var i := FirstThread(t.threads, m.threadId);
      && t.threads[i].solution.Some? && now.params == s.params && m.taskId in now.tasks
      && now.tasks[m.taskId] == WithThread(t, i, Submitted(t.threads[i], m))
      && FirstThread(now.tasks[m.taskId].threads, m.threadId) == i
      && (Proposes(t.threads[i], m.creator) ==> Proposes(now.tasks[m.taskId].threads[i], m.creator))
  {
    var t := s.tasks[m.taskId];
    var i := FirstThread(t.threads, m.threadId);
    FirstThreadKept(t.threads, WithThread(t, i, Submitted(t.threads[i], m)).threads, m.threadId);
  }

  /** Whatever the state, a winner who submits the same solution again is paid again, and the books no
      longer balance. */
  lemma ResubmissionIsPaidAgain(env: Env, s: State, m: Msg)
    requires Inv(s) && Books(s) && m.SubmitSolution? && Handle(env, s, m).Some?
    requires var t := s.tasks[m.taskId];
      var i := FirstThread(t.threads, m.threadId);
      i >= 0 && !t.threads[i].completed && t.reward.Some? && WinnerReward(t).amount > 0
    ensures var now := Handle(env, s, m).value;
      Books(now) && Handle(env, now, m).Some? && !Books(Handle(env, now, m).value)
  {
    hide Inv, Books, SubmitStep;
    var now := Handle(env, s, m).value;
    AfterSubmission(env, s, m);
    SubmissionAccepted(env, s, m);
    BooksExact(env, s, m);
    HandleInv(env, s, m);
    SubmissionAccepted(env, now, m);
    assert !Orderly(now, m);
    BooksExact(env, now, m);
  }

  /** A run from genesis to such a payment: worker a orders a task, joins it, proposes and submits, all
      orderly; then a submits again. */
  lemma PaidTwice(env: Env, g: State, c: Cast)
    requires Ready(env, g, c)
    ensures var es := Proposal(g, c) + [Tx(Submit(c.a, 0))];
      && OrderlyRun(env, g, es) && Handle(env, Run(env, g, es), Submit(c.a, 0)).Some?
      && !Books(Run(env, g, es + [Tx(Submit(c.a, 0))]))
  {
    hide Inv, Books, Itoa, ThreadId, Proposal, SubmitStep, OrderlyRun, WithSolution;
    var m, s := Submit(c.a, 0), Run(env, g, Proposal(g, c));
    Proposed0(env, g, c);
    var th := s.tasks[Key()].threads[0];
    assert th == WithSolution(c, WithWorker(NewOne(0), c.a), c.a);
    assert Proposes(th, c.a) && !th.completed by { JustProposed(c, WithWorker(NewOne(0), c.a), c.a); }
    FindsFirst(s.tasks[Key()].threads);
    SubmissionAccepted(env, s, m);
    ResubmissionIsPaidAgain(env, s, m);
    var es := Proposal(g, c) + [Tx(m)];
    Continues(env, g, Proposal(g, c), Tx(m));
    Continues(env, g, es, Tx(m));
    RunBooks(env, g, es);
  }

  lemma JustProposed(c: Cast, th: Thread, x: Str)
    requires EQUALS in c.signed && !th.completed
    ensures Proposes(WithSolution(c, th, x), x) && !WithSolution(c, th, x).completed
  {
  }

  lemma FindsFirst(threads: seq<Thread>)
    requires threads != [] && forall j :: 0 <= j < |threads| ==> threads[j].threadId == ThreadId(Key(), j)
    ensures FirstThread(threads, ThreadId(Key(), 0)) == 0
  {
    hide ThreadId;
    assert threads[0].threadId == ThreadId(Key(), 0);
  }
}
