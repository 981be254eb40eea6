/** What never goes back over a run: tasks, threads, solutions and validations only grow, and an
    accepted solution is frozen. */
module Lifecycle {
  import opened Basics
  import opened Protocol
  import opened Verification
  import opened Handlers
  import opened Blocks
  import opened Invariant
  import opened BlockInvariant
  import opened Runs

  predicate SolutionEvolves(sol: Solution, now: Solution) {
    && now.proposedBy == sol.proposedBy && now.publicKey == sol.publicKey
    && |now.frames| == |sol.frames|
    && (forall i :: 0 <= i < |sol.frames| ==>
         && now.frames[i].filename == sol.frames[i].filename && now.frames[i].signature == sol.frames[i].signature
         && now.frames[i].validCount >= sol.frames[i].validCount
         && now.frames[i].invalidCount >= sol.frames[i].invalidCount)
    && (sol.accepted ==> now.accepted && now.frames == sol.frames)
  }

  predicate ThreadEvolves(th: Thread, now: Thread) {
    && now.threadId == th.threadId && now.taskId == th.taskId
    && now.startFrame == th.startFrame && now.endFrame == th.endFrame
    && th.workers <= now.workers
    && th.validations <= now.validations
    && (th.completed ==> now.completed)
    && (th.solution.Some? ==> now.solution.Some? && SolutionEvolves(th.solution.value, now.solution.value))
  }

  predicate TaskEvolves(t: Task, now: Task) {
    && now == t.(completed := now.completed, threads := now.threads)
    && (t.completed ==> now.completed)
    && |now.threads| == |t.threads|
    && forall i :: 0 <= i < |t.threads| ==> ThreadEvolves(t.threads[i], now.threads[i])
  }

  predicate Evolves(s: State, now: State) {
    && s.nextId <= now.nextId
    && now.params == s.params.(minValidators := now.params.minValidators)
    && s.workers.Keys <= now.workers.Keys
    && s.tasks.Keys <= now.tasks.Keys
    && forall k | k in s.tasks :: TaskEvolves(s.tasks[k], now.tasks[k])
  }

  lemma ThreadTransitive(a: Thread, b: Thread, c: Thread)
    requires ThreadEvolves(a, b) && ThreadEvolves(b, c)
    ensures ThreadEvolves(a, c)
  {
  }

  lemma EvolvesTransitive(a: State, b: State, c: State)
    requires Evolves(a, b) && Evolves(b, c)
    ensures Evolves(a, c)
  {
    forall k | k in a.tasks ensures TaskEvolves(a.tasks[k], c.tasks[k]) {
      forall i | 0 <= i < |a.tasks[k].threads|
        ensures ThreadEvolves(a.tasks[k].threads[i], c.tasks[k].threads[i])
      {
        ThreadTransitive(a.tasks[k].threads[i], b.tasks[k].threads[i], c.tasks[k].threads[i]);
      }
    }
  }

  /** The common shape of a handler: one thread of one task evolves, workers and bank are free. */
  lemma OneThread(s: State, now: State, k: Str, i: nat, th: Thread)
    requires k in s.tasks && i < |s.tasks[k].threads| && ThreadEvolves(s.tasks[k].threads[i], th)
    requires now == s.(tasks := s.tasks[k := WithThread(s.tasks[k], i, th)], workers := now.workers, bank := now.bank)
    requires s.workers.Keys <= now.workers.Keys
    ensures Evolves(s, now)
  {
  }

  lemma RevealEvolves(s: State, m: Msg)
    requires m.RevealSolution? && RevealStep(s, m).Some?
    ensures Evolves(s, RevealStep(s, m).value)
  {
    var th, i := CurrentThread(s, m.creator, m.taskId), s.workers[m.creator].currentThreadIndex;
    var frames := RevealOf(th.solution.value.frames, m.frames).value;
    assert forall j :: 0 <= j < |frames| ==> frames[j].filename == th.solution.value.frames[j].filename;
    OneThread(s, RevealStep(s, m).value, m.taskId, i, WithFrames(th, frames));
  }

  lemma ProposeEvolves(env: Env, s: State, m: Msg)
    requires m.ProposeSolution? && ProposeStep(env, s, m).Some?
    ensures Evolves(s, ProposeStep(env, s, m).value)
  {
    var t := s.tasks[m.taskId];
    forall i | 0 <= i < |t.threads| ensures ThreadEvolves(t.threads[i], Proposed(t.threads[i], m)) {
    }
  }

  lemma SubscribeEvolves(s: State, m: Msg)
    requires Inv(s) && m.SubscribeWorkerToTask? && SubscribeStep(s, m).Some?
    ensures Evolves(s, SubscribeStep(s, m).value)
  {
    var t := s.tasks[m.taskId];
    var i := FirstOpen(t.threads, m.threadId, s.params.maxWorkersPerThread);
    if i >= 0 {
      OrdinaryTask(s, m.taskId);
      var th := t.threads[i];
      if s.workers[m.address].address !in th.workers {
        OneThread(s, SubscribeStep(s, m).value, m.taskId, i, th.(workers := th.workers + [m.address]));
      }
    }
  }

  lemma ValidateEvolves(s: State, m: Msg)
    requires m.SubmitValidation? && ValidateStep(s, m).Some?
    ensures Evolves(s, ValidateStep(s, m).value)
  {
    var th, w := CurrentThread(s, m.creator, m.taskId), s.workers[m.creator];
    OneThread(s, ValidateStep(s, m).value, m.taskId, w.currentThreadIndex,
              th.(validations := th.validations + [NewValidation(th, w, m)]));
  }

  lemma SubmitEvolves(env: Env, s: State, m: Msg)
    requires Inv(s) && m.SubmitSolution? && SubmitStep(env, s, m).Some?
    ensures Evolves(s, SubmitStep(env, s, m).value)
  {
    hide ReleaseAll, FirstThread, Evolves;
    var k, t := m.taskId, s.tasks[m.taskId];
    var i := FirstThread(t.threads, m.threadId);
    Unmoved(s, s);
    if i >= 0 {
      OrdinaryTask(s, k);
      var th := t.threads[i];
      ReleaseAllFrees(s, k, i, WithThread(t, i, Submitted(th, m)), th.workers);
      OneThread(s, SubmitStep(env, s, m).value, k, i, Submitted(th, m));
    }
  }

  lemma CreateEvolves(env: Env, s: State, m: Msg)
    requires Inv(s) && m.CreateVideoRenderingTask? && CreateStep(env, s, m).Some?
    ensures Evolves(s, CreateStep(env, s, m).value)
  {
    IdsGrow(s.tasks.Keys, s.nextId);
  }

  lemma AddWorkerEvolves(env: Env, s: State, m: Msg)
    requires m.AddWorker? && AddWorkerStep(env, s, m).Some?
    ensures Evolves(s, AddWorkerStep(env, s, m).value)
  {
    Unmoved(s, AddWorkerStep(env, s, m).value);
  }

  lemma Unmoved(s: State, now: State)
    requires now == s.(workers := now.workers, bank := now.bank) && s.workers.Keys <= now.workers.Keys
    ensures Evolves(s, now)
  {
  }

  lemma HandleEvolves(env: Env, s: State, m: Msg)
    requires Inv(s) && Handle(env, s, m).Some?
    ensures Evolves(s, Handle(env, s, m).value)
  {
    hide Inv, Evolves;
    match m
    case CreateVideoRenderingTask(_, _, _, _, _, _) => CreateEvolves(env, s, m);
    case AddWorker(_, _, _, _) => AddWorkerEvolves(env, s, m);
    case SubscribeWorkerToTask(_, _, _) => SubscribeEvolves(s, m);
    case ProposeSolution(_, _, _, _, _) => ProposeEvolves(env, s, m);
    case RevealSolution(_, _, _, _) => RevealEvolves(s, m);
    case SubmitValidation(_, _, _, _, _) => ValidateEvolves(s, m);
    case SubmitSolution(_, _, _, _, _) => SubmitEvolves(env, s, m);
  }

  lemma JudgedEvolves(th: Thread, now: Thread)
    requires Judged(th, now)
    ensures ThreadEvolves(th, now)
  {
  }

  lemma BegunTaskEvolves(env: Env, t: Task)
    ensures TaskEvolves(t, BegunTask(env, t))
  {
    if !t.completed {
      forall i | 0 <= i < |t.threads| ensures ThreadEvolves(t.threads[i], BegunTask(env, t).threads[i]) {
        ScanStored(env, t.threads, |t.threads|, i);
        LookedJudged(env, t.threads[i]);
        JudgedEvolves(t.threads[i], BegunTask(env, t).threads[i]);
      }
    }
  }

  lemma BeginEvolves(env: Env, s: State)
    ensures Evolves(s, Begun(env, s))
  {
    hide BegunTask, TaskEvolves;
    forall k | k in s.tasks ensures TaskEvolves(s.tasks[k], BegunTask(env, s.tasks[k])) {
      BegunTaskEvolves(env, s.tasks[k]);
    }
  }

  lemma FinishedEvolves(t: Task)
    ensures TaskEvolves(t, Finished(t)) && TaskEvolves(t, t)
  {
  }

  lemma EndEvolves(s: State)
    requires Inv(s)
    ensures Evolves(s, Ended(s))
  {
    hide FinishedTasks, TaskEvolves, Finished;
    EndedTasks(s);
    forall k | k in s.tasks ensures TaskEvolves(s.tasks[k], Ended(s).tasks[k]) {
      FinishedEvolves(s.tasks[k]);
      if k == [] { assert TaskOk(k, s.tasks[k], s.params.maxWorkersPerThread, s.workers.Keys); }
    }
  }

  lemma StepEvolves(env: Env, s: State, e: Event)
    requires Inv(s)
    ensures Evolves(s, Step(env, s, e))
  {
    hide Inv, Evolves, Handle, Begun, Ended;
    Unmoved(s, s);
    match e
    case Tx(m) => if Handle(env, s, m).Some? { HandleEvolves(env, s, m); }
    case BeginBlock(l) => HooksNeedOnlyReads(env, l, s); BeginEvolves(env, s);
    case EndBlock(l) => HooksNeedOnlyReads(env, l, s); EndEvolves(s);
    case Elsewhere(_) => Unmoved(s, Step(env, s, e));
  }

  /** Over any run, every later state has grown out of every earlier one. */
  lemma {:induction false} RunEvolves(env: Env, g: State, es: seq<Event>, n: nat)
    requires Genesis(g) && n <= |es|
    ensures Evolves(Run(env, g, es[..n]), Run(env, g, es))
    decreases |es|
  {
    if n == |es| {
      assert es[..n] == es;
    } else {
      var front := es[..|es| - 1];
      assert front[..n] == es[..n];
      RunEvolves(env, g, front, n);
      ReachableInv(env, g, front);
      StepEvolves(env, Run(env, g, front), es[|es| - 1]);
      EvolvesTransitive(Run(env, g, es[..n]), Run(env, g, front), Run(env, g, es));
    }
  }

  /** An accepted solution keeps its frames - signatures, CIDs, hashes and counters -, its proposer
      and its key for the rest of the run; a completed thread and a completed task stay completed. */
  lemma AcceptedIsFrozen(env: Env, g: State, es: seq<Event>, n: nat, k: Str, i: nat)
    requires Genesis(g) && n <= |es| && StoredThread(Run(env, g, es[..n]), k, i)
    ensures StoredThread(Run(env, g, es), k, i)
    ensures var th, now := Run(env, g, es[..n]).tasks[k].threads[i], Run(env, g, es).tasks[k].threads[i];
      && (th.solution.Some? && th.solution.value.accepted ==>
           && now.solution.Some?
           && now.solution.value == th.solution.value.(dir := now.solution.value.dir))
      && (th.completed ==> now.completed)
      && (Run(env, g, es[..n]).tasks[k].completed ==> Run(env, g, es).tasks[k].completed)
  {
    RunEvolves(env, g, es, n);
  }

  /** A direction flag stored with a validation is still the validator's direction in every later
      state. */
  lemma DirectionsStay(env: Env, g: State, es: seq<Event>, n: nat, k: Str, i: nat, j: nat)
    requires Genesis(g) && n <= |es| && StoredThread(Run(env, g, es[..n]), k, i)
    requires j < |Run(env, g, es[..n]).tasks[k].threads[i].validations|
    ensures StoredThread(Run(env, g, es), k, i)
    ensures var v := Run(env, g, es[..n]).tasks[k].threads[i].validations[j];
      v.isReverse == Reverse(Run(env, g, es).tasks[k].threads[i].workers, v.validator)
  {
    RunEvolves(env, g, es, n);
    ValidationsCoherent(env, g, es, k, i);
  }
}
