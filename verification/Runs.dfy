/** Runs of the chain: any sequence of transactions and block hooks from genesis, each hook on a node
    with its own configuration and database, and accounts that change by other modules' transactions. */
module Runs {
  import opened Basics
  import opened Protocol
  import opened Verification
  import opened Handlers
  import opened Blocks
  import opened Invariant
  import opened BlockInvariant

  datatype Event =
    | Tx(m: Msg)
    | BeginBlock(l: Local)
    | EndBlock(l: Local)
    | Elsewhere(accounts: map<(Str, Str), nat>)

  /** A hook that panics takes its node down and commits nothing. */
  function Step(env: Env, s: State, e: Event): State {
    match e
    case Tx(m) => Deliver(env, s, m)
    case BeginBlock(l) => BeginBlockOn(env, l, s).next
    case EndBlock(l) => EndBlockOn(l, s).next
    case Elsewhere(accounts) => s.(bank := s.bank.(accounts := accounts))
  }

  function Run(env: Env, s: State, es: seq<Event>): State {
    if es == [] then s else Step(env, Run(env, s, es[..|es| - 1]), es[|es| - 1])
  }

  lemma StepInv(env: Env, s: State, e: Event)
    requires Inv(s)
    ensures Inv(Step(env, s, e))
  {
    match e
    case Tx(m) => if Handle(env, s, m).Some? { HandleInv(env, s, m); }
    case BeginBlock(l) => HooksNeedOnlyReads(env, l, s); BeginInv(env, s);
    case EndBlock(l) => HooksNeedOnlyReads(env, l, s); EndInv(s);
    case Elsewhere(accounts) => BankInv(s, s.bank.(accounts := accounts));
  }

  lemma BankInv(s: State, bank: Bank)
    requires Inv(s)
    ensures Inv(s.(bank := bank))
  {
  }

  /** Every reachable state is good. */
  lemma {:induction false} ReachableInv(env: Env, g: State, es: seq<Event>)
    requires Genesis(g)
    ensures Inv(Run(env, g, es))
  {
    if es == [] {
      GenesisInv(g);
    } else {
      ReachableInv(env, g, es[..|es| - 1]);
      StepInv(env, Run(env, g, es[..|es| - 1]), es[|es| - 1]);
    }
  }

  // ---------- the nodes agree ----------

  /** The same history as seen by two nodes: only their configurations and databases differ. */
  ghost predicate SameHistory(es: seq<Event>, fs: seq<Event>) {
    && |es| == |fs|
    && forall i :: 0 <= i < |es| ==>
         es[i] == fs[i] || (es[i].BeginBlock? && fs[i].BeginBlock?) || (es[i].EndBlock? && fs[i].EndBlock?)
  }

  /** If the event is a hook, its reads of the node's database succeed. */
  predicate Served(env: Env, s: State, e: Event) {
    match e
    case BeginBlock(l) => BeginReads(env, l, s)
    case EndBlock(l) => EndReads(l, s)
    case _ => true
  }

  /** The node's database served every hook of the run. */
  predicate ServedRun(env: Env, g: State, es: seq<Event>) {
    forall n :: 0 <= n < |es| ==> Served(env, Run(env, g, es[..n]), es[n])
  }

  lemma ServedFront(env: Env, g: State, es: seq<Event>)
    requires ServedRun(env, g, es) && es != []
    ensures ServedRun(env, g, es[..|es| - 1])
    ensures Served(env, Run(env, g, es[..|es| - 1]), es[|es| - 1])
  {
    var front := es[..|es| - 1];
    forall n | 0 <= n < |front| ensures Served(env, Run(env, g, front[..n]), front[n]) {
      assert front[..n] == es[..n] && front[n] == es[n];
    }
  }

  /** In every reachable state and on every node, a hook gets to its end if and only if its reads succeed;
      otherwise it panics. It never returns early. */
  lemma HooksProceedExactly(env: Env, g: State, es: seq<Event>, l: Local)
    requires Genesis(g)
    ensures var s := Run(env, g, es);
      && BeginBlockOn(env, l, s).flow == (if BeginReads(env, l, s) then Proceed else Panic)
      && EndBlockOn(l, s).flow == (if EndReads(l, s) then Proceed else Panic)
  {
    ReachableInv(env, g, es);
    HooksNeedOnlyReads(env, l, Run(env, g, es));
  }

  /** Whatever their configurations and databases hold, two nodes whose reads succeed reach the same
      state, and all their hooks get to their ends. */
  lemma {:induction false} NodesAgree(env: Env, g: State, es: seq<Event>, fs: seq<Event>)
    requires Genesis(g) && SameHistory(es, fs) && ServedRun(env, g, es) && ServedRun(env, g, fs)
    ensures Run(env, g, es) == Run(env, g, fs)
    ensures forall n :: 0 <= n < |es| ==> GotThrough(env, Run(env, g, es[..n]), es[n])
  {
    hide Step, Served, GotThrough, Genesis, ServedRun, Begun, Ended;
    if es != [] {
      var n := |es| - 1;
      var front := es[..n];
      ServedFront(env, g, es);
      ServedFront(env, g, fs);
      NodesAgree(env, g, front, fs[..n]);
      ServedStep(env, g, front, es[n]);
      ServedStep(env, g, front, fs[n]);
      assert Step(env, Run(env, g, front), es[n]) == Step(env, Run(env, g, front), fs[n]);
      forall k | 0 <= k < |es| ensures GotThrough(env, Run(env, g, es[..k]), es[k]) {
        if k < n { assert front[..k] == es[..k] && front[k] == es[k]; }
      }
    }
  }

  /** If the event is a hook, it gets to its end. */
  predicate GotThrough(env: Env, s: State, e: Event) {
    match e
    case BeginBlock(l) => BeginBlockOn(env, l, s).flow.Proceed?
    case EndBlock(l) => EndBlockOn(l, s).flow.Proceed?
    case _ => true
  }

  /** A served hook gets through, to a state that does not depend on the node. */
  lemma ServedStep(env: Env, g: State, es: seq<Event>, e: Event)
    requires Genesis(g) && Served(env, Run(env, g, es), e)
    ensures GotThrough(env, Run(env, g, es), e)
    ensures e.BeginBlock? ==> Step(env, Run(env, g, es), e) == Begun(env, Run(env, g, es))
    ensures e.EndBlock? ==> Step(env, Run(env, g, es), e) == Ended(Run(env, g, es))
  {
    ReachableInv(env, g, es);
    match e
    case BeginBlock(l) => HooksNeedOnlyReads(env, l, Run(env, g, es));
    case EndBlock(l) => HooksNeedOnlyReads(env, l, Run(env, g, es));
    case _ =>
  }

  // ---------- what the invariant says about reachable states ----------

  /** A busy worker's task exists, its index is in range, its thread lists it once and within the
      limit, and neither the thread nor the task is completed. */
  lemma AssignmentCoherent(env: Env, g: State, es: seq<Event>, a: Str)
    requires Genesis(g)
    ensures var s := Run(env, g, es);
      a in s.workers && s.workers[a].currentTaskId != [] ==>
        var k, i := s.workers[a].currentTaskId, s.workers[a].currentThreadIndex;
        && k in s.tasks && !s.tasks[k].completed
        && 0 <= i < |s.tasks[k].threads|
        && var th := s.tasks[k].threads[i];
           && a in th.workers && Distinct(th.workers)
           && |th.workers| <= s.params.maxWorkersPerThread
           && !th.completed
  {
    ReachableInv(env, g, es);
    var s := Run(env, g, es);
    if a in s.workers && s.workers[a].currentTaskId != [] {
      var k := s.workers[a].currentTaskId;
      assert Placed(s.tasks, a, s.workers[a]);
      OrdinaryTask(s, k);
      assert TaskOk(k, s.tasks[k], s.params.maxWorkersPerThread, s.workers.Keys);
    }
  }

  /** The two branches marked "this shouldn't happen" are dead: a worker found on a thread is listed
      there. */
  lemma DeadBranches(env: Env, g: State, es: seq<Event>, a: Str, k: Str)
    requires Genesis(g) && WorksOn(Run(env, g, es), a, k)
    ensures a in CurrentThread(Run(env, g, es), a, k).workers
  {
    ReachableInv(env, g, es);
    WorksOnThread(Run(env, g, es), a, k);
  }

  /** The ordinary tasks of a reachable state and their threads. */
  predicate StoredThread(s: State, k: Str, i: nat) { k in s.tasks && i < |s.tasks[k].threads| }

  lemma StoredThreadOk(env: Env, g: State, es: seq<Event>, k: Str, i: nat)
    requires Genesis(g) && StoredThread(Run(env, g, es), k, i)
    ensures var s := Run(env, g, es);
      && Inv(s) && k != []
      && ThreadOk(k, i, s.tasks[k].threads[i], s.params.maxWorkersPerThread, s.workers.Keys)
      && Ranged(s.tasks[k], i, s.tasks[k].threads[i])
  {
    ReachableInv(env, g, es);
    var s := Run(env, g, es);
    OrdinaryTask(s, k);
    assert TaskOk(k, s.tasks[k], s.params.maxWorkersPerThread, s.workers.Keys);
  }

  /** Reveal is all or nothing, so the hash of the first frame tells whether the whole solution is
      revealed, under distinct file names. */
  lemma FirstHashDecides(env: Env, g: State, es: seq<Event>, k: Str, i: nat)
    requires Genesis(g) && StoredThread(Run(env, g, es), k, i)
    requires Run(env, g, es).tasks[k].threads[i].solution.Some?
    requires Run(env, g, es).tasks[k].threads[i].solution.value.frames != []
    ensures var frames := Run(env, g, es).tasks[k].threads[i].solution.value.frames;
      && (frames[0].hash != [] <==> FullyRevealed(frames) && DistinctNames(frames))
      && (frames[0].hash == [] <==> Hidden(frames))
  {
    StoredThreadOk(env, g, es, k, i);
  }

  /** Validations: only after a solution, only by the thread's workers, at most one per worker other
      than the proposer, each with the direction of its validator. */
  lemma ValidationsCoherent(env: Env, g: State, es: seq<Event>, k: Str, i: nat)
    requires Genesis(g) && StoredThread(Run(env, g, es), k, i)
    ensures var th := Run(env, g, es).tasks[k].threads[i];
      && (th.validations != [] ==> th.solution.Some?)
      && (forall p :: 0 <= p < |th.validations| ==>
           && th.validations[p].validator in th.workers
           && th.validations[p].isReverse == Reverse(th.workers, th.validations[p].validator))
      && (forall p, q :: 0 <= p < q < |th.validations| && th.validations[p].validator == th.validations[q].validator ==>
           th.validations[p].validator == th.solution.value.proposedBy)
  {
    StoredThreadOk(env, g, es, k, i);
  }

  /** Solutions come from a worker of the thread and have one frame per frame of its range; a
      completed thread has a solution and nobody is busy on it; a completed task has only completed
      threads. */
  lemma CompletionCoherent(env: Env, g: State, es: seq<Event>, k: Str, i: nat, a: Str)
    requires Genesis(g) && StoredThread(Run(env, g, es), k, i)
    ensures var s := Run(env, g, es);
      var th := s.tasks[k].threads[i];
      && (th.solution.Some? ==>
           && th.solution.value.proposedBy in th.workers
           && |th.solution.value.frames| == th.endFrame - th.startFrame + 1)
      && (th.completed ==> th.solution.Some? && !(a in s.workers && Busy(s.workers[a], k, i)))
      && (s.tasks[k].completed ==> th.completed)
  {
    StoredThreadOk(env, g, es, k, i);
    var s := Run(env, g, es);
    assert TaskOk(k, s.tasks[k], s.params.maxWorkersPerThread, s.workers.Keys);
    if a in s.workers { assert Placed(s.tasks, a, s.workers[a]); }
  }
}
