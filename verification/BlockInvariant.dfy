/** The block hooks keep the invariant, and under it the node's own configuration cannot matter. */
module BlockInvariant {
  import opened Basics
  import opened Protocol
  import opened Verification
  import opened Acceptance
  import opened Blocks
  import opened Invariant

  // ---------- what judging a thread may change ----------

  /** Only counters differ, and they have grown. */
  predicate SameButCounts(fs: seq<Frame>, gs: seq<Frame>) {
    && |gs| == |fs|
    && forall i :: 0 <= i < |fs| ==>
         && gs[i] == fs[i].(validCount := gs[i].validCount, invalidCount := gs[i].invalidCount)
         && gs[i].validCount >= fs[i].validCount && gs[i].invalidCount >= fs[i].invalidCount
  }

  /** Only counters and the acceptance of a solution that was not accepted before. */
  predicate Judged(th: Thread, now: Thread) {
    now == th || (
      && th.solution.Some? && now.solution.Some? && !th.solution.value.accepted
      && now == th.(solution := now.solution)
      && now.solution.value == th.solution.value.(
           frames := now.solution.value.frames, accepted := now.solution.value.accepted)
      && SameButCounts(th.solution.value.frames, now.solution.value.frames))
  }

  lemma EvaluatedCounts(env: Env, th: Thread)
    requires th.solution.Some?
    ensures SameButCounts(th.solution.value.frames, Evaluated(env, th).solution.value.frames)
  {
    var fs := th.solution.value.frames;
    forall i | 0 <= i < |fs|
      ensures var g := TallyAll(env, fs, th.validations, |fs|).0[i];
        && g == fs[i].(validCount := g.validCount, invalidCount := g.invalidCount)
        && g.validCount >= fs[i].validCount && g.invalidCount >= fs[i].invalidCount
    {
      TallyAllEach(env, fs, th.validations, |fs|, i);
      TallyBound(env, fs[i], th.validations);
    }
  }

  lemma LookedJudged(env: Env, th: Thread)
    ensures Judged(th, Looked(env, th))
  {
    if Due(th) { EvaluatedCounts(env, th); }
  }

  lemma JudgedOk(taskId: Str, i: nat, th: Thread, now: Thread, max: int, known: set<Str>)
    requires ThreadOk(taskId, i, th, max, known) && Judged(th, now)
    ensures ThreadOk(taskId, i, now, max, known)
    ensures now.startFrame == th.startFrame && now.endFrame == th.endFrame && now.completed == th.completed
    ensures forall a | OnThread(th, a) :: OnThread(now, a)
  {
    if now != th {
      assert AllOrNothing(now.solution.value.frames);
    }
  }

  // ---------- BeginBlock ----------

  lemma BegunTaskOk(env: Env, key: Str, t: Task, max: int, known: set<Str>)
    requires TaskOk(key, t, max, known)
    ensures TaskOk(key, BegunTask(env, t), max, known)
    ensures |BegunTask(env, t).threads| == |t.threads|
    ensures forall i :: 0 <= i < |t.threads| ==> Judged(t.threads[i], BegunTask(env, t).threads[i])
  {
    var t' := BegunTask(env, t);
    forall i | 0 <= i < |t.threads| ensures Judged(t.threads[i], t'.threads[i]) {
      ScanStored(env, t.threads, |t.threads|, i);
      LookedJudged(env, t.threads[i]);
    }
    forall i | 0 <= i < |t.threads| && key != []
      ensures ThreadOk(key, i, t'.threads[i], max, known) && Ranged(t', i, t'.threads[i])
    {
      JudgedOk(key, i, t.threads[i], t'.threads[i], max, known);
    }
  }

  lemma BeginInv(env: Env, s: State)
    requires Inv(s)
    ensures Inv(Begun(env, s))
  {
    var s' := Begun(env, s);
    var max, known := s.params.maxWorkersPerThread, s.workers.Keys;
    assert s'.tasks.Keys == s.tasks.Keys;
    forall k | k in s.tasks ensures TaskOk(k, s'.tasks[k], max, known) {
      BegunTaskOk(env, k, s.tasks[k], max, known);
    }
    forall a | a in s.workers ensures Placed(s'.tasks, a, s.workers[a]) {
      BegunPlaced(env, s, a);
    }
  }

  lemma BegunPlaced(env: Env, s: State, a: Str)
    requires Inv(s) && a in s.workers
    ensures Placed(Begun(env, s).tasks, a, s.workers[a])
  {
    var k, j := s.workers[a].currentTaskId, s.workers[a].currentThreadIndex;
    if k != [] {
      assert Placed(s.tasks, a, s.workers[a]);
      OrdinaryTask(s, k);
      BegunTaskOk(env, k, s.tasks[k], s.params.maxWorkersPerThread, s.workers.Keys);
      JudgedOk(k, j, s.tasks[k].threads[j], BegunTask(env, s.tasks[k]).threads[j],
               s.params.maxWorkersPerThread, s.workers.Keys);
    }
  }

  // ---------- EndBlock ----------

  /** In a good state exactly number 0 has no task. */
  lemma NumbersHaveTasks(s: State, i: nat)
    requires Inv(s) && i < s.nextId
    ensures Itoa(i) in s.tasks <==> i != 0
  {
  }

  lemma EveryKeyVisited(s: State, k: Str)
    requires Inv(s) && k in s.tasks && k != []
    ensures IsId(k, s.nextId)
  {
    var i: nat :| 1 <= i < s.nextId && Itoa(i) == k;
    assert i < s.nextId && Itoa(i) == k;
  }

  lemma EndedAt(s: State, k: Str)
    requires Inv(s) && k in s.tasks && k != []
    ensures k in Ended(s).tasks && Ended(s).tasks[k] == Finished(s.tasks[k])
  {
    EveryKeyVisited(s, k);
  }

  lemma EndedEmptyKey(s: State)
    requires Inv(s)
    ensures [] in Ended(s).tasks && Ended(s).tasks[[]] == NOBODYS_TASK
  {
    NumbersHaveTasks(s, 0);
    assert 0 < s.nextId && Itoa(0) !in s.tasks;
  }

  /** The tasks after EndBlock: all of them looked at, and the empty key added. */
  lemma EndedTasks(s: State)
    requires Inv(s)
    ensures Ended(s).tasks.Keys == s.tasks.Keys + {[]}
    ensures Ended(s).tasks[[]] == NOBODYS_TASK
    ensures forall k | k in s.tasks && k != [] :: Ended(s).tasks[k] == Finished(s.tasks[k])
  {
    EndedEmptyKey(s);
    assert Ended(s).tasks.Keys == s.tasks.Keys + {[]};
    forall k | k in s.tasks && k != [] ensures Ended(s).tasks[k] == Finished(s.tasks[k]) {
      EndedAt(s, k);
    }
  }

  lemma FinishedOk(key: Str, t: Task, max: int, known: set<Str>)
    requires TaskOk(key, t, max, known)
    ensures TaskOk(key, Finished(t), max, known)
  {
  }

  lemma EndInv(s: State)
    requires Inv(s)
    ensures Inv(Ended(s))
  {
    hide FinishedTasks;
    var s' := Ended(s);
    EndedTasks(s);
    forall k | k in s'.tasks ensures TaskOk(k, s'.tasks[k], s.params.maxWorkersPerThread, s.workers.Keys) {
      if k != [] { FinishedOk(k, s.tasks[k], s.params.maxWorkersPerThread, s.workers.Keys); }
    }
    forall a | a in s.workers ensures Placed(s'.tasks, a, s.workers[a]) {
      assert Placed(s.tasks, a, s.workers[a]);
    }
  }

  /** After EndBlock a stored task is completed exactly when all its threads are. */
  lemma EndCompletes(s: State, k: Str)
    requires Inv(s) && k in Ended(s).tasks
    ensures Ended(s).tasks[k].completed <==> AllThreadsCompleted(Ended(s).tasks[k])
  {
    hide FinishedTasks;
    EndedTasks(s);
    if k != [] { assert TaskOk(k, s.tasks[k], s.params.maxWorkersPerThread, s.workers.Keys); }
  }

  /** A second EndBlock changes nothing. */
  lemma EndIdempotent(s: State)
    requires Inv(s)
    ensures Ended(Ended(s)) == Ended(s)
  {
    hide FinishedTasks;
    EndInv(s);
    EndedTasks(s);
    EndedTasks(Ended(s));
    forall k | k in Ended(s).tasks && k != [] ensures Finished(Ended(s).tasks[k]) == Ended(s).tasks[k] {
      EndCompletes(s, k);
    }
    assert Ended(Ended(s)).tasks == Ended(s).tasks;
  }

  /** What the hooks rely on: every stored task is stored under its own identifier. */
  lemma TasksKnowTheirKeys(s: State)
    requires Inv(s)
    ensures KeysMatch(s.tasks)
  {
    forall k | k in s.tasks ensures s.tasks[k].taskId == k {
      assert TaskOk(k, s.tasks[k], s.params.maxWorkersPerThread, s.workers.Keys);
    }
  }

  // ---------- the node's own configuration and database ----------

  /** The configured worker is busy on a thread that exists. */
  predicate AtWork(l: Local, s: State) {
    && l.enabled && l.workerAddress != [] && l.workerAddress in s.workers
    && var w := s.workers[l.workerAddress];
       && w.enabled && w.currentTaskId != [] && w.currentTaskId in s.tasks
       && 0 <= w.currentThreadIndex < |s.tasks[w.currentTaskId].threads|
  }

  /** The thread's accepted solution is still to be delivered, by this node. */
  predicate Awaits(l: Local, th: Thread) {
    th.solution.Some? && th.solution.value.accepted && th.solution.value.dir == []
    && th.solution.value.proposedBy == l.workerAddress
  }

  /** The reads of BeginBlock succeed: the busy configured worker's thread, and every thread that awaits its
      delivery in the tasks the block leaves. */
  predicate BeginReads(env: Env, l: Local, s: State) {
    && (AtWork(l, s) ==>
         var w := s.workers[l.workerAddress];
         RowOf(l, Working, s.tasks[w.currentTaskId], w.currentThreadIndex).Some?)
    && forall k, i | k in s.tasks && !s.tasks[k].completed && 0 <= i < |s.tasks[k].threads| ::
         Awaits(l, BegunTask(env, s.tasks[k]).threads[i]) ==> RowOf(l, Delivering, s.tasks[k], i).Some?
  }

  /** The worker may join thread j. */
  predicate MayJoin(t: Task, j: int, max: int, a: Str)
    requires 0 <= j < |t.threads|
  {
    !t.threads[j].completed && |t.threads[j].workers| < max && a !in t.threads[j].workers
  }

  /** The choice of a thread asks about thread j: all threads it may join before are being joined. */
  predicate Asks(l: Local, t: Task, max: int, a: Str, j: int)
    requires 0 <= j < |t.threads|
  {
    MayJoin(t, j, max, a)
    && forall i :: 0 <= i < j && MayJoin(t, i, max, a) ==> SubscriptionOf(l, t, i) == Some(true)
  }

  /** Task number i is open, pays what the node asks for, and has an open thread with room. */
  predicate Suits(l: Local, s: State, i: nat) {
    && Itoa(i) in s.tasks && !s.tasks[Itoa(i)].completed
    && s.tasks[Itoa(i)].reward.Some? && s.tasks[Itoa(i)].reward.value.amount >= l.minReward
    && exists j :: 0 <= j < |s.tasks[Itoa(i)].threads|
         && !s.tasks[Itoa(i)].threads[j].completed
         && |s.tasks[Itoa(i)].threads[j].workers| < s.params.maxWorkersPerThread
  }

  /** The configured idle worker looks for a thread in task number i: the first that suits. */
  predicate Offered(l: Local, s: State, i: nat) {
    && l.enabled && l.workerAddress != [] && l.workerAddress in s.workers
    && s.workers[l.workerAddress].enabled && s.workers[l.workerAddress].currentTaskId == []
    && i < s.nextId && Suits(l, s, i) && forall n: nat | n < i :: !Suits(l, s, n)
  }

  /** The node proposed the solution of an open thread that two workers have validated, or all. */
  predicate OwnReveal(l: Local, th: Thread) {
    && !th.completed && |th.workers| > 0 && |th.validations| > 0
    && (|th.validations| >= 2 || |th.validations| == |th.workers|)
    && th.solution.Some? && th.solution.value.proposedBy == l.workerAddress
  }

  /** The accesses of EndBlock succeed: the database is open if there is a worker to ask about, and there
      are rows for the threads asked about and for the own solutions that may have to be revealed. */
  predicate EndReads(l: Local, s: State) {
    && (s.workers != map[] || (l.enabled && l.workerAddress != []) ==> l.db.Some?)
    && (forall i: nat, j | i < s.nextId && Offered(l, s, i) && 0 <= j < |TaskAt(s, i).threads| ::
         Asks(l, TaskAt(s, i), s.params.maxWorkersPerThread, l.workerAddress, j) ==>
           SubscriptionOf(l, TaskAt(s, i), j).Some?)
    && forall i: nat, j | i < s.nextId && !TaskAt(s, i).completed && 0 <= j < |TaskAt(s, i).threads| ::
         OwnReveal(l, TaskAt(s, i).threads[j]) ==> RowOf(l, Revealing, TaskAt(s, i), j).Some?
  }

  /** No early return and no index out of range at the beginning of a block: an assigned worker's task
      exists and its index is in range. */
  lemma BeginProceeds(l: Local, s: State)
    requires Inv(s)
    ensures BeginFlow(l, s) ==
      if AtWork(l, s) && RowOf(l, Working, s.tasks[s.workers[l.workerAddress].currentTaskId],
                               s.workers[l.workerAddress].currentThreadIndex).None? then Panic
      else Proceed
  {
    if l.workerAddress in s.workers {
      assert Placed(s.tasks, l.workerAddress, s.workers[l.workerAddress]);
    }
  }

  /** The search finds the first task that suits, if there is one, and never faults. */
  lemma {:induction false} PendingFinds(l: Local, s: State, i: nat)
    requires Inv(s)
    requires forall n: nat | n < i :: !Suits(l, s, n)
    ensures !Pending(l, s, i).Faulty?
    ensures Pending(l, s, i).Nothing? ==> forall n: nat | n < s.nextId :: !Suits(l, s, n)
    ensures Pending(l, s, i).Found? ==>
      exists n: nat :: n < s.nextId && Suits(l, s, n) && (forall k: nat | k < n :: !Suits(l, s, k))
        && Pending(l, s, i).task == TaskAt(s, n)
    decreases s.nextId - i
  {
    hide Inv, Itoa;
    if i < s.nextId {
      if Itoa(i) in s.tasks && !s.tasks[Itoa(i)].completed { OrdinaryTask(s, Itoa(i)); }
      if Suits(l, s, i) {
        assert Joinable(s.tasks[Itoa(i)], s.params.maxWorkersPerThread) by {
          var j :| 0 <= j < |s.tasks[Itoa(i)].threads|
            && !s.tasks[Itoa(i)].threads[j].completed
            && |s.tasks[Itoa(i)].threads[j].workers| < s.params.maxWorkersPerThread;
          assert Free(s.tasks[Itoa(i)].threads[j], s.params.maxWorkersPerThread);
        }
      } else {
        PendingFinds(l, s, i + 1);
      }
    }
  }

  /** The choice of a thread gets through exactly when every read it makes succeeds. */
  lemma {:induction false} JoinReads(l: Local, t: Task, max: int, a: Str, j: nat)
    requires j <= |t.threads|
    requires forall i :: 0 <= i < j && MayJoin(t, i, max, a) ==> SubscriptionOf(l, t, i) == Some(true)
    ensures JoinFlow(l, t, max, a, j).Proceed? || JoinFlow(l, t, max, a, j).Panic?
    ensures JoinFlow(l, t, max, a, j).Proceed? <==>
      forall i :: j <= i < |t.threads| && Asks(l, t, max, a, i) ==> SubscriptionOf(l, t, i).Some?
    decreases |t.threads| - j
  {
    if j < |t.threads| {
      if !MayJoin(t, j, max, a) || SubscriptionOf(l, t, j) == Some(true) {
        JoinReads(l, t, max, a, j + 1);
      } else {
        assert Asks(l, t, max, a, j);
      }
    }
  }

  /** No nil solution at the end of a block: a thread with validations has a solution. So only the reads
      for own solutions can fail. */
  lemma RevealsNeedReads(l: Local, s: State)
    requires Inv(s)
    ensures RevealsFail(l, s, s.nextId) <==>
      exists i: nat, j | i < s.nextId && !TaskAt(s, i).completed && 0 <= j < |TaskAt(s, i).threads| ::
        OwnReveal(l, TaskAt(s, i).threads[j]) && RowOf(l, Revealing, TaskAt(s, i), j).None?
  {
    forall i: nat, j | i < s.nextId && 0 <= j < |TaskAt(s, i).threads|
      ensures RevealFails(l, TaskAt(s, i), j) <==>
        OwnReveal(l, TaskAt(s, i).threads[j]) && RowOf(l, Revealing, TaskAt(s, i), j).None?
    {
      OrdinaryTask(s, Itoa(i));
    }
    if RevealsFail(l, s, s.nextId) {
      var i: nat :| i < s.nextId && SomeRevealFails(l, TaskAt(s, i));
      var j :| 0 <= j < |TaskAt(s, i).threads| && RevealFails(l, TaskAt(s, i), j);
      assert OwnReveal(l, TaskAt(s, i).threads[j]);
    }
    forall i: nat, j | i < s.nextId && !TaskAt(s, i).completed && 0 <= j < |TaskAt(s, i).threads|
        && OwnReveal(l, TaskAt(s, i).threads[j]) && RowOf(l, Revealing, TaskAt(s, i), j).None?
      ensures RevealsFail(l, s, s.nextId)
    {
      assert RevealFails(l, TaskAt(s, i), j);
      assert SomeRevealFails(l, TaskAt(s, i));
    }
  }

  lemma OneOffer(l: Local, s: State, i: nat, n: nat)
    requires Offered(l, s, i) && Offered(l, s, n)
    ensures i == n
  {
  }

  lemma IdleNeedsReads(l: Local, s: State)
    requires Inv(s)
    ensures IdleFlow(l, s).Panic? <==>
      || (l.enabled && l.workerAddress != [] && l.workerAddress !in s.workers && l.db.None?)
      || exists i: nat, j ::
           && i < s.nextId && Offered(l, s, i) && 0 <= j < |TaskAt(s, i).threads|
           && Asks(l, TaskAt(s, i), s.params.maxWorkersPerThread, l.workerAddress, j)
           && SubscriptionOf(l, TaskAt(s, i), j).None?
  {
    hide Asks, Pending, JoinFlow, Suits;
    if l.workerAddress in s.workers {
      assert WorkerOk(l.workerAddress, s.workers[l.workerAddress], s.params.minWorkerStaking.denom);
    }
    if l.enabled && l.workerAddress != [] && l.workerAddress in s.workers && s.workers[l.workerAddress].enabled
      && s.workers[l.workerAddress].currentTaskId == []
    {
      PendingFinds(l, s, 0);
      if Pending(l, s, 0).Found? {
        var n: nat :| n < s.nextId && Suits(l, s, n) && (forall k: nat | k < n :: !Suits(l, s, k))
          && Pending(l, s, 0).task == TaskAt(s, n);
        assert Offered(l, s, n);
        forall i: nat | Offered(l, s, i) ensures i == n { OneOffer(l, s, i, n); }
        JoinReads(l, TaskAt(s, n), s.params.maxWorkersPerThread, l.workerAddress, 0);
      }
    }
  }

  /** The threads to deliver are those the block leaves awaiting their delivery. */
  lemma DeliveriesAwaited(env: Env, l: Local, t: Task, i: nat)
    requires !t.completed && i < |t.threads|
    ensures |BegunTask(env, t).threads| == |t.threads|
    ensures Delivers(env, l, t.threads[i]) <==> Awaits(l, BegunTask(env, t).threads[i])
  {
    hide Accepts, TallyAll;
    ScanStored(env, t.threads, |t.threads|, i);
  }

  lemma DeliveriesNeedReads(env: Env, l: Local, s: State)
    ensures SomeDeliveryFails(env, l, s.tasks) <==>
      exists k, i :: k in s.tasks && !s.tasks[k].completed && 0 <= i < |s.tasks[k].threads|
        && Awaits(l, BegunTask(env, s.tasks[k]).threads[i]) && RowOf(l, Delivering, s.tasks[k], i).None?
  {
    hide Delivers, Awaits, BegunTask, RowOf;
    forall k, i | k in s.tasks && !s.tasks[k].completed && 0 <= i < |s.tasks[k].threads|
      ensures Delivers(env, l, s.tasks[k].threads[i]) <==> Awaits(l, BegunTask(env, s.tasks[k]).threads[i])
    {
      DeliveriesAwaited(env, l, s.tasks[k], i);
    }
    if SomeDeliveryFails(env, l, s.tasks) {
      var k :| k in s.tasks && DeliveryFails(env, l, s.tasks[k]);
      var i :| 0 <= i < |s.tasks[k].threads| && Delivers(env, l, s.tasks[k].threads[i])
        && RowOf(l, Delivering, s.tasks[k], i).None?;
      assert Awaits(l, BegunTask(env, s.tasks[k]).threads[i]);
    }
    forall k, i | k in s.tasks && !s.tasks[k].completed && 0 <= i < |s.tasks[k].threads|
        && Awaits(l, BegunTask(env, s.tasks[k]).threads[i]) && RowOf(l, Delivering, s.tasks[k], i).None?
      ensures SomeDeliveryFails(env, l, s.tasks)
    {
      assert Delivers(env, l, s.tasks[k].threads[i]);
      assert DeliveryFails(env, l, s.tasks[k]);
    }
  }

  /** In a good state a hook gets to its end exactly when its reads of the node's database succeed, and
      panics otherwise. Nothing else of the node matters, and not for the state that is reached. */
  lemma HooksNeedOnlyReads(env: Env, l: Local, s: State)
    requires Inv(s)
    ensures BeginBlockOn(env, l, s) ==
      if BeginReads(env, l, s) then BlockResult(Proceed, Begun(env, s)) else BlockResult(Panic, s)
    ensures EndBlockOn(l, s) == if EndReads(l, s) then BlockResult(Proceed, Ended(s)) else BlockResult(Panic, s)
  {
    hide Inv, Begun, BegunTask, Ended, RevealsFail, IdleFlow, BeginFlow, SomeDeliveryFails, Awaits, Asks, AtWork,
      Offered, OwnReveal;
    BeginProceeds(l, s);
    DeliveriesNeedReads(env, l, s);
    IdleNeedsReads(l, s);
    RevealsNeedReads(l, s);
  }
}
