/** What holds in every reachable state of the chain, kept by every handler and both block hooks. */
module Invariant {
  import opened Basics
  import opened Protocol
  import opened Splitting
  import opened Verification
  import opened CliCodec
  import opened Workers
  import opened Handlers
  import opened Blocks

  // ---------- threads ----------

  predicate Hidden(frames: seq<Frame>) {
    forall i :: 0 <= i < |frames| ==> frames[i].cid == [] && frames[i].hash == []
  }

  predicate DistinctNames(frames: seq<Frame>) {
    forall i, j :: 0 <= i < j < |frames| ==> frames[i].filename != frames[j].filename
  }

  /** A solution is revealed as a whole or not at all, and then its files are distinct. */
  predicate AllOrNothing(frames: seq<Frame>) {
    Hidden(frames) || (FullyRevealed(frames) && DistinctNames(frames))
  }

  predicate SolutionOk(th: Thread) {
    match th.solution
    case None => th.validations == [] && !th.completed
    case Some(sol) =>
      && sol.proposedBy in th.workers
      && |sol.frames| == th.endFrame - th.startFrame + 1
      && AllOrNothing(sol.frames)
  }

  predicate Proposes(th: Thread, a: Str) { th.solution.Some? && th.solution.value.proposedBy == a }

  /** Validators work on the thread, their direction flags are right, and only the proposer repeats. */
  predicate ValidatorsOk(th: Thread) {
    && (forall j :: 0 <= j < |th.validations| ==>
         && th.validations[j].validator in th.workers
         && th.validations[j].isReverse == Reverse(th.workers, th.validations[j].validator))
    && (forall i, j :: 0 <= i < j < |th.validations| && th.validations[i].validator == th.validations[j].validator ==>
         Proposes(th, th.validations[i].validator))
  }

  predicate WorkersOk(th: Thread, max: int, known: set<Str>) {
    && Distinct(th.workers)
    && (th.workers == [] || |th.workers| <= max)
    && (forall a | a in th.workers :: a in known)
  }

  predicate ThreadOk(taskId: Str, i: nat, th: Thread, max: int, known: set<Str>) {
    && th.threadId == ThreadId(taskId, i) && th.taskId == taskId
    && WorkersOk(th, max, known)
    && SolutionOk(th)
    && ValidatorsOk(th)
  }

  // ---------- tasks ----------

  predicate Ranged(t: Task, i: nat, th: Thread) {
    t.threadAmount > 0
    && FrameRange(th.startFrame, th.endFrame) == RangeOf(t.startFrame, t.endFrame, t.threadAmount, i)
  }

  predicate TaskOk(key: Str, t: Task, max: int, known: set<Str>) {
    && t.taskId == key
    && (t.completed ==> AllThreadsCompleted(t))
    && if key == [] then t == NOBODYS_TASK else
      && t.reward.Some? && t.reward.value.amount >= 0
      && |t.threads| == t.threadAmount && t.threadAmount > 0
      && (forall i :: 0 <= i < |t.threads| ==>
           ThreadOk(key, i, t.threads[i], max, known) && Ranged(t, i, t.threads[i]))
  }

  predicate IdsOk(keys: set<Str>, nextId: nat) {
    && nextId >= 1
    && (forall k | k in keys :: k == [] || exists i: nat :: 1 <= i < nextId && Itoa(i) == k)
    && (forall i: nat :: 1 <= i < nextId ==> Itoa(i) in keys)
  }

  // ---------- workers ----------

  predicate WorkerOk(a: Str, w: Worker, denom: Str) {
    && w.address == a
    && w.reputation.Some?
    && w.reputation.value.staked.denom == denom && w.reputation.value.staked.amount >= 0
    && w.reputation.value.winnings.denom == denom && w.reputation.value.winnings.amount >= 0
  }

  predicate Validated(th: Thread, a: Str) {
    exists j :: 0 <= j < |th.validations| && th.validations[j].validator == a
  }

  /** A worker can be busy on the thread: listed, the thread open, and nothing validated yet unless
      the worker proposed the solution. */
  predicate OnThread(th: Thread, a: Str) {
    && a in th.workers
    && !th.completed
    && (Validated(th, a) ==> Proposes(th, a))
  }

  predicate Placed(tasks: map<Str, Task>, a: Str, w: Worker) {
    w.currentTaskId != [] ==>
      && w.currentTaskId in tasks
      && 0 <= w.currentThreadIndex < |tasks[w.currentTaskId].threads|
      && OnThread(tasks[w.currentTaskId].threads[w.currentThreadIndex], a)
  }

  // ---------- states ----------

  predicate TasksOk(s: State) {
    forall k | k in s.tasks :: TaskOk(k, s.tasks[k], s.params.maxWorkersPerThread, s.workers.Keys)
  }

  predicate StaffOk(s: State) {
    forall a | a in s.workers ::
      WorkerOk(a, s.workers[a], s.params.minWorkerStaking.denom) && Placed(s.tasks, a, s.workers[a])
  }

  predicate Inv(s: State) {
    IdsOk(s.tasks.Keys, s.nextId) && TasksOk(s) && StaffOk(s)
  }

  predicate Genesis(s: State) {
    s.nextId == 1 && s.tasks == map[] && s.workers == map[]
  }

  // ---------- general steps ----------

  /** One thread of an ordinary task replaced by a good one. */
  lemma TaskOkPut(key: Str, t: Task, i: nat, th: Thread, max: int, known: set<Str>)
    requires TaskOk(key, t, max, known) && key != [] && i < |t.threads|
    requires ThreadOk(key, i, th, max, known)
    requires th.startFrame == t.threads[i].startFrame && th.endFrame == t.threads[i].endFrame
    requires t.completed ==> th.completed
    ensures TaskOk(key, WithThread(t, i, th), max, known)
  {
  }

  /** One task replaced by a good one, and the workers by workers that are still well placed. */
  lemma InvPut(s: State, k: Str, t: Task, workers: map<Str, Worker>)
    requires Inv(s) && k in s.tasks && workers.Keys == s.workers.Keys
    requires TaskOk(k, t, s.params.maxWorkersPerThread, s.workers.Keys)
    requires forall a | a in workers ::
      WorkerOk(a, workers[a], s.params.minWorkerStaking.denom) && Placed(s.tasks[k := t], a, workers[a])
    ensures Inv(s.(tasks := s.tasks[k := t], workers := workers))
  {
    assert s.tasks[k := t].Keys == s.tasks.Keys;
  }

  /** A worker's place survives the replacement of thread i when the thread still takes the worker. */
  lemma PlacedPut(tasks: map<Str, Task>, k: Str, i: nat, th: Thread, a: Str, w: Worker)
    requires k in tasks && i < |tasks[k].threads| && Placed(tasks, a, w)
    requires w.currentTaskId == k && w.currentThreadIndex == i && OnThread(tasks[k].threads[i], a) ==> OnThread(th, a)
    ensures Placed(tasks[k := WithThread(tasks[k], i, th)], a, w)
  {
  }

  /** The common shape: thread i of task k changes, nothing else does. */
  lemma InvThread(s: State, k: Str, i: nat, th: Thread)
    requires Inv(s) && k in s.tasks && k != [] && i < |s.tasks[k].threads|
    requires ThreadOk(k, i, th, s.params.maxWorkersPerThread, s.workers.Keys)
    requires var was := s.tasks[k].threads[i];
      && th.startFrame == was.startFrame && th.endFrame == was.endFrame
      && (s.tasks[k].completed ==> th.completed)
      && forall a | a in s.workers && OnThread(was, a) :: OnThread(th, a)
    ensures Inv(s.(tasks := s.tasks[k := WithThread(s.tasks[k], i, th)]))
  {
    TaskOkPut(k, s.tasks[k], i, th, s.params.maxWorkersPerThread, s.workers.Keys);
    forall a | a in s.workers
      ensures Placed(s.tasks[k := WithThread(s.tasks[k], i, th)], a, s.workers[a])
    {
      PlacedPut(s.tasks, k, i, th, a, s.workers[a]);
    }
    InvPut(s, k, WithThread(s.tasks[k], i, th), s.workers);
    assert s.(tasks := s.tasks[k := WithThread(s.tasks[k], i, th)], workers := s.workers)
      == s.(tasks := s.tasks[k := WithThread(s.tasks[k], i, th)]);
  }

  /** Every message that names a task with threads names an ordinary one. */
  lemma OrdinaryTask(s: State, k: Str)
    requires Inv(s) && k in s.tasks && (s.tasks[k].threads != [] || !s.tasks[k].completed)
    ensures k != [] && |s.tasks[k].threads| == s.tasks[k].threadAmount && s.tasks[k].taskId == k
    ensures s.tasks[k].reward.Some? && s.tasks[k].reward.value.amount >= 0
    ensures forall i :: 0 <= i < |s.tasks[k].threads| ==>
      ThreadOk(k, i, s.tasks[k].threads[i], s.params.maxWorkersPerThread, s.workers.Keys)
  {
    assert TaskOk(k, s.tasks[k], s.params.maxWorkersPerThread, s.workers.Keys);
  }

  lemma GenesisInv(s: State)
    requires Genesis(s)
    ensures Inv(s)
  {
  }

  // ---------- CreateVideoRenderingTask ----------

  lemma IdsGrow(keys: set<Str>, n: nat)
    requires IdsOk(keys, n)
    ensures Itoa(n) !in keys && Itoa(n) != []
    ensures IdsOk(keys + {Itoa(n)}, n + 1)
  {
    hide Itoa;
    if Itoa(n) in keys {
      var i: nat :| 1 <= i < n && Itoa(i) == Itoa(n);
      ItoaInjective(i, n);
    }
    forall k | k in keys + {Itoa(n)} && k != [] ensures exists i: nat :: 1 <= i < n + 1 && Itoa(i) == k {
      if k in keys {
        var i: nat :| 1 <= i < n && Itoa(i) == k;
        assert 1 <= i < n + 1 && Itoa(i) == k;
      } else {
        assert 1 <= n < n + 1 && Itoa(n) == k;
      }
    }
  }

  lemma FreshTaskOk(id: Str, m: Msg, max: int, known: set<Str>)
    requires m.CreateVideoRenderingTask? && m.threads > 0 && id != [] && m.reward.Some? && m.reward.value.amount >= 0
    ensures TaskOk(id, NewTask(id, m), max, known)
  {
    var t := NewTask(id, m);
    forall i | 0 <= i < |t.threads| ensures ThreadOk(id, i, t.threads[i], max, known) && Ranged(t, i, t.threads[i]) {
      assert t.threads[i] == NewThread(id, RangeOf(m.startFrame, m.endFrame, m.threads, i), i);
    }
    assert !t.completed;
  }

  lemma CreateInv(env: Env, s: State, m: Msg)
    requires Inv(s) && m.CreateVideoRenderingTask? && CreateStep(env, s, m).Some?
    ensures Inv(CreateStep(env, s, m).value)
  {
    var id, s' := Itoa(s.nextId), CreateStep(env, s, m).value;
    IdsGrow(s.tasks.Keys, s.nextId);
    assert s'.tasks.Keys == s.tasks.Keys + {id};
    FreshTaskOk(id, m, s.params.maxWorkersPerThread, s.workers.Keys);
    forall a | a in s.workers ensures Placed(s'.tasks, a, s.workers[a]) {
      assert Placed(s.tasks, a, s.workers[a]);
    }
  }

  // ---------- AddWorker ----------

  lemma KnownGrows(key: Str, t: Task, max: int, known: set<Str>, more: set<Str>)
    requires TaskOk(key, t, max, known) && known <= more
    ensures TaskOk(key, t, max, more)
  {
    forall i | 0 <= i < |t.threads| && key != [] ensures ThreadOk(key, i, t.threads[i], max, more) {
      assert ThreadOk(key, i, t.threads[i], max, known);
    }
  }

  lemma AddWorkerInv(env: Env, s: State, m: Msg)
    requires Inv(s) && m.AddWorker? && AddWorkerStep(env, s, m).Some?
    ensures Inv(AddWorkerStep(env, s, m).value)
  {
    var s' := AddWorkerStep(env, s, m).value;
    forall k | k in s'.tasks ensures TaskOk(k, s'.tasks[k], s'.params.maxWorkersPerThread, s'.workers.Keys) {
      KnownGrows(k, s.tasks[k], s.params.maxWorkersPerThread, s.workers.Keys, s'.workers.Keys);
    }
  }

  // ---------- SubscribeWorkerToTask ----------

  lemma JoinOk(taskId: Str, i: nat, th: Thread, a: Str, max: int, known: set<Str>)
    requires ThreadOk(taskId, i, th, max, known) && a in known && a !in th.workers && |th.workers| < max
    ensures ThreadOk(taskId, i, th.(workers := th.workers + [a]), max, known)
  {
    var th' := th.(workers := th.workers + [a]);
    forall j | 0 <= j < |th.validations|
      ensures Reverse(th'.workers, th.validations[j].validator) == Reverse(th.workers, th.validations[j].validator)
    {
      ReverseStable(th.workers, a, th.validations[j].validator);
    }
    assert forall b | b in th'.workers :: b in th.workers || b == a;
  }

  lemma SubscribeInv(s: State, m: Msg)
    requires Inv(s) && m.SubscribeWorkerToTask? && SubscribeStep(s, m).Some?
    ensures Inv(SubscribeStep(s, m).value)
  {
    hide FirstOpen;
    var w, t := s.workers[m.address], s.tasks[m.taskId];
    var i := FirstOpen(t.threads, m.threadId, s.params.maxWorkersPerThread);
    if i >= 0 && w.address !in t.threads[i].workers {
      OrdinaryTask(s, m.taskId);
      var th := t.threads[i];
      var th' := th.(workers := th.workers + [m.address]);
      JoinOk(m.taskId, i, th, m.address, s.params.maxWorkersPerThread, s.workers.Keys);
      assert forall b | OnThread(th, b) :: OnThread(th', b);
      InvThread(s, m.taskId, i, th');
      var mid := s.(tasks := s.tasks[m.taskId := WithThread(t, i, th')]);
      var w' := w.(currentTaskId := t.taskId, currentThreadIndex := i);
      assert OnThread(th', m.address);
      assert Placed(mid.tasks, m.address, w');
      Rehire(mid, m.address, w');
    }
  }

  /** A worker record replaced by a good one in place. */
  lemma Rehire(s: State, a: Str, w: Worker)
    requires Inv(s) && a in s.workers
    requires WorkerOk(a, w, s.params.minWorkerStaking.denom) && Placed(s.tasks, a, w)
    ensures Inv(s.(workers := s.workers[a := w]))
  {
    assert s.workers[a := w].Keys == s.workers.Keys;
  }

  // ---------- ProposeSolution ----------

  lemma ProposedOk(env: Env, taskId: Str, i: nat, th: Thread, m: Msg, max: int, known: set<Str>)
    requires ThreadOk(taskId, i, th, max, known) && m.ProposeSolution?
    requires th.threadId == m.threadId ==> CanPropose(env, th, m)
    ensures ThreadOk(taskId, i, Proposed(th, m), max, known)
    ensures forall a | OnThread(th, a) :: OnThread(Proposed(th, m), a)
  {
    if th.threadId == m.threadId {
      assert Hidden(SignedFrames(m.signatures));
    }
  }

  lemma ProposeInv(env: Env, s: State, m: Msg)
    requires Inv(s) && m.ProposeSolution? && ProposeStep(env, s, m).Some?
    ensures Inv(ProposeStep(env, s, m).value)
  {
    var t := s.tasks[m.taskId];
    var t' := t.(threads := ProposedThreads(env, t.threads, m));
    var max, known := s.params.maxWorkersPerThread, s.workers.Keys;
    OrdinaryTask(s, m.taskId);
    assert TaskOk(m.taskId, t, max, known);
    forall i | 0 <= i < |t.threads|
      ensures ThreadOk(m.taskId, i, t'.threads[i], max, known) && Ranged(t', i, t'.threads[i])
      ensures forall a | OnThread(t.threads[i], a) :: OnThread(t'.threads[i], a)
    {
      ProposedOk(env, m.taskId, i, t.threads[i], m, max, known);
    }
    forall a | a in s.workers ensures Placed(s.tasks[m.taskId := t'], a, s.workers[a]) {
      assert Placed(s.tasks, a, s.workers[a]);
    }
    InvPut(s, m.taskId, t', s.workers);
    assert s.(tasks := s.tasks[m.taskId := t'], workers := s.workers) == s.(tasks := s.tasks[m.taskId := t']);
  }

  // ---------- RevealSolution ----------

  lemma WorksOnThread(s: State, a: Str, k: Str)
    requires Inv(s) && WorksOn(s, a, k)
    ensures k != [] && OnThread(CurrentThread(s, a, k), a)
    ensures ThreadOk(k, s.workers[a].currentThreadIndex, CurrentThread(s, a, k),
                     s.params.maxWorkersPerThread, s.workers.Keys)
  {
    OrdinaryTask(s, k);
    assert Placed(s.tasks, a, s.workers[a]);
  }

  /** The first reveal must reach every frame, so every frame is the first of its name; a later one
      only replaces non-empty values. */
  lemma RevealKeeps(frames: seq<Frame>, entries: seq<Str>)
    requires AllOrNothing(frames) && RevealOf(frames, entries).Some?
    ensures var r := RevealOf(frames, entries).value;
      |r| == |frames| && FullyRevealed(r) && DistinctNames(r)
  {
    var m := FramesOf(entries);
    var r := RevealedFrames(frames, m);
    assert forall i :: 0 <= i < |r| ==> r[i] == Revealed(frames, m, i) && r[i].filename == frames[i].filename;
    if Hidden(frames) {
      forall i, j | 0 <= i < j < |frames| ensures frames[i].filename != frames[j].filename {
        assert r[j].cid != [];
        assert FirstNamed(frames, frames[j].filename) == j;
      }
    }
  }

  lemma RevealedOk(taskId: Str, i: nat, th: Thread, frames: seq<Frame>, max: int, known: set<Str>)
    requires ThreadOk(taskId, i, th, max, known) && th.solution.Some?
    requires |frames| == |th.solution.value.frames| && AllOrNothing(frames)
    ensures ThreadOk(taskId, i, WithFrames(th, frames), max, known)
    ensures forall a | OnThread(th, a) :: OnThread(WithFrames(th, frames), a)
  {
  }

  lemma RevealInv(s: State, m: Msg)
    requires Inv(s) && m.RevealSolution? && RevealStep(s, m).Some?
    ensures Inv(RevealStep(s, m).value)
  {
    WorksOnThread(s, m.creator, m.taskId);
    var th, i := CurrentThread(s, m.creator, m.taskId), s.workers[m.creator].currentThreadIndex;
    var frames := RevealOf(th.solution.value.frames, m.frames).value;
    RevealKeeps(th.solution.value.frames, m.frames);
    RevealedOk(m.taskId, i, th, frames, s.params.maxWorkersPerThread, s.workers.Keys);
    InvThread(s, m.taskId, i, WithFrames(th, frames));
  }

  // ---------- SubmitValidation ----------

  lemma ValidatedOk(taskId: Str, i: nat, th: Thread, v: Validation, max: int, known: set<Str>)
    requires ThreadOk(taskId, i, th, max, known) && th.solution.Some? && OnThread(th, v.validator)
    requires v.isReverse == Reverse(th.workers, v.validator)
    ensures ThreadOk(taskId, i, th.(validations := th.validations + [v]), max, known)
    ensures forall b | b != v.validator && OnThread(th, b) :: OnThread(th.(validations := th.validations + [v]), b)
    ensures Proposes(th, v.validator) ==> OnThread(th.(validations := th.validations + [v]), v.validator)
  {
    var th' := th.(validations := th.validations + [v]);
    forall b | b != v.validator && Validated(th', b) ensures Validated(th, b) {
      var j :| 0 <= j < |th'.validations| && th'.validations[j].validator == b;
      assert th.validations[j].validator == b;
    }
    forall p, q | 0 <= p < q < |th'.validations| && th'.validations[p].validator == th'.validations[q].validator
      ensures Proposes(th', th'.validations[p].validator)
    {
      if q == |th.validations| { assert Validated(th, v.validator); }
    }
  }

  lemma ValidateInv(s: State, m: Msg)
    requires Inv(s) && m.SubmitValidation? && ValidateStep(s, m).Some?
    ensures Inv(ValidateStep(s, m).value)
  {
    WorksOnThread(s, m.creator, m.taskId);
    var th, w := CurrentThread(s, m.creator, m.taskId), s.workers[m.creator];
    var v := NewValidation(th, w, m);
    var th' := th.(validations := th.validations + [v]);
    ValidatedOk(m.taskId, w.currentThreadIndex, th, v, s.params.maxWorkersPerThread, s.workers.Keys);
    if Proposes(th, m.creator) {
      InvThread(s, m.taskId, w.currentThreadIndex, th');
    } else {
      var free := s.(workers := s.workers[m.creator := Released(w)]);
      Rehire(s, m.creator, Released(w));
      assert free.workers.Keys == s.workers.Keys;
      LeaveThread(free, m.taskId, w.currentThreadIndex, th', m.creator);
    }
  }

  /** Like InvThread, for a thread that worker a no longer works on. */
  lemma LeaveThread(s: State, k: Str, i: nat, th: Thread, a: Str)
    requires Inv(s) && k in s.tasks && k != [] && i < |s.tasks[k].threads|
    requires ThreadOk(k, i, th, s.params.maxWorkersPerThread, s.workers.Keys)
    requires var was := s.tasks[k].threads[i];
      && th.startFrame == was.startFrame && th.endFrame == was.endFrame
      && (s.tasks[k].completed ==> th.completed)
      && a in s.workers && s.workers[a].currentTaskId == []
      && forall b | b != a && OnThread(was, b) :: OnThread(th, b)
    ensures Inv(s.(tasks := s.tasks[k := WithThread(s.tasks[k], i, th)]))
  {
    TaskOkPut(k, s.tasks[k], i, th, s.params.maxWorkersPerThread, s.workers.Keys);
    forall b | b in s.workers
      ensures Placed(s.tasks[k := WithThread(s.tasks[k], i, th)], b, s.workers[b])
    {
      PlacedPut(s.tasks, k, i, th, b, s.workers[b]);
    }
    InvPut(s, k, WithThread(s.tasks[k], i, th), s.workers);
    assert s.(tasks := s.tasks[k := WithThread(s.tasks[k], i, th)], workers := s.workers)
      == s.(tasks := s.tasks[k := WithThread(s.tasks[k], i, th)]);
  }

  // ---------- SubmitSolution ----------

  /** The worker is busy on thread i of the task. */
  predicate Busy(w: Worker, k: Str, i: nat) { w.currentTaskId == k && w.currentThreadIndex == i }

  /** The workers after the listed ones that are busy on the thread were released. */
  predicate Freed(was: map<Str, Worker>, now: map<Str, Worker>, k: Str, i: nat, list: seq<Str>) {
    && now.Keys == was.Keys
    && forall a | a in was :: now[a] == (if a in list && Busy(was[a], k, i) then Released(was[a]) else was[a])
  }

  /** The identifiers of the task's threads tell where a worker is busy. */
  lemma BusyWhere(s: State, k: Str, i: nat, a: Str)
    requires Inv(s) && k in s.tasks && k != [] && i < |s.tasks[k].threads|
    requires a in s.workers && s.workers[a].currentTaskId == k
    ensures s.workers[a].address == a
    ensures var j := s.workers[a].currentThreadIndex;
      0 <= j < |s.tasks[k].threads| && (s.tasks[k].threads[j].threadId == ThreadId(k, i) <==> j == i)
  {
    assert WorkerOk(a, s.workers[a], s.params.minWorkerStaking.denom) && Placed(s.tasks, a, s.workers[a]);
    var j := s.workers[a].currentThreadIndex;
    OrdinaryTask(s, k);
    assert s.tasks[k].threads[j].threadId == ThreadId(k, j);
    if ThreadId(k, j) == ThreadId(k, i) { ThreadIdInjective(k, j, i); }
  }

  /** In a good state the release loop frees exactly the listed workers that are busy on the thread. */
  lemma {:induction false} ReleaseAllFrees(s: State, k: Str, i: nat, t: Task, list: seq<Str>)
    requires Inv(s) && k in s.tasks && k != [] && i < |s.tasks[k].threads|
    requires t.taskId == k && |t.threads| == |s.tasks[k].threads|
    requires forall j :: 0 <= j < |t.threads| ==> t.threads[j].threadId == s.tasks[k].threads[j].threadId
    requires forall a | a in list :: a in s.workers
    ensures ReleaseAll(s.workers, t, ThreadId(k, i), list).Some?
    ensures Freed(s.workers, ReleaseAll(s.workers, t, ThreadId(k, i), list).value, k, i, list)
  {
    hide Inv, Freed, ReleaseOne;
    if list == [] {
      FreedNone(s.workers, k, i);
    } else {
      var a, front := list[|list| - 1], list[..|list| - 1];
      ReleaseAllFrees(s, k, i, t, front);
      assert list == front + [a];
      FreeOne(s, k, i, t, front, a, ReleaseAll(s.workers, t, ThreadId(k, i), front).value);
    }
  }

  lemma FreedNone(ws: map<Str, Worker>, k: Str, i: nat)
    ensures Freed(ws, ws, k, i, [])
  {
  }

  lemma FreeOne(s: State, k: Str, i: nat, t: Task, front: seq<Str>, a: Str, ws: map<Str, Worker>)
    requires Inv(s) && k in s.tasks && k != [] && i < |s.tasks[k].threads|
    requires t.taskId == k && |t.threads| == |s.tasks[k].threads|
    requires forall j :: 0 <= j < |t.threads| ==> t.threads[j].threadId == s.tasks[k].threads[j].threadId
    requires a in s.workers && Freed(s.workers, ws, k, i, front)
    ensures ReleaseOne(ws, t, ThreadId(k, i), a).Some?
    ensures Freed(s.workers, ReleaseOne(ws, t, ThreadId(k, i), a).value, k, i, front + [a])
  {
    hide Inv, ThreadId;
    if s.workers[a].currentTaskId == k { BusyWhere(s, k, i, a); }
  }

  lemma SubmittedOk(taskId: Str, i: nat, th: Thread, m: Msg, max: int, known: set<Str>)
    requires ThreadOk(taskId, i, th, max, known) && m.SubmitSolution? && th.solution.Some?
    ensures ThreadOk(taskId, i, Submitted(th, m), max, known)
  {
  }

  /** The index SubmitSolution finds is the thread's position, and nobody is busy there afterwards. */
  lemma SubmitInv(env: Env, s: State, m: Msg)
    requires Inv(s) && m.SubmitSolution? && SubmitStep(env, s, m).Some?
    ensures Inv(SubmitStep(env, s, m).value)
  {
    var k, t := m.taskId, s.tasks[m.taskId];
    var i := FirstThread(t.threads, m.threadId);
    if i >= 0 {
      OrdinaryTask(s, k);
      var th := t.threads[i];
      var t' := WithThread(t, i, Submitted(th, m));
      SubmittedOk(k, i, th, m, s.params.maxWorkersPerThread, s.workers.Keys);
      TaskOkPut(k, t, i, Submitted(th, m), s.params.maxWorkersPerThread, s.workers.Keys);
      ReleaseAllFrees(s, k, i, t', th.workers);
      var ws := ReleaseAll(s.workers, t', m.threadId, th.workers).value;
      var w := Timed(Declared(LookUp(ws, m.creator), WinnerReward(t)).value, m.averageRenderSeconds);
      assert m.creator in th.workers && m.creator in s.workers;
      SubmitStaff(s, k, i, Submitted(th, m), ws, m.creator, w);
    }
  }

  lemma SubmitStaff(s: State, k: Str, i: nat, th: Thread, ws: map<Str, Worker>, winner: Str, w: Worker)
    requires Inv(s) && k in s.tasks && k != [] && i < |s.tasks[k].threads| && winner in s.workers
    requires WorkerOk(winner, w, s.params.minWorkerStaking.denom) && w.currentTaskId == []
    requires TaskOk(k, WithThread(s.tasks[k], i, th), s.params.maxWorkersPerThread, s.workers.Keys)
    requires Freed(s.workers, ws, k, i, s.tasks[k].threads[i].workers)
    ensures Inv(s.(tasks := s.tasks[k := WithThread(s.tasks[k], i, th)], workers := ws[winner := w]))
  {
    var tasks' := s.tasks[k := WithThread(s.tasks[k], i, th)];
    var ws' := ws[winner := w];
    forall a | a in ws' ensures WorkerOk(a, ws'[a], s.params.minWorkerStaking.denom) && Placed(tasks', a, ws'[a]) {
      assert WorkerOk(a, s.workers[a], s.params.minWorkerStaking.denom) && Placed(s.tasks, a, s.workers[a]);
      if !Busy(s.workers[a], k, i) {
        PlacedPut(s.tasks, k, i, th, a, s.workers[a]);
      }
    }
    assert ws'.Keys == s.workers.Keys;
    InvPut(s, k, WithThread(s.tasks[k], i, th), ws');
  }

  // ---------- all messages ----------

  lemma HandleInv(env: Env, s: State, m: Msg)
    requires Inv(s) && Handle(env, s, m).Some?
    ensures Inv(Handle(env, s, m).value)
  {
    match m
    case CreateVideoRenderingTask(_, _, _, _, _, _) => CreateInv(env, s, m);
    case AddWorker(_, _, _, _) => AddWorkerInv(env, s, m);
    case SubscribeWorkerToTask(_, _, _) => SubscribeInv(s, m);
    case ProposeSolution(_, _, _, _, _) => ProposeInv(env, s, m);
    case RevealSolution(_, _, _, _) => RevealInv(s, m);
    case SubmitValidation(_, _, _, _, _) => ValidateInv(s, m);
    case SubmitSolution(_, _, _, _, _) => SubmitInv(env, s, m);
  }
}
