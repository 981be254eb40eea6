/** module/module.go: what the module does at the beginning and at the end of every block. The node's
    own configuration and database take part in the control flow; see BlockInvariant for when they matter. */
module Blocks {
  import opened Basics
  import opened Protocol
  import opened Verification
  import opened Handlers
  import opened Keeper

  /** A row of the node's table of threads. The flags only choose jobs to start. */
  datatype ThreadRow = ThreadRow(
    downloadStarted: bool, downloadCompleted: bool, workStarted: bool, workCompleted: bool,
    solutionProposed: bool, verificationStarted: bool, solutionRevealed: bool, submitionStarted: bool)

  /** One read a hook makes: for which purpose, and of which thread. The jobs write to the database at
      any time, so two reads of one thread may go differently. */
  datatype Site = Working | Delivering | Joining | Revealing
  datatype Query = Query(site: Site, taskId: Str, index: int, threadId: Str)

  /** ReadThread and ReadTask: a missing row is added and returned, any other error gives no record.
      Of a task's row only the subscription flag is kept. */
  datatype Database = Database(readThread: Query -> Option<ThreadRow>, readTask: Query -> Option<bool>)

  /** The node's own data: the fields of its configuration that the blocks read, and its database, which
      is None for the empty handle Init returns without a home directory: every access then panics. */
  datatype Local = Local(enabled: bool, workerAddress: Str, minReward: int, db: Option<Database>)

  function RowOf(l: Local, site: Site, t: Task, i: int): Option<ThreadRow>
    requires 0 <= i < |t.threads|
  {
    if l.db.None? then None else l.db.value.readThread(Query(site, t.taskId, i, t.threads[i].threadId))
  }

  function SubscriptionOf(l: Local, t: Task, i: int): Option<bool>
    requires 0 <= i < |t.threads|
  {
    if l.db.None? then None else l.db.value.readTask(Query(Joining, t.taskId, i, t.threads[i].threadId))
  }

  /** How a block hook goes on: to its end, to an early return, or into a panic. */
  datatype Flow = Proceed | Stop | Panic

  datatype BlockResult = BlockResult(flow: Flow, next: State)

  // ---------- BeginBlock ----------

  /** The number of registered workers becomes the minimum of validators, between 2 and 6. */
  function Adjusted(s: State): State {
    if 1 < |s.workers| < 7 then s.(params := s.params.(minValidators := |s.workers|)) else s
  }

  /** What the configured worker's record makes BeginBlock do before it looks at any thread: the read
      of its thread is used without a look at the error. */
  function BeginFlow(l: Local, s: State): Flow {
    if !l.enabled || l.workerAddress == [] then Proceed
    else
      var w := LookUp(s.workers, l.workerAddress);
      if !w.enabled || w.currentTaskId == [] then Proceed
      else if w.currentTaskId !in s.tasks then Stop
      else if !(0 <= w.currentThreadIndex < |s.tasks[w.currentTaskId].threads|) then Panic
      else if RowOf(l, Working, s.tasks[w.currentTaskId], w.currentThreadIndex).None? then Panic
      else Proceed
  }

  /** The thread's solution is ready to be judged. */
  predicate Due(th: Thread) {
    && (|th.validations| > 1 || |th.validations| == |th.workers|)
    && !th.completed
    && th.solution.Some?
    && !th.solution.value.accepted
    && |th.solution.value.frames| > 0
    && th.solution.value.frames[0].hash != []
  }

  function Accepted(th: Thread): Thread
    requires th.solution.Some?
  {
    th.(solution := Some(th.solution.value.(accepted := true)))
  }

  /** The thread's solution is judged and accepted. */
  predicate Takes(env: Env, th: Thread) {
    Due(th) && Accepts(Evaluated(env, th))
  }

  /** The thread in memory after it was looked at. */
  function Looked(env: Env, th: Thread): Thread {
    if Takes(env, th) then Accepted(Evaluated(env, th)) else if Due(th) then Evaluated(env, th) else th
  }

  /** The threads in memory after the first n were looked at, and the threads last stored: the task
      is only written when one of its threads is accepted. */
  function Scan(env: Env, threads: seq<Thread>, n: nat): (r: (seq<Thread>, seq<Thread>))
    requires n <= |threads|
    ensures |r.0| == |r.1| == |threads|
  {
    if n == 0 then (threads, threads)
    else
      var (mem, stored) := Scan(env, threads, n - 1);
      var mem' := mem[n - 1 := Looked(env, mem[n - 1])];
      (mem', if Takes(env, mem[n - 1]) then mem' else stored)
  }

  /** In memory every thread is looked at once, whatever happens to the others. */
  lemma {:induction false} ScanMemory(env: Env, threads: seq<Thread>, n: nat, j: nat)
    requires n <= |threads| && j < |threads|
    ensures Scan(env, threads, n).0[j] == if j < n then Looked(env, threads[j]) else threads[j]
  {
    if n > 0 {
      ScanMemory(env, threads, n - 1, j);
      ScanMemory(env, threads, n - 1, n - 1);
    }
  }

  /** In the store a thread is as it was looked at if it, or a later thread of the task, was accepted; and
      as it was before otherwise. */
  lemma {:induction false} ScanStored(env: Env, threads: seq<Thread>, n: nat, j: nat)
    requires n <= |threads| && j < |threads|
    ensures Scan(env, threads, n).1[j] ==
      if exists i :: j <= i < n && Takes(env, threads[i]) then Looked(env, threads[j]) else threads[j]
  {
    if n > 0 {
      ScanStored(env, threads, n - 1, j);
      ScanMemory(env, threads, n, j);
      ScanMemory(env, threads, n - 1, n - 1);
    }
  }

  function BegunTask(env: Env, t: Task): (r: Task)
    ensures |r.threads| == |t.threads|
  {
    if t.completed then t else t.(threads := Scan(env, t.threads, |t.threads|).1)
  }

  /** BeginBlock without the node's own concerns. */
  function Begun(env: Env, s: State): State {
    Adjusted(s).(tasks := map k | k in s.tasks :: BegunTask(env, s.tasks[k]))
  }

  /** This node has to deliver the thread's solution once the thread was looked at: it is accepted, not
      delivered, and proposed by the configured address. */
  predicate Delivers(env: Env, l: Local, th: Thread) {
    var now := Looked(env, th);
    now.solution.Some? && now.solution.value.accepted && now.solution.value.dir == []
    && now.solution.value.proposedBy == l.workerAddress
  }

  /** The read for some thread to deliver fails, and its result is used without a look at the error. */
  predicate DeliveryFails(env: Env, l: Local, t: Task) {
    !t.completed
    && exists i :: 0 <= i < |t.threads| && Delivers(env, l, t.threads[i]) && RowOf(l, Delivering, t, i).None?
  }

  predicate SomeDeliveryFails(env: Env, l: Local, tasks: map<Str, Task>) {
    exists k | k in tasks :: DeliveryFails(env, l, tasks[k])
  }

  /** A panic takes the node down; nothing of the block is committed. */
  function BeginBlockOn(env: Env, l: Local, s: State): BlockResult {
    var flow := BeginFlow(l, s);
    if flow.Panic? || (flow.Proceed? && SomeDeliveryFails(env, l, s.tasks)) then BlockResult(Panic, s)
    else BlockResult(flow, if flow.Proceed? then Begun(env, s) else Adjusted(s))
  }

  // ---------- EndBlock ----------

  predicate IsId(k: Str, n: nat) {
    exists i: nat :: i < n && Itoa(i) == k
  }

  function TaskAt(s: State, i: nat): Task {
    if Itoa(i) in s.tasks then s.tasks[Itoa(i)] else ZERO_TASK
  }

  /** A worker could join the thread. */
  predicate Free(th: Thread, max: int) { !th.completed && |th.workers| < max }

  predicate Joinable(t: Task, max: int) {
    exists j :: 0 <= j < |t.threads| && Free(t.threads[j], max)
  }

  datatype Search = Nothing | Faulty | Found(task: Task)

  /** getPendingVideoRenderingTask from index i on: the scan ends at the first suitable task and
      panics at an unfinished one without a reward. */
  function Pending(l: Local, s: State, i: nat): Search
    decreases s.nextId - i
  {
    if i >= s.nextId then Nothing
    else if Itoa(i) !in s.tasks || s.tasks[Itoa(i)].completed then Pending(l, s, i + 1)
    else if s.tasks[Itoa(i)].reward.None? then Faulty
    else if s.tasks[Itoa(i)].reward.value.amount >= l.minReward
      && Joinable(s.tasks[Itoa(i)], s.params.maxWorkersPerThread) then Found(s.tasks[Itoa(i)])
    else Pending(l, s, i + 1)
  }

  /** The worker considers the thread. */
  predicate Considers(t: Task, j: int, max: int, a: Str)
    requires 0 <= j < |t.threads|
  {
    Free(t.threads[j], max) && a !in t.threads[j].workers
  }

  /** The choice of a thread from index j on: it ends at the first considered thread for which no
      subscription is on its way, and every read is used without a look at the error. */
  function JoinFlow(l: Local, t: Task, max: int, a: Str, j: nat): Flow
    requires j <= |t.threads|
    decreases |t.threads| - j
  {
    if j == |t.threads| then Proceed
    else if !Considers(t, j, max, a) then JoinFlow(l, t, max, a, j + 1)
    else match SubscriptionOf(l, t, j)
      case None => Panic
      case Some(subscribed) => if subscribed then JoinFlow(l, t, max, a, j + 1) else Proceed
  }

  /** EndBlock's concern for the configured worker: registering it, or finding it a thread. */
  function IdleFlow(l: Local, s: State): Flow {
    if !l.enabled || l.workerAddress == [] then Proceed
    else
      var w := LookUp(s.workers, l.workerAddress);
      if w.address == [] && l.db.None? then Panic
      else if !w.enabled || w.currentTaskId != [] then Proceed
      else match Pending(l, s, 0)
        case Nothing => Proceed
        case Faulty => Panic
        case Found(t) => JoinFlow(l, t, s.params.maxWorkersPerThread, w.address, 0)
  }

  /** EndBlock reads the proposer of such a thread. */
  predicate Peeks(th: Thread) {
    && |th.validations| > 0 && |th.workers| > 0
    && (|th.validations| > 1 || |th.validations| == |th.workers|)
    && !th.completed
  }

  /** Looking whether to reveal thread j panics: it has no solution, or this node proposed its solution
      and the read fails. */
  predicate RevealFails(l: Local, t: Task, j: int)
    requires 0 <= j < |t.threads|
  {
    && Peeks(t.threads[j])
    && (t.threads[j].solution.None?
        || (t.threads[j].solution.value.proposedBy == l.workerAddress && RowOf(l, Revealing, t, j).None?))
  }

  predicate SomeRevealFails(l: Local, t: Task) {
    !t.completed && exists j :: 0 <= j < |t.threads| && RevealFails(l, t, j)
  }

  predicate RevealsFail(l: Local, s: State, n: nat) {
    exists i: nat :: i < n && SomeRevealFails(l, TaskAt(s, i))
  }

  predicate AllThreadsCompleted(t: Task) {
    forall j :: 0 <= j < |t.threads| ==> t.threads[j].completed
  }

  function Finished(t: Task): Task {
    if !t.completed && AllThreadsCompleted(t) then t.(completed := true) else t
  }

  /** The record stored under the empty key when a task number has no task. */
  const NOBODYS_TASK := ZERO_TASK.(completed := true)

  /** The tasks after the numbers below n were looked at. */
  function FinishedTasks(tasks: map<Str, Task>, n: nat): map<Str, Task> {
    (map k | k in tasks :: if IsId(k, n) then Finished(tasks[k]) else tasks[k])
      + (if exists i: nat :: i < n && Itoa(i) !in tasks then map[[] := NOBODYS_TASK] else map[])
  }

  /** EndBlock without the node's own concerns. */
  function Ended(s: State): State { s.(tasks := FinishedTasks(s.tasks, s.nextId)) }

  /** The last walk asks the database about the workers' addresses. */
  function EndBlockOn(l: Local, s: State): BlockResult {
    if IdleFlow(l, s).Panic? || RevealsFail(l, s, s.nextId) || (s.workers != map[] && l.db.None?) then
      BlockResult(Panic, s)
    else BlockResult(Proceed, Ended(s))
  }

  /** Every task is stored under its own identifier. */
  predicate KeysMatch(tasks: map<Str, Task>) {
    forall k | k in tasks :: tasks[k].taskId == k
  }

  // ---------- the hooks as they run ----------

  class AppModule {
    const server: MsgServer

    constructor (server: MsgServer)
      ensures this.server == server
    {
      this.server := server;
    }

    /** What a panic leaves in the store is discarded with the block. */
    method BeginBlock(env: Env, l: Local) returns (flow: Flow)
      requires KeysMatch(server.tasks)
      modifies server
      ensures flow == BeginBlockOn(env, l, old(server.Chain())).flow
      ensures !flow.Panic? ==> server.Chain() == BeginBlockOn(env, l, old(server.Chain())).next
    {
      AdjustValidators();
      if l.enabled && l.workerAddress != [] {
        var worker := LookUp(server.workers, l.workerAddress);
        if worker.enabled && worker.currentTaskId != [] {
          if worker.currentTaskId !in server.tasks {
            return Stop;
          }
          var task := server.tasks[worker.currentTaskId];
          if !(0 <= worker.currentThreadIndex < |task.threads|) {
            return Panic; // index out of range
          }
          var dbThread := RowOf(l, Working, task, worker.currentThreadIndex);
          if dbThread.None? {
            return Panic; // nil dereference
          }
        }
      }
      flow := WalkTasks(env, l);
    }

    /** Counts the registered workers, in whatever order the store lists them. */
    method AdjustValidators()
      modifies server
      ensures server.Chain() == Adjusted(old(server.Chain()))
    {
      var count := 0;
      var seen := {};
      while seen != server.workers.Keys
        invariant seen <= server.workers.Keys && count == |seen|
        decreases server.workers.Keys - seen
      {
        var a :| a in server.workers && a !in seen;
        seen := seen + {a};
        count := count + 1;
      }
      assert |server.workers.Keys| == |server.workers|;
      if count > 1 && count < 7 {
        server.params := server.params.(minValidators := count);
      }
    }

    /** The walk over the stored tasks, in whatever order. */
    method WalkTasks(env: Env, l: Local) returns (flow: Flow)
      requires KeysMatch(server.tasks)
      modifies server
      ensures flow == if SomeDeliveryFails(env, l, old(server.tasks)) then Panic else Proceed
      ensures flow.Proceed? ==> server.Chain() == old(server.Chain()).(
        tasks := map k | k in old(server.tasks) :: BegunTask(env, old(server.tasks)[k]))
    {
      hide DeliveryFails, BegunTask;
      ghost var was := server.tasks;
      var left := server.tasks.Keys;
      while left != {}
        invariant left <= was.Keys
        invariant server.tasks.Keys == was.Keys
        invariant forall k | k in was :: server.tasks[k] == if k in left then was[k] else BegunTask(env, was[k])
        invariant forall k | k in was && k !in left :: !DeliveryFails(env, l, was[k])
        invariant server.Chain() == old(server.Chain()).(tasks := server.tasks)
        decreases left
      {
        var key :| key in left;
        flow := WalkTask(env, l, server.tasks[key]);
        if flow.Panic? {
          return;
        }
        left := left - {key};
      }
      return Proceed;
    }

    /** One step of the walk: every accepted thread stores the whole task. */
    method WalkTask(env: Env, l: Local, task: Task) returns (flow: Flow)
      requires task.taskId in server.tasks && server.tasks[task.taskId] == task
      modifies server
      ensures flow == if DeliveryFails(env, l, task) then Panic else Proceed
      ensures flow.Proceed? ==> server.Chain() == old(server.Chain()).(
        tasks := old(server.tasks)[task.taskId := BegunTask(env, task)])
    {
      hide Takes, Looked, RowOf;
      assert server.tasks == server.tasks[task.taskId := task];
      if !task.completed {
        var threads := task.threads;
        assert task.(threads := threads) == task;
        for i := 0 to |threads|
          invariant |threads| == |task.threads| && threads == Scan(env, task.threads, i).0
          invariant server.Chain() == old(server.Chain()).(
            tasks := old(server.tasks)[task.taskId := task.(threads := Scan(env, task.threads, i).1)])
          invariant forall j :: 0 <= j < i && Delivers(env, l, task.threads[j]) ==> RowOf(l, Delivering, task, j).Some?
        {
          ScanMemory(env, task.threads, i, i);
          ScanMemory(env, task.threads, i + 1, i);
          var thread, accepted := LookAt(env, threads[i]);
          threads := threads[i := thread];
          if accepted {
            server.tasks := server.tasks[task.taskId := task.(threads := threads)];
          }
          assert threads == Scan(env, task.threads, i + 1).0;
          var solution := threads[i].solution;
          if solution.Some? && solution.value.accepted && solution.value.dir == []
            && solution.value.proposedBy == l.workerAddress {
            var localThread := RowOf(l, Delivering, task, i);
            if localThread.None? {
              return Panic; // nil dereference
            }
          }
        }
      }
      return Proceed;
    }

    /** The judgement of one thread in memory. */
    static method LookAt(env: Env, th: Thread) returns (now: Thread, accepted: bool)
      ensures now == Looked(env, th) && accepted == Takes(env, th)
    {
      if !Due(th) {
        return th, false;
      }
      var thread := new VideoRenderingThread(th);
      var decoded := thread.EvaluateVerifications(env);
      accepted := thread.IsSolutionAccepted();
      if accepted {
        thread.value := Accepted(thread.value);
      }
      return thread.value, accepted;
    }

    method EndBlock(l: Local) returns (flow: Flow)
      requires KeysMatch(server.tasks)
      modifies server
      ensures flow == EndBlockOn(l, old(server.Chain())).flow
      ensures !flow.Panic? ==> server.Chain() == EndBlockOn(l, old(server.Chain())).next
    {
      hide FinishedTasks, RevealsFail;
      if l.enabled && l.workerAddress != [] {
        var worker := LookUp(server.workers, l.workerAddress);
        if worker.address == [] {
          if l.db.None? {
            return Panic; // nil dereference
          }
        }
        if worker.enabled && worker.currentTaskId == [] {
          var search := FindPending(l);
          if search.Faulty? {
            return Panic;
          }
          if search.Found? {
            flow := ChooseThread(l, search.task, worker.address);
            if flow.Panic? {
              return;
            }
          }
        }
      }
      flow := LookForReveals(l);
      if flow.Panic? {
        return;
      }
      CompleteTasks();
      if server.workers != map[] && l.db.None? {
        return Panic; // nil dereference
      }
    }

    /** getPendingVideoRenderingTask. */
    method FindPending(l: Local) returns (search: Search)
      ensures search == Pending(l, server.Chain(), 0)
    {
      var i := 0;
      while i < server.nextId
        invariant Pending(l, server.Chain(), 0) == Pending(l, server.Chain(), i)
      {
        if Itoa(i) in server.tasks {
          var task := server.tasks[Itoa(i)];
          if !task.completed {
            if task.reward.None? {
              return Faulty; // nil dereference
            }
            if task.reward.value.amount >= l.minReward {
              for j := 0 to |task.threads|
                invariant forall k :: 0 <= k < j ==> !Free(task.threads[k], server.params.maxWorkersPerThread)
              {
                if !task.threads[j].completed && |task.threads[j].workers| < server.params.maxWorkersPerThread {
                  assert Free(task.threads[j], server.params.maxWorkersPerThread);
                  return Found(task);
                }
              }
            }
          }
        }
        i := i + 1;
      }
      return Nothing;
    }

    /** The loop that picks the thread to subscribe the idle worker to. */
    method ChooseThread(l: Local, task: Task, address: Str) returns (flow: Flow)
      ensures flow == JoinFlow(l, task, server.params.maxWorkersPerThread, address, 0)
    {
      var max := server.params.maxWorkersPerThread;
      for j := 0 to |task.threads|
        invariant JoinFlow(l, task, max, address, 0) == JoinFlow(l, task, max, address, j)
      {
        var value := task.threads[j];
        if !value.completed && |value.workers| < max && address !in value.workers {
          var dbTask := SubscriptionOf(l, task, j);
          if dbTask.None? {
            return Panic; // nil dereference
          }
          if !dbTask.value {
            return Proceed;
          }
        }
      }
      return Proceed;
    }

    /** The loop that decides whether this node must reveal a solution. */
    method LookForReveals(l: Local) returns (flow: Flow)
      ensures flow == if RevealsFail(l, server.Chain(), server.nextId) then Panic else Proceed
    {
      for i := 0 to server.nextId
        invariant !RevealsFail(l, server.Chain(), i)
      {
        var task := if Itoa(i) in server.tasks then server.tasks[Itoa(i)] else ZERO_TASK;
        assert task == TaskAt(server.Chain(), i);
        if !task.completed {
          for j := 0 to |task.threads|
            invariant forall k :: 0 <= k < j ==> !RevealFails(l, task, k)
          {
            var thread := task.threads[j];
            if Peeks(thread) {
              if thread.solution.None? {
                assert RevealFails(l, task, j) && SomeRevealFails(l, TaskAt(server.Chain(), i));
                return Panic; // nil dereference
              }
              if thread.solution.value.proposedBy == l.workerAddress {
                var db := RowOf(l, Revealing, task, j);
                if db.None? {
                  assert RevealFails(l, task, j) && SomeRevealFails(l, TaskAt(server.Chain(), i));
                  return Panic; // nil dereference
                }
              }
            }
          }
        }
      }
      return Proceed;
    }

    method CompleteTasks()
      requires KeysMatch(server.tasks)
      modifies server
      ensures server.Chain() == Ended(old(server.Chain()))
    {
      hide FinishedTasks;
      ghost var was := server.tasks;
      FinishedNone(was);
      for i := 0 to server.nextId
        invariant server.tasks == FinishedTasks(was, i)
        invariant server.Chain() == old(server.Chain()).(tasks := server.tasks)
      {
        NotYet(was, i);
        FinishedStep(was, i);
        var task := if Itoa(i) in server.tasks then server.tasks[Itoa(i)] else ZERO_TASK;
        if !task.completed {
          var completed := ThreadsCompleted(task);
          if completed {
            task := task.(completed := true);
            server.tasks := server.tasks[task.taskId := task];
          }
        }
      }
    }

    static method ThreadsCompleted(task: Task) returns (completed: bool)
      ensures completed == AllThreadsCompleted(task)
    {
      completed := true;
      for j := 0 to |task.threads|
        invariant completed && forall k :: 0 <= k < j ==> task.threads[k].completed
      {
        if !task.threads[j].completed {
          completed := false;
          break;
        }
      }
    }
  }

  // ---------- helpers of the methods above ----------

  lemma FinishedNone(tasks: map<Str, Task>)
    ensures FinishedTasks(tasks, 0) == tasks
  {
  }

  lemma NotYet(tasks: map<Str, Task>, i: nat)
    ensures Itoa(i) in FinishedTasks(tasks, i) <==> Itoa(i) in tasks
    ensures Itoa(i) in tasks ==> FinishedTasks(tasks, i)[Itoa(i)] == tasks[Itoa(i)]
  {
    if IsId(Itoa(i), i) {
      var j: nat :| j < i && Itoa(j) == Itoa(i);
      ItoaInjective(j, i);
    }
  }

  lemma FinishedStep(tasks: map<Str, Task>, i: nat)
    ensures FinishedTasks(tasks, i + 1) ==
      if Itoa(i) in tasks then FinishedTasks(tasks, i)[Itoa(i) := Finished(tasks[Itoa(i)])]
      else FinishedTasks(tasks, i)[[] := NOBODYS_TASK]
  {
    hide Itoa, Finished;
    forall k ensures IsId(k, i + 1) <==> IsId(k, i) || k == Itoa(i) {
      if k == Itoa(i) { assert i < i + 1 && Itoa(i) == k; }
    }
  }
}
