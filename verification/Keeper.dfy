/** The message server over the module's store: the handlers of keeper/msg_server.go, written as they
    run, and proved equal to the transition functions of module Handlers. */
module Keeper {
  import opened Basics
  import opened Protocol
  import opened Splitting
  import opened Verification
  import opened CliCodec
  import opened Workers
  import opened Handlers

  class MsgServer {
    var params: Params
    var nextId: nat
    var tasks: map<Str, Task>
    var workers: map<Str, Worker>
    var bank: Bank

    function Chain(): State
      reads this
    {
      State(params, nextId, tasks, workers, bank)
    }

    /** InitGenesis: the given parameters and task counter, nothing else. */
    constructor (params: Params, nextId: nat, bank: Bank)
      ensures Chain() == State(params, nextId, map[], map[], bank)
    {
      this.params, this.nextId, this.bank := params, nextId, bank;
      tasks, workers := map[], map[];
    }

    /** Runs one transaction; the SDK discards all writes of one that fails. */
    method DeliverTx(env: Env, m: Msg) returns (failed: bool)
      modifies this
      ensures Chain() == Deliver(env, old(Chain()), m)
      ensures failed <==> Handle(env, old(Chain()), m).None?
    {
      var nextId', tasks', workers', bank' := nextId, tasks, workers, bank;
      match m {
        case CreateVideoRenderingTask(_, _, _, _, _, _) => failed := CreateTask(env, m);
        case AddWorker(_, _, _, _) => failed := RegisterWorker(env, m);
        case SubscribeWorkerToTask(_, _, _) => failed := Subscribe(m);
        case ProposeSolution(_, _, _, _, _) => failed := Propose(env, m);
        case RevealSolution(_, _, _, _) => failed := Reveal(m);
        case SubmitValidation(_, _, _, _, _) => failed := Validate(m);
        case SubmitSolution(_, _, _, _, _) => failed := Submit(env, m);
      }
      if failed {
        nextId, tasks, workers, bank := nextId', tasks', workers', bank';
      }
    }

    method CreateTask(env: Env, m: Msg) returns (failed: bool)
      requires m.CreateVideoRenderingTask?
      modifies this
      ensures failed <==> CreateStep(env, old(Chain()), m).None?
      ensures !failed ==> CreateStep(env, old(Chain()), m) == Some(Chain())
      ensures params == old(params)
    {
      if !env.cidDecodes(m.cid) {
        return true;
      }
      var taskId := Itoa(nextId);
      nextId := nextId + 1;
      var task := Task(taskId, m.creator, m.cid, m.startFrame, m.endFrame, m.threads, false, m.reward, []);
      if task.threadAmount <= 0 {
        return true; // division by zero or a negative slice length in splitFrames
      }
      var threads := GenerateThreads(task);
      task := task.(threads := threads);
      if m.reward.None? || NewCoinsPanics(env, m.reward.value) {
        return true;
      }
      var sent := bank.Deposit(m.creator, m.reward.value);
      if sent.Some? {
        bank := sent.value;
      }
      tasks := tasks[taskId := task];
      return false;
    }

    method RegisterWorker(env: Env, m: Msg) returns (failed: bool)
      requires m.AddWorker?
      modifies this
      ensures failed <==> AddWorkerStep(env, old(Chain()), m).None?
      ensures !failed ==> AddWorkerStep(env, old(Chain()), m) == Some(Chain())
      ensures params == old(params)
    {
      if m.creator in workers {
        return true;
      }
      if m.stake.denom != params.minWorkerStaking.denom {
        return true;
      }
      if m.stake.amount < params.minWorkerStaking.amount {
        return true;
      }
      var balance := bank.Balance(m.creator, params.minWorkerStaking.denom);
      if balance < params.minWorkerStaking.amount {
        return true;
      }
      var none := Coin(params.minWorkerStaking.denom, 0);
      if NewCoinPanics(env, none) {
        return true;
      }
      var reputation := Reputation(m.stake, 0, 0, 0, none, []);
      var worker := Worker(m.creator, Some(reputation), true, [], 0, m.publicIp, m.ipfsId);
      workers := workers[m.creator := worker];
      if NewCoinsPanics(env, m.stake) {
        return true;
      }
      var sent := bank.Deposit(m.creator, m.stake);
      if sent.None? {
        return true;
      }
      bank := sent.value;
      return false;
    }

    method Subscribe(m: Msg) returns (failed: bool)
      requires m.SubscribeWorkerToTask?
      modifies this
      ensures failed <==> SubscribeStep(old(Chain()), m).None?
      ensures !failed ==> SubscribeStep(old(Chain()), m) == Some(Chain())
      ensures params == old(params)
    {
      if m.address !in workers {
        return true;
      }
      var worker := workers[m.address];
      if !worker.enabled {
        return true;
      }
      if m.taskId !in tasks {
        return true;
      }
      var task := tasks[m.taskId];
      if task.completed {
        return true;
      }
      for i := 0 to |task.threads|
        invariant FirstOpen(task.threads[..i], m.threadId, params.maxWorkersPerThread) == -1
        invariant Chain() == old(Chain())
      {
        var v := task.threads[i];
        assert task.threads[..i + 1][..i] == task.threads[..i];
        if v.threadId == m.threadId {
          if |v.workers| < params.maxWorkersPerThread && !v.completed {
            FirstOpenStays(task.threads, m.threadId, params.maxWorkersPerThread, i + 1);
            if worker.address in v.workers {
              return false;
            }
            v := v.(workers := v.workers + [m.address]);
            worker := worker.(currentTaskId := task.taskId);
            worker := worker.(currentThreadIndex := i);
            workers := workers[m.address := worker];
            task := WithThread(task, i, v);
            tasks := tasks[task.taskId := task];
            return false;
          }
        }
      }
      assert task.threads[..|task.threads|] == task.threads;
      return false;
    }

    method Propose(env: Env, m: Msg) returns (failed: bool)
      requires m.ProposeSolution?
      modifies this
      ensures failed <==> ProposeStep(env, old(Chain()), m).None?
      ensures !failed ==> ProposeStep(env, old(Chain()), m) == Some(Chain())
      ensures params == old(params)
    {
      if m.creator !in workers {
        return true;
      }
      if !workers[m.creator].enabled {
        return true;
      }
      if m.taskId !in tasks {
        return true;
      }
      var task := tasks[m.taskId];
      if task.completed {
        return true;
      }
      ghost var was := task.threads;
      for i := 0 to |task.threads|
        invariant |task.threads| == |was| && task == old(tasks)[m.taskId].(threads := task.threads)
        invariant forall j :: 0 <= j < i && was[j].threadId == m.threadId ==> CanPropose(env, was[j], m)
        invariant forall j :: 0 <= j < i ==> task.threads[j] == Proposed(was[j], m)
        invariant forall j :: i <= j < |was| ==> task.threads[j] == was[j]
        invariant Chain() == old(Chain()).(tasks := old(tasks)[m.taskId := task])
      {
        var v := task.threads[i];
        if v.threadId == m.threadId {
          if v.solution.Some? {
            return true;
          }
          if m.creator !in v.workers {
            return true;
          }
          if |m.signatures| != v.endFrame - v.startFrame + 1 {
            return true;
          }
          var parsed, frames := ParseSignatures(m.signatures);
          if !parsed {
            return true;
          }
          if !env.keyDecodes(m.publicKey) {
            return true;
          }
          v := v.(solution := Some(Solution(m.creator, frames, m.publicKey, [], false)));
          task := WithThread(task, i, v);
          tasks := tasks[m.taskId := task];
        }
      }
      assert task.threads == ProposedThreads(env, was, m);
      return false;
    }

    /** The loop that turns filename=signature entries into frames; an entry without '=' panics. */
    static method ParseSignatures(signatures: seq<Str>) returns (parsed: bool, frames: seq<Frame>)
      ensures parsed <==> Parses(signatures)
      ensures parsed ==> frames == SignedFrames(signatures)
    {
      frames := [];
      for i := 0 to |signatures|
        invariant |frames| == i
        invariant forall j :: 0 <= j < i ==> EQUALS in signatures[j] && frames[j] == SignedFrame(signatures[j])
      {
        var parts := SplitN2(signatures[i], EQUALS);
        if |parts| < 2 {
          return false, [];
        }
        frames := frames + [Frame(parts[0], parts[1], [], [], 0, 0)];
      }
      return true, frames;
    }

    method Reveal(m: Msg) returns (failed: bool)
      requires m.RevealSolution?
      modifies this
      ensures failed <==> RevealStep(old(Chain()), m).None?
      ensures !failed ==> RevealStep(old(Chain()), m) == Some(Chain())
      ensures params == old(params)
    {
      if m.taskId !in tasks {
        return true;
      }
      var task := tasks[m.taskId];
      if m.creator !in workers {
        return true;
      }
      var worker := workers[m.creator];
      if worker.currentTaskId != m.taskId {
        return true;
      }
      if task.completed {
        return true;
      }
      if !(0 <= worker.currentThreadIndex < |task.threads|) {
        return true; // index out of range
      }
      var thread := task.threads[worker.currentThreadIndex];
      if thread.solution.None? {
        return true; // nil dereference
      }
      if thread.solution.value.accepted {
        return true;
      }
      if thread.solution.value.proposedBy != m.creator {
        return true;
      }
      if thread.threadId != m.threadId {
        return true;
      }
      if m.creator !in thread.workers {
        return true; // "this shouldn't happen", see Runs.DeadBranches
      }
      var ok, frames := RevealFrames(thread.solution.value.frames, m.frames);
      if !ok {
        return true;
      }
      task := WithThread(task, worker.currentThreadIndex, WithFrames(thread, frames));
      tasks := tasks[m.taskId := task];
      return false;
    }

    /** The reveal itself: copies the entries onto the frames of those names, walking the decoded map
        in whatever order, then checks that nothing is left unrevealed. */
    static method RevealFrames(was: seq<Frame>, entries: seq<Str>) returns (ok: bool, frames: seq<Frame>)
      ensures ok <==> RevealOf(was, entries).Some?
      ensures ok ==> RevealOf(was, entries) == Some(frames)
    {
      hide RevealedBut, FirstNamed, FramesOf, Revealed, RevealedFrames;
      frames := was;
      if |entries| != |was| {
        return false, frames;
      }
      var solution := FromCliToFrames(entries);
      var left := solution.Keys;
      ButAll(was, solution);
      while left != {}
        invariant left <= solution.Keys
        invariant RevealedBut(was, frames, solution, left)
        invariant forall k | k in solution && k !in left :: FirstNamed(was, k) >= 0
        decreases left
      {
        var k :| k in left;
        var frame := solution[k];
        assert frame.filename == k;
        SameNames(was, frames, solution, left, k);
        var idx := FirstNamed(frames, frame.filename);
        if idx < 0 {
          return false, frames;
        }
        ButOneLess(was, frames, solution, left, k);
        frames := frames[idx := frames[idx].(cid := frame.cid, hash := frame.hash)];
        left := left - {k};
      }
      ButNone(was, frames, solution);
      for i := 0 to |frames|
        invariant forall j :: 0 <= j < i ==> frames[j].cid != [] && frames[j].hash != []
      {
        if frames[i].cid == [] || frames[i].hash == [] {
          return false, frames;
        }
      }
      return true, frames;
    }

    method Validate(m: Msg) returns (failed: bool)
      requires m.SubmitValidation?
      modifies this
      ensures failed <==> ValidateStep(old(Chain()), m).None?
      ensures !failed ==> ValidateStep(old(Chain()), m) == Some(Chain())
      ensures params == old(params)
    {
      if m.taskId !in tasks {
        return true;
      }
      var task := tasks[m.taskId];
      if m.creator !in workers {
        return true;
      }
      var worker := new WorkerObject(workers[m.creator]);
      if !worker.value.enabled {
        return true;
      }
      if worker.value.currentTaskId != m.taskId {
        return true;
      }
      if task.completed {
        return true;
      }
      if !(0 <= worker.value.currentThreadIndex < |task.threads|) {
        return true; // index out of range
      }
      var thread := new VideoRenderingThread(task.threads[worker.value.currentThreadIndex]);
      if thread.value.threadId != m.threadId {
        return true;
      }
      if m.creator !in thread.value.workers {
        return true; // "this shouldn't happen", see Runs.DeadBranches
      }
      var parsed, frames := ParseSignatures(m.signatures);
      if !parsed {
        return true;
      }
      var isReverse := thread.IsReverse(worker.value.address);
      var validation := Validation(m.creator, frames, m.publicKey, isReverse);
      thread.value := thread.value.(validations := thread.value.validations + [validation]);
      task := WithThread(task, worker.value.currentThreadIndex, thread.value);
      tasks := tasks[m.taskId := task];
      if thread.value.solution.None? {
        return true; // nil dereference
      }
      if worker.value.address != thread.value.solution.value.proposedBy {
        worker.ReleaseValidator();
        workers := workers[m.creator := worker.value];
      }
      return false;
    }

    method Submit(env: Env, m: Msg) returns (failed: bool)
      requires m.SubmitSolution?
      modifies this
      ensures failed <==> SubmitStep(env, old(Chain()), m).None?
      ensures !failed ==> SubmitStep(env, old(Chain()), m) == Some(Chain())
      ensures params == old(params)
    {
      if m.taskId !in tasks {
        return true;
      }
      var task := tasks[m.taskId];
      var i := 0;
      while i < |task.threads| && task.threads[i].threadId != m.threadId
        invariant 0 <= i <= |task.threads|
        invariant forall j :: 0 <= j < i ==> task.threads[j].threadId != m.threadId
      {
        i := i + 1;
      }
      if i == |task.threads| {
        return false;
      }
      var thread := task.threads[i];
      if thread.solution.None? {
        return true; // nil dereference
      }
      if thread.solution.value.proposedBy != m.creator {
        return true;
      }
      if task.reward.None? || NewCoinPanics(env, WinnerReward(task)) {
        return true;
      }
      var payment := WinnerReward(task);
      var sent := bank.Withdraw(m.creator, payment);
      if sent.Some? {
        bank := sent.value;
      }
      task := WithThread(task, i, Submitted(thread, m));
      tasks := tasks[m.taskId := task];
      var panics := ReleaseThread(task, m.threadId, thread.workers);
      if panics {
        return true;
      }
      var worker := new WorkerObject(LookUp(workers, m.creator));
      panics := worker.DeclareWinner(payment);
      if panics {
        return true;
      }
      worker.AppendDuration(m.averageRenderSeconds);
      workers := workers[m.creator := worker.value];
      return false;
    }

    /** The loop of SubmitSolution over the thread's workers. */
    method ReleaseThread(task: Task, threadId: Str, list: seq<Str>) returns (panics: bool)
      modifies this
      ensures panics <==> ReleaseAll(old(workers), task, threadId, list).None?
      ensures !panics ==> ReleaseAll(old(workers), task, threadId, list) == Some(workers)
      ensures params == old(params) && nextId == old(nextId) && tasks == old(tasks) && bank == old(bank)
    {
      for i := 0 to |list|
        invariant ReleaseAll(old(workers), task, threadId, list[..i]) == Some(workers)
        invariant params == old(params) && nextId == old(nextId) && tasks == old(tasks) && bank == old(bank)
      {
        assert list[..i + 1][..i] == list[..i];
        var worker := LookUp(workers, list[i]);
        if task.taskId == worker.currentTaskId {
          if !(0 <= worker.currentThreadIndex < |task.threads|) {
            ReleaseAllFails(old(workers), task, threadId, list, i + 1);
            return true; // index out of range
          }
          if threadId == task.threads[worker.currentThreadIndex].threadId {
            worker := worker.(currentTaskId := []);
            worker := worker.(currentThreadIndex := 0);
            workers := workers[worker.address := worker];
          }
        }
      }
      assert list[..|list|] == list;
      return false;
    }
  }

  // ---------- helpers of the methods above ----------

  lemma {:induction false} FirstOpenStays(threads: seq<Thread>, threadId: Str, max: int, n: nat)
    requires n <= |threads| && FirstOpen(threads[..n], threadId, max) >= 0
    ensures FirstOpen(threads, threadId, max) == FirstOpen(threads[..n], threadId, max)
    decreases |threads|
  {
    if n == |threads| {
      assert threads[..n] == threads;
    } else {
      assert threads[..|threads| - 1][..n] == threads[..n];
      FirstOpenStays(threads[..|threads| - 1], threadId, max, n);
    }
  }

  lemma {:induction false} ReleaseAllFails(
      workers: map<Str, Worker>, t: Task, threadId: Str, list: seq<Str>, n: nat)
    requires n <= |list| && ReleaseAll(workers, t, threadId, list[..n]).None?
    ensures ReleaseAll(workers, t, threadId, list).None?
    decreases |list|
  {
    if n == |list| {
      assert list[..n] == list;
    } else {
      assert list[..|list| - 1][..n] == list[..n];
      ReleaseAllFails(workers, t, threadId, list[..|list| - 1], n);
    }
  }

  /** The frames once the names outside left have received their revealed values. */
  ghost predicate RevealedBut(was: seq<Frame>, now: seq<Frame>, m: map<Str, Frame>, left: set<Str>) {
    && |now| == |was|
    && forall i :: 0 <= i < |was| ==>
      now[i] == if was[i].filename in left then was[i] else Revealed(was, m, i)
  }

  lemma ButAll(was: seq<Frame>, m: map<Str, Frame>)
    ensures RevealedBut(was, was, m, m.Keys)
  {
  }

  /** Revealing other names does not move the first frame of a name. */
  lemma SameNames(was: seq<Frame>, now: seq<Frame>, m: map<Str, Frame>, left: set<Str>, k: Str)
    requires k in left && RevealedBut(was, now, m, left)
    ensures |now| == |was| && FirstNamed(now, k) == FirstNamed(was, k)
  {
    hide FirstNamed;
    forall i | 0 <= i < |was| ensures now[i].filename == was[i].filename { }
  }

  lemma ButOneLess(was: seq<Frame>, now: seq<Frame>, m: map<Str, Frame>, left: set<Str>, k: Str)
    requires k in left && k in m && RevealedBut(was, now, m, left)
    requires |now| == |was| && FirstNamed(was, k) >= 0
    ensures var i := FirstNamed(was, k);
      RevealedBut(was, now[i := now[i].(cid := m[k].cid, hash := m[k].hash)], m, left - {k})
  {
  }

  lemma ButNone(was: seq<Frame>, now: seq<Frame>, m: map<Str, Frame>)
    requires RevealedBut(was, now, m, {})
    ensures now == RevealedFrames(was, m) && |now| == |was|
  {
  }
}
