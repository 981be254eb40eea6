/** keeper/msg_server.go as a state machine: each message maps a state to the next one, or to None
    when the source returns an error or panics and the transaction is rolled back. */
module Handlers {
  import opened Basics
  import opened Protocol
  import opened Splitting
  import opened Verification
  import opened CliCodec
  import opened Workers

  // ---------- CreateVideoRenderingTask ----------

  function NewTask(id: Str, m: Msg): Task
    requires m.CreateVideoRenderingTask? && m.threads > 0
  {
    Task(id, m.creator, m.cid, m.startFrame, m.endFrame, m.threads, false, m.reward,
         FreshThreads(id, m.startFrame, m.endFrame, m.threads))
  }

  function CreateStep(env: Env, s: State, m: Msg): Option<State>
    requires m.CreateVideoRenderingTask?
  {
    if !env.cidDecodes(m.cid) || m.threads <= 0 || m.reward.None? || NewCoinsPanics(env, m.reward.value) then None
    else
      var id := Itoa(s.nextId);
      // the result of the transfer is ignored
      var bank := match s.bank.Deposit(m.creator, m.reward.value) case Some(b) => b case None => s.bank;
      Some(s.(nextId := s.nextId + 1, tasks := s.tasks[id := NewTask(id, m)], bank := bank))
  }

  // ---------- AddWorker ----------

  function NewWorker(m: Msg, denom: Str): Worker
    requires m.AddWorker?
  {
    Worker(m.creator, Some(Reputation(m.stake, 0, 0, 0, Coin(denom, 0), [])), true, [], 0, m.publicIp, m.ipfsId)
  }

  function AddWorkerStep(env: Env, s: State, m: Msg): Option<State>
    requires m.AddWorker?
  {
    var min := s.params.minWorkerStaking;
    if m.creator in s.workers || m.stake.denom != min.denom || m.stake.amount < min.amount
      || s.bank.Balance(m.creator, min.denom) < min.amount
      || NewCoinPanics(env, Coin(min.denom, 0)) || NewCoinsPanics(env, m.stake) then None
    else match s.bank.Deposit(m.creator, m.stake)
      case None => None
      case Some(bank) =>
        Some(s.(workers := s.workers[m.creator := NewWorker(m, min.denom)], bank := bank))
  }

  // ---------- SubscribeWorkerToTask ----------

  predicate Open(t: Thread, threadId: Str, max: int) {
    t.threadId == threadId && |t.workers| < max && !t.completed
  }

  /** The first thread with the identifier that still takes workers, or -1. */
  function FirstOpen(threads: seq<Thread>, threadId: Str, max: int): (i: int)
    ensures -1 <= i < |threads|
    ensures i >= 0 ==> Open(threads[i], threadId, max)
    ensures forall j :: 0 <= j < (if i < 0 then |threads| else i) ==> !Open(threads[j], threadId, max)
  {
    if threads == [] then -1
    else
      var i := FirstOpen(threads[..|threads| - 1], threadId, max);
      assert forall j :: 0 <= j < |threads| - 1 ==> threads[..|threads| - 1][j] == threads[j];
      if i >= 0 then i else if Open(threads[|threads| - 1], threadId, max) then |threads| - 1 else -1
  }

  function WithThread(t: Task, i: nat, th: Thread): Task
    requires i < |t.threads|
  {
    t.(threads := t.threads[i := th])
  }

  function SubscribeStep(s: State, m: Msg): Option<State>
    requires m.SubscribeWorkerToTask?
  {
    if m.address !in s.workers || !s.workers[m.address].enabled
      || m.taskId !in s.tasks || s.tasks[m.taskId].completed then None
    else
      var w, t := s.workers[m.address], s.tasks[m.taskId];
      var i := FirstOpen(t.threads, m.threadId, s.params.maxWorkersPerThread);
      if i < 0 || w.address in t.threads[i].workers then Some(s)
      else
        var th := t.threads[i];
        Some(s.(workers := s.workers[m.address := w.(currentTaskId := t.taskId, currentThreadIndex := i)],
                tasks := s.tasks[t.taskId := WithThread(t, i, th.(workers := th.workers + [m.address]))]))
  }

  // ---------- ProposeSolution ----------

  /** Every entry has a separator; the source panics on one that has not. */
  predicate Parses(signatures: seq<Str>) {
    forall i :: 0 <= i < |signatures| ==> EQUALS in signatures[i]
  }

  function SignedFrame(entry: Str): Frame
    requires EQUALS in entry
  {
    var parts := SplitN2(entry, EQUALS);
    Frame(parts[0], parts[1], [], [], 0, 0)
  }

  function SignedFrames(signatures: seq<Str>): (fs: seq<Frame>)
    requires Parses(signatures)
  {
    seq(|signatures|, i requires 0 <= i < |signatures| => SignedFrame(signatures[i]))
  }

  predicate CanPropose(env: Env, th: Thread, m: Msg)
    requires m.ProposeSolution?
  {
    && th.solution.None?
    && m.creator in th.workers
    && |m.signatures| == th.endFrame - th.startFrame + 1
    && Parses(m.signatures)
    && env.keyDecodes(m.publicKey)
  }

  /** Thread th after the proposal: unchanged unless it carries the identifier. */
  function Proposed(th: Thread, m: Msg): Thread
    requires m.ProposeSolution? && (th.threadId == m.threadId ==> Parses(m.signatures))
  {
    if th.threadId != m.threadId then th
    else th.(solution := Some(Solution(m.creator, SignedFrames(m.signatures), m.publicKey, [], false)))
  }

  predicate ProposalOk(env: Env, threads: seq<Thread>, m: Msg)
    requires m.ProposeSolution?
  {
    forall i :: 0 <= i < |threads| && threads[i].threadId == m.threadId ==> CanPropose(env, threads[i], m)
  }

  function ProposedThreads(env: Env, threads: seq<Thread>, m: Msg): (r: seq<Thread>)
    requires m.ProposeSolution? && ProposalOk(env, threads, m)
  {
    seq(|threads|, i requires 0 <= i < |threads| => Proposed(threads[i], m))
  }

  function ProposeStep(env: Env, s: State, m: Msg): Option<State>
    requires m.ProposeSolution?
  {
    if m.creator !in s.workers || !s.workers[m.creator].enabled
      || m.taskId !in s.tasks || s.tasks[m.taskId].completed
      || !ProposalOk(env, s.tasks[m.taskId].threads, m) then None
    else
      var t := s.tasks[m.taskId];
      Some(s.(tasks := s.tasks[m.taskId := t.(threads := ProposedThreads(env, t.threads, m))]))
  }

  // ---------- RevealSolution ----------

  /** Frame i after the reveal: only the first frame of a name receives the revealed values. */
  function Revealed(frames: seq<Frame>, m: map<Str, Frame>, i: nat): Frame
    requires i < |frames|
  {
    var f := frames[i];
    if f.filename in m && FirstNamed(frames, f.filename) == i then
      f.(cid := m[f.filename].cid, hash := m[f.filename].hash)
    else f
  }

  function RevealedFrames(frames: seq<Frame>, m: map<Str, Frame>): (r: seq<Frame>)
  {
    seq(|frames|, i requires 0 <= i < |frames| => Revealed(frames, m, i))
  }

  predicate AllKnown(frames: seq<Frame>, m: map<Str, Frame>) {
    forall k | k in m :: FirstNamed(frames, k) >= 0
  }

  predicate FullyRevealed(frames: seq<Frame>) {
    forall i :: 0 <= i < |frames| ==> frames[i].cid != [] && frames[i].hash != []
  }

  /** The solution after a successful reveal of the entries. */
  function RevealOf(frames: seq<Frame>, entries: seq<Str>): Option<seq<Frame>> {
    var m := FramesOf(entries);
    if |entries| != |frames| || !AllKnown(frames, m) || !FullyRevealed(RevealedFrames(frames, m)) then None
    else Some(RevealedFrames(frames, m))
  }

  /** The worker's current task and thread, as RevealSolution and SubmitValidation look them up. */
  predicate WorksOn(s: State, creator: Str, taskId: Str) {
    && taskId in s.tasks && creator in s.workers
    && s.workers[creator].currentTaskId == taskId
    && !s.tasks[taskId].completed
    && 0 <= s.workers[creator].currentThreadIndex < |s.tasks[taskId].threads|
  }

  function CurrentThread(s: State, creator: Str, taskId: Str): Thread
    requires WorksOn(s, creator, taskId)
  {
    s.tasks[taskId].threads[s.workers[creator].currentThreadIndex]
  }

  function RevealStep(s: State, m: Msg): Option<State>
    requires m.RevealSolution?
  {
    if !WorksOn(s, m.creator, m.taskId) then None
    else
      var th := CurrentThread(s, m.creator, m.taskId);
      if th.solution.None? || th.solution.value.accepted || th.solution.value.proposedBy != m.creator
        || th.threadId != m.threadId || m.creator !in th.workers then None
      else match RevealOf(th.solution.value.frames, m.frames)
        case None => None
        case Some(frames) =>
          Some(s.(tasks := s.tasks[m.taskId :=
            WithThread(s.tasks[m.taskId], s.workers[m.creator].currentThreadIndex, WithFrames(th, frames))]))
  }

  // ---------- SubmitValidation ----------

  function NewValidation(th: Thread, w: Worker, m: Msg): Validation
    requires m.SubmitValidation? && Parses(m.signatures)
  {
    Validation(m.creator, SignedFrames(m.signatures), m.publicKey, Reverse(th.workers, w.address))
  }

  function ValidateStep(s: State, m: Msg): Option<State>
    requires m.SubmitValidation?
  {
    if !WorksOn(s, m.creator, m.taskId) || !s.workers[m.creator].enabled then None
    else
      var th, w := CurrentThread(s, m.creator, m.taskId), s.workers[m.creator];
      if th.threadId != m.threadId || m.creator !in th.workers || !Parses(m.signatures) || th.solution.None? then None
      else
        var th' := th.(validations := th.validations + [NewValidation(th, w, m)]);
        Some(s.(tasks := s.tasks[m.taskId := WithThread(s.tasks[m.taskId], w.currentThreadIndex, th')],
                workers := if w.address != th.solution.value.proposedBy then s.workers[m.creator := Released(w)]
                           else s.workers))
  }

  // ---------- SubmitSolution ----------

  /** The first thread with the identifier, or -1. */
  function FirstThread(threads: seq<Thread>, threadId: Str): (i: int)
    ensures -1 <= i < |threads|
    ensures i >= 0 ==> threads[i].threadId == threadId
    ensures forall j :: 0 <= j < (if i < 0 then |threads| else i) ==> threads[j].threadId != threadId
  {
    if threads == [] then -1
    else
      var i := FirstThread(threads[..|threads| - 1], threadId);
      assert forall j :: 0 <= j < |threads| - 1 ==> threads[..|threads| - 1][j] == threads[j];
      if i >= 0 then i else if threads[|threads| - 1].threadId == threadId then |threads| - 1 else -1
  }

  function LookUp(workers: map<Str, Worker>, a: Str): Worker {
    if a in workers then workers[a] else ZERO_WORKER
  }

  /** One pass of the release loop. None is the panic on an index outside the task's threads. */
  function ReleaseOne(ws: map<Str, Worker>, t: Task, threadId: Str, a: Str): Option<map<Str, Worker>> {
    var w := LookUp(ws, a);
    if t.taskId != w.currentTaskId then Some(ws)
    else if !(0 <= w.currentThreadIndex < |t.threads|) then None
    else if t.threads[w.currentThreadIndex].threadId != threadId then Some(ws)
    else Some(ws[w.address := Released(w)])
  }

  /** Releases, in order, the listed workers that are still on the thread. */
  function ReleaseAll(workers: map<Str, Worker>, t: Task, threadId: Str, list: seq<Str>): Option<map<Str, Worker>> {
    if list == [] then Some(workers)
    else match ReleaseAll(workers, t, threadId, list[..|list| - 1])
      case None => None
      case Some(ws) => ReleaseOne(ws, t, threadId, list[|list| - 1])
  }

  function WinnerReward(t: Task): Coin
    requires t.reward.Some? && t.threads != []
  {
    Coin(t.reward.value.denom, ThreadReward(t.reward.value.amount, |t.threads|))
  }

  function Submitted(th: Thread, m: Msg): Thread
    requires m.SubmitSolution? && th.solution.Some?
  {
    th.(solution := Some(th.solution.value.(dir := m.dir)), averageRenderSeconds := m.averageRenderSeconds,
        completed := true)
  }

  function SubmitStep(env: Env, s: State, m: Msg): Option<State>
    requires m.SubmitSolution?
  {
    if m.taskId !in s.tasks then None
    else
      var t := s.tasks[m.taskId];
      var i := FirstThread(t.threads, m.threadId);
      if i < 0 then Some(s)
      else
        var th := t.threads[i];
        if th.solution.None? || th.solution.value.proposedBy != m.creator || t.reward.None?
          || NewCoinPanics(env, WinnerReward(t)) then None
        else
          var payment := WinnerReward(t);
          // the result of the transfer is ignored
          var bank := match s.bank.Withdraw(m.creator, payment) case Some(b) => b case None => s.bank;
          var t' := WithThread(t, i, Submitted(th, m));
          match ReleaseAll(s.workers, t', m.threadId, th.workers)
          case None => None
          case Some(ws) =>
            match Declared(LookUp(ws, m.creator), payment)
            case None => None
            case Some(w) =>
              Some(s.(bank := bank, tasks := s.tasks[m.taskId := t'],
                      workers := ws[m.creator := Timed(w, m.averageRenderSeconds)]))
  }

  // ---------- all messages ----------

  function Handle(env: Env, s: State, m: Msg): Option<State> {
    match m
    case CreateVideoRenderingTask(_, _, _, _, _, _) => CreateStep(env, s, m)
    case AddWorker(_, _, _, _) => AddWorkerStep(env, s, m)
    case SubscribeWorkerToTask(_, _, _) => SubscribeStep(s, m)
    case ProposeSolution(_, _, _, _, _) => ProposeStep(env, s, m)
    case RevealSolution(_, _, _, _) => RevealStep(s, m)
    case SubmitValidation(_, _, _, _, _) => ValidateStep(s, m)
    case SubmitSolution(_, _, _, _, _) => SubmitStep(env, s, m)
  }

  /** A transaction: an error or a panic leaves the store as it was. */
  function Deliver(env: Env, s: State, m: Msg): State {
    match Handle(env, s, m)
    case None => s
    case Some(s') => s'
  }
}
