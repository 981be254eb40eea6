/** The module account: what it holds against what it owes, in every denomination. */
module Escrow {
  import opened Basics
  import opened Protocol
  import opened Splitting
  import opened Workers
  import opened Handlers
  import opened Blocks
  import opened Invariant
  import opened BlockInvariant
  import opened Runs

  // ---------- what a task and a worker stand for ----------

  function CompletedCount(threads: seq<Thread>): (n: nat)
    ensures n <= |threads|
  {
    if threads == [] then 0
    else CompletedCount(threads[..|threads| - 1]) + (if threads[|threads| - 1].completed then 1 else 0)
  }

  predicate RewardIn(t: Task, d: Str) {
    t.reward.Some? && t.reward.value.denom == d && t.threads != []
  }

  /** What the winners of the task's completed threads were paid. */
  function PaidFor(t: Task, d: Str): int {
    if RewardIn(t, d) then CompletedCount(t.threads) * ThreadReward(t.reward.value.amount, |t.threads|) else 0
  }

  /** What is left of the task's reward. */
  function Owed(t: Task, d: Str): int {
    if RewardIn(t, d) then t.reward.value.amount - PaidFor(t, d) else 0
  }

  /** The half of the reward that winners never touch, rounded up. */
  function Reserved(t: Task, d: Str): int {
    if RewardIn(t, d) then t.reward.value.amount - t.reward.value.amount / 2 else 0
  }

  function StakeIn(w: Worker, d: Str): int {
    if w.reputation.Some? && w.reputation.value.staked.denom == d then w.reputation.value.staked.amount else 0
  }

  function WonIn(w: Worker, d: Str): int {
    if w.reputation.Some? && w.reputation.value.winnings.denom == d then w.reputation.value.winnings.amount else 0
  }

  // ---------- sums over tasks ----------

  function OwedIn(d: Str): Task -> int { (t: Task) => Owed(t, d) }
  function PaidIn(d: Str): Task -> int { (t: Task) => PaidFor(t, d) }
  function ReservedIn(d: Str): Task -> int { (t: Task) => Reserved(t, d) }

  /** The sum of f over the tasks with numbers below n. */
  function Total(tasks: map<Str, Task>, n: nat, f: Task -> int): int {
    if n == 0 then 0
    else Total(tasks, n - 1, f) + (if Itoa(n - 1) in tasks then f(tasks[Itoa(n - 1)]) else 0)
  }

  lemma {:induction false} TotalSame(tasks: map<Str, Task>, now: map<Str, Task>, n: nat, f: Task -> int)
    requires forall i: nat :: i < n ==> (Itoa(i) in tasks <==> Itoa(i) in now)
    requires forall i: nat :: i < n && Itoa(i) in tasks ==> f(now[Itoa(i)]) == f(tasks[Itoa(i)])
    ensures Total(now, n, f) == Total(tasks, n, f)
  {
    if n > 0 { TotalSame(tasks, now, n - 1, f); }
  }

  lemma {:induction false} TotalPut(tasks: map<Str, Task>, n: nat, f: Task -> int, i: nat, t: Task)
    requires i < n && Itoa(i) in tasks
    ensures Total(tasks[Itoa(i) := t], n, f) == Total(tasks, n, f) - f(tasks[Itoa(i)]) + f(t)
  {
    forall j: nat | Itoa(j) == Itoa(i) ensures j == i { ItoaInjective(j, i); }
    if i == n - 1 {
      TotalSame(tasks, tasks[Itoa(i) := t], n - 1, f);
    } else {
      TotalPut(tasks, n - 1, f, i, t);
    }
  }

  lemma {:induction false} TotalCompare(tasks: map<Str, Task>, n: nat, f: Task -> int, g: Task -> int)
    requires forall i: nat :: i < n && Itoa(i) in tasks ==> f(tasks[Itoa(i)]) <= g(tasks[Itoa(i)])
    ensures Total(tasks, n, f) <= Total(tasks, n, g)
  {
    if n > 0 { TotalCompare(tasks, n - 1, f, g); }
  }

  lemma {:induction false} TotalAtLeast(tasks: map<Str, Task>, n: nat, f: Task -> int, i: nat)
    requires i < n && Itoa(i) in tasks
    requires forall j: nat :: j < n && Itoa(j) in tasks ==> f(tasks[Itoa(j)]) >= 0
    ensures Total(tasks, n, f) >= f(tasks[Itoa(i)])
  {
    if i == n - 1 { TotalPositive(tasks, n - 1, f); } else { TotalAtLeast(tasks, n - 1, f, i); }
  }

  lemma {:induction false} TotalPositive(tasks: map<Str, Task>, n: nat, f: Task -> int)
    requires forall j: nat :: j < n && Itoa(j) in tasks ==> f(tasks[Itoa(j)]) >= 0
    ensures Total(tasks, n, f) >= 0
  {
    if n > 0 { TotalPositive(tasks, n - 1, f); }
  }

  // ---------- sums over workers ----------

  function Stakes(ws: map<Str, Worker>, d: Str): map<Str, int> { map a | a in ws :: StakeIn(ws[a], d) }
  function Winnings(ws: map<Str, Worker>, d: Str): map<Str, int> { map a | a in ws :: WonIn(ws[a], d) }

  // ---------- the books ----------

  /** In one denomination: the module account holds the stakes and what is left of the rewards, and the
      recorded winnings are what was paid. */
  ghost predicate Balanced(s: State, d: Str) {
    && s.bank.Module(d) == MapSum(Stakes(s.workers, d)) + Total(s.tasks, s.nextId, OwedIn(d))
    && MapSum(Winnings(s.workers, d)) == Total(s.tasks, s.nextId, PaidIn(d))
  }

  ghost predicate Books(s: State) {
    forall d: Str :: Balanced(s, d)
  }

  /** What the module account lacks, and what is recorded as won beyond what was earned. */
  ghost function Missing(s: State, d: Str): int {
    MapSum(Stakes(s.workers, d)) + Total(s.tasks, s.nextId, OwedIn(d)) - s.bank.Module(d)
  }

  ghost function Excess(s: State, d: Str): int {
    MapSum(Winnings(s.workers, d)) - Total(s.tasks, s.nextId, PaidIn(d))
  }

  ghost predicate SameBooks(s: State, now: State) {
    forall d: Str :: Missing(now, d) == Missing(s, d) && Excess(now, d) == Excess(s, d)
  }

  /** What a caller can check beforehand: the requester can pay the reward, and the thread has not been
      completed before unless its reward is nothing. */
  predicate Orderly(s: State, m: Msg) {
    match m
    case CreateVideoRenderingTask(creator, _, _, _, _, reward) =>
      reward.Some? ==> reward.value.amount <= s.bank.Balance(creator, reward.value.denom)
    case SubmitSolution(_, taskId, threadId, _, _) =>
      taskId in s.tasks && s.tasks[taskId].reward.Some? && FirstThread(s.tasks[taskId].threads, threadId) >= 0 ==>
        !s.tasks[taskId].threads[FirstThread(s.tasks[taskId].threads, threadId)].completed
        || WinnerReward(s.tasks[taskId]).amount == 0
    case _ => true
  }

  // ---------- steps that leave the books alone ----------

  predicate SameProgress(t: Task, now: Task) {
    now.reward == t.reward && |now.threads| == |t.threads|
    && forall i :: 0 <= i < |t.threads| ==> now.threads[i].completed == t.threads[i].completed
  }

  lemma {:induction false} SameCount(a: seq<Thread>, b: seq<Thread>)
    requires |a| == |b| && forall i :: 0 <= i < |a| ==> a[i].completed == b[i].completed
    ensures CompletedCount(a) == CompletedCount(b)
  {
    if a != [] { SameCount(a[..|a| - 1], b[..|b| - 1]); }
  }

  lemma ProgressOwed(t: Task, now: Task, d: Str)
    requires SameProgress(t, now)
    ensures OwedIn(d)(now) == OwedIn(d)(t) && PaidIn(d)(now) == PaidIn(d)(t)
  {
    SameCount(t.threads, now.threads);
  }

  predicate SameReputations(ws: map<Str, Worker>, now: map<Str, Worker>) {
    now.Keys == ws.Keys && forall a | a in ws :: now[a].reputation == ws[a].reputation
  }

  lemma TasksUntouched(s: State, now: State, d: Str)
    requires now.nextId == s.nextId
    requires forall i: nat :: i < s.nextId ==> (Itoa(i) in s.tasks <==> Itoa(i) in now.tasks)
    requires forall i: nat :: i < s.nextId && Itoa(i) in s.tasks ==> SameProgress(s.tasks[Itoa(i)], now.tasks[Itoa(i)])
    ensures Total(now.tasks, now.nextId, OwedIn(d)) == Total(s.tasks, s.nextId, OwedIn(d))
    ensures Total(now.tasks, now.nextId, PaidIn(d)) == Total(s.tasks, s.nextId, PaidIn(d))
  {
    forall i: nat | i < s.nextId && Itoa(i) in s.tasks
      ensures OwedIn(d)(now.tasks[Itoa(i)]) == OwedIn(d)(s.tasks[Itoa(i)])
      ensures PaidIn(d)(now.tasks[Itoa(i)]) == PaidIn(d)(s.tasks[Itoa(i)])
    {
      ProgressOwed(s.tasks[Itoa(i)], now.tasks[Itoa(i)], d);
    }
    TotalSame(s.tasks, now.tasks, s.nextId, OwedIn(d));
    TotalSame(s.tasks, now.tasks, s.nextId, PaidIn(d));
  }

  /** Nothing the books look at has changed. */
  lemma BooksUntouched(s: State, now: State)
    requires now.nextId == s.nextId && now.bank.escrow == s.bank.escrow
    requires SameReputations(s.workers, now.workers)
    requires forall i: nat :: i < s.nextId ==> (Itoa(i) in s.tasks <==> Itoa(i) in now.tasks)
    requires forall i: nat :: i < s.nextId && Itoa(i) in s.tasks ==> SameProgress(s.tasks[Itoa(i)], now.tasks[Itoa(i)])
    ensures SameBooks(s, now)
  {
    hide Total, SameProgress, OwedIn, PaidIn;
    forall d: Str ensures Missing(now, d) == Missing(s, d) && Excess(now, d) == Excess(s, d) {
      TasksUntouched(s, now, d);
      assert Stakes(now.workers, d) == Stakes(s.workers, d);
      assert Winnings(now.workers, d) == Winnings(s.workers, d);
    }
  }

  /** A handler that changes one task without completing anything. */
  lemma OneTaskUntouched(s: State, now: State, k: Str, t: Task)
    requires k in s.tasks && SameProgress(s.tasks[k], t) && SameReputations(s.workers, now.workers)
    requires now == s.(tasks := s.tasks[k := t], workers := now.workers)
    ensures SameBooks(s, now)
  {
    BooksUntouched(s, now);
  }

  // ---------- AddWorker ----------

  lemma HiredSums(ws: map<Str, Worker>, a: Str, w: Worker, d: Str)
    requires a !in ws && WonIn(w, d) == 0
    ensures MapSum(Stakes(ws[a := w], d)) == MapSum(Stakes(ws, d)) + StakeIn(w, d)
    ensures MapSum(Winnings(ws[a := w], d)) == MapSum(Winnings(ws, d))
  {
    assert Stakes(ws[a := w], d) == Stakes(ws, d)[a := StakeIn(w, d)];
    assert Winnings(ws[a := w], d) == Winnings(ws, d)[a := 0];
    MapSumPut(Stakes(ws, d), a, StakeIn(w, d));
    MapSumPut(Winnings(ws, d), a, 0);
  }

  lemma AddWorkerBooks(env: Env, s: State, m: Msg)
    requires m.AddWorker? && AddWorkerStep(env, s, m).Some?
    ensures SameBooks(s, AddWorkerStep(env, s, m).value)
  {
    hide Stakes, Winnings, Total;
    var now := AddWorkerStep(env, s, m).value;
    forall d: Str ensures Missing(now, d) == Missing(s, d) && Excess(now, d) == Excess(s, d) {
      HiredSums(s.workers, m.creator, NewWorker(m, s.params.minWorkerStaking.denom), d);
    }
  }

  // ---------- CreateVideoRenderingTask ----------

  lemma {:induction false} NoneCompleted(threads: seq<Thread>)
    requires forall i :: 0 <= i < |threads| ==> !threads[i].completed
    ensures CompletedCount(threads) == 0
  {
    if threads != [] { NoneCompleted(threads[..|threads| - 1]); }
  }

  lemma FreshOwed(id: Str, m: Msg, d: Str)
    requires m.CreateVideoRenderingTask? && m.threads > 0 && m.reward.Some?
    ensures Owed(NewTask(id, m), d) == if m.reward.value.denom == d then m.reward.value.amount else 0
    ensures PaidFor(NewTask(id, m), d) == 0
  {
    var t := NewTask(id, m);
    assert forall i :: 0 <= i < |t.threads| ==>
      t.threads[i] == NewThread(id, RangeOf(m.startFrame, m.endFrame, m.threads, i), i);
    NoneCompleted(t.threads);
  }

  lemma CreateTotals(env: Env, s: State, m: Msg, d: Str)
    requires Inv(s) && m.CreateVideoRenderingTask? && CreateStep(env, s, m).Some?
    ensures var now := CreateStep(env, s, m).value;
      && Total(now.tasks, now.nextId, OwedIn(d)) == Total(s.tasks, s.nextId, OwedIn(d))
           + (if m.reward.value.denom == d then m.reward.value.amount else 0)
      && Total(now.tasks, now.nextId, PaidIn(d)) == Total(s.tasks, s.nextId, PaidIn(d))
  {
    var id, now := Itoa(s.nextId), CreateStep(env, s, m).value;
    IdsGrow(s.tasks.Keys, s.nextId);
    FreshOwed(id, m, d);
    forall i: nat | i < s.nextId ensures Itoa(i) != id {
      if Itoa(i) == id { ItoaInjective(i, s.nextId); }
    }
    TotalSame(s.tasks, now.tasks, s.nextId, OwedIn(d));
    TotalSame(s.tasks, now.tasks, s.nextId, PaidIn(d));
    assert now.tasks[id] == NewTask(id, m);
  }

  /** A new task leaves its whole reward missing when the requester cannot pay it, and nothing otherwise. */
  lemma CreateBooks(env: Env, s: State, m: Msg, d: Str)
    requires Inv(s) && m.CreateVideoRenderingTask? && CreateStep(env, s, m).Some?
    ensures var now := CreateStep(env, s, m).value;
      && Missing(now, d) ==
           Missing(s, d) + (if Orderly(s, m) || m.reward.value.denom != d then 0 else m.reward.value.amount)
      && Excess(now, d) == Excess(s, d)
    ensures !Orderly(s, m) ==> m.reward.value.amount > 0
  {
    hide Inv, Stakes, Winnings, Total;
    CreateTotals(env, s, m, d);
  }

  // ---------- SubmitSolution ----------

  lemma {:induction false} CompleteOne(threads: seq<Thread>, i: nat, th: Thread)
    requires i < |threads| && th.completed
    ensures CompletedCount(threads[i := th]) == CompletedCount(threads) + (if threads[i].completed then 0 else 1)
    decreases |threads|
  {
    var n := |threads| - 1;
    if i < n {
      assert threads[i := th][..n] == threads[..n][i := th];
      CompleteOne(threads[..n], i, th);
    } else {
      assert threads[i := th][..n] == threads[..n];
    }
  }

  /** Completing a thread moves one winner's reward from owed to paid; completing it again moves
      nothing. */
  lemma SubmittedOwed(t: Task, i: nat, th: Thread, d: Str)
    requires i < |t.threads| && th.completed && t.reward.Some?
    ensures var p := if t.threads[i].completed || t.reward.value.denom != d then 0 else WinnerReward(t).amount;
      && OwedIn(d)(WithThread(t, i, th)) == OwedIn(d)(t) - p
      && PaidIn(d)(WithThread(t, i, th)) == PaidIn(d)(t) + p
  {
    CompleteOne(t.threads, i, th);
    var c, w := CompletedCount(t.threads), ThreadReward(t.reward.value.amount, |t.threads|);
    assert (c + 1) * w == c * w + w;
  }

  /** At least the reserved half of a reward is still owed, and one winner's reward on top of it while
      a thread is open. */
  lemma OwedBounds(t: Task, d: Str)
    requires t.reward.Some? && t.reward.value.amount >= 0
    ensures Owed(t, d) >= Reserved(t, d) >= 0
    ensures PaidFor(t, d) >= 0
    ensures RewardIn(t, d) ==> Reserved(t, d) >= WinnerReward(t).amount >= 0
  {
    if RewardIn(t, d) {
      hide CompletedCount, ThreadReward;
      var n, c, r := |t.threads|, CompletedCount(t.threads), t.reward.value.amount;
      var w := ThreadReward(r, n);
      RewardsFit(r, n);
      HalfFits(r, n, w);
      Multiply(c, n, w);
      Multiply(1, n, w);
    }
  }

  lemma HalfFits(r: nat, n: nat, w: int)
    requires n > 0 && 0 <= 2 * n * w <= r
    ensures 0 <= w && n * w <= r / 2
  {
    assert 2 * n * w == 2 * (n * w);
  }

  lemma Multiply(a: nat, b: nat, w: nat)
    requires a <= b
    ensures 0 <= a * w <= b * w
  {
  }

  /** In a good state every task's share of the books is sound. */
  lemma EveryOwed(s: State, d: Str)
    requires Inv(s)
    ensures forall i: nat :: i < s.nextId && Itoa(i) in s.tasks ==>
      && 0 <= ReservedIn(d)(s.tasks[Itoa(i)]) <= OwedIn(d)(s.tasks[Itoa(i)])
      && PaidIn(d)(s.tasks[Itoa(i)]) >= 0
  {
    forall i: nat | i < s.nextId && Itoa(i) in s.tasks
      ensures 0 <= ReservedIn(d)(s.tasks[Itoa(i)]) <= OwedIn(d)(s.tasks[Itoa(i)])
      ensures PaidIn(d)(s.tasks[Itoa(i)]) >= 0
    {
      assert TaskOk(Itoa(i), s.tasks[Itoa(i)], s.params.maxWorkersPerThread, s.workers.Keys);
      OwedBounds(s.tasks[Itoa(i)], d);
    }
  }

  lemma StakesPositive(s: State, d: Str)
    requires Inv(s)
    ensures MapSum(Stakes(s.workers, d)) >= 0
  {
    forall a | a in s.workers ensures Stakes(s.workers, d)[a] >= 0 {
      assert WorkerOk(a, s.workers[a], s.params.minWorkerStaking.denom);
    }
    MapSumNonNegative(Stakes(s.workers, d));
  }

  /** With balanced books the module account covers all stakes and the reserved half of every reward. */
  lemma ModuleCovers(s: State, d: Str)
    requires Inv(s) && Balanced(s, d)
    ensures s.bank.Module(d) >= MapSum(Stakes(s.workers, d)) + Total(s.tasks, s.nextId, ReservedIn(d))
    ensures MapSum(Stakes(s.workers, d)) >= 0 && Total(s.tasks, s.nextId, ReservedIn(d)) >= 0
  {
    EveryOwed(s, d);
    TotalCompare(s.tasks, s.nextId, ReservedIn(d), OwedIn(d));
    TotalPositive(s.tasks, s.nextId, ReservedIn(d));
    StakesPositive(s, d);
  }

  /** With balanced books the module account can pay any winner. */
  lemma WinnerIsPaid(s: State, k: Str, a: Str)
    requires Inv(s) && Books(s) && k in s.tasks && s.tasks[k].threads != []
    ensures s.tasks[k].reward.Some? && s.bank.Withdraw(a, WinnerReward(s.tasks[k])).Some?
  {
    OrdinaryTask(s, k);
    var t := s.tasks[k];
    var d := t.reward.value.denom;
    var i: nat :| 1 <= i < s.nextId && Itoa(i) == k;
    assert Balanced(s, d);
    OwedBounds(t, d);
    EveryOwed(s, d);
    ModuleCovers(s, d);
    TotalAtLeast(s.tasks, s.nextId, ReservedIn(d), i);
  }

  /** The workers after a submission: stakes as before, the winner's winnings grown by the payment. */
  lemma SubmitStakes(s: State, k: Str, i: nat, list: seq<Str>, ws: map<Str, Worker>, a: Str, p: Coin, secs: int, d: Str)
    requires Inv(s) && a in s.workers && Freed(s.workers, ws, k, i, list) && Declared(ws[a], p).Some?
    ensures var now := ws[a := Timed(Declared(ws[a], p).value, secs)];
      && MapSum(Stakes(now, d)) == MapSum(Stakes(s.workers, d))
      && MapSum(Winnings(now, d)) == MapSum(Winnings(s.workers, d)) + (if p.denom == d then p.amount else 0)
  {
    var now := ws[a := Timed(Declared(ws[a], p).value, secs)];
    assert Stakes(now, d) == Stakes(s.workers, d);
    assert Winnings(now, d) == Winnings(s.workers, d)[a := WonIn(now[a], d)];
    MapSumPut(Winnings(s.workers, d), a, WonIn(now[a], d));
  }

  /** What a submission for an existing thread moves, in every good state. The winner's reward enters the
      winnings, on every submission; it goes from owed to paid, on the first one; and it leaves the
      module if the module has it. Stakes stay. */
  lemma SubmitMovesOnce(env: Env, s: State, m: Msg, d: Str)
    requires Inv(s) && m.SubmitSolution? && SubmitStep(env, s, m).Some?
    requires FirstThread(s.tasks[m.taskId].threads, m.threadId) >= 0
    ensures s.tasks[m.taskId].reward.Some? && WinnerReward(s.tasks[m.taskId]).amount >= 0
    ensures var t, now := s.tasks[m.taskId], SubmitStep(env, s, m).value;
      var th := t.threads[FirstThread(t.threads, m.threadId)];
      var w := if t.reward.value.denom == d then WinnerReward(t).amount else 0;
      && now.nextId == s.nextId
      && MapSum(Stakes(now.workers, d)) == MapSum(Stakes(s.workers, d))
      && MapSum(Winnings(now.workers, d)) == MapSum(Winnings(s.workers, d)) + w
      && Total(now.tasks, s.nextId, OwedIn(d)) == Total(s.tasks, s.nextId, OwedIn(d)) - (if th.completed then 0 else w)
      && Total(now.tasks, s.nextId, PaidIn(d)) == Total(s.tasks, s.nextId, PaidIn(d)) + (if th.completed then 0 else w)
      && now.bank.Module(d) == s.bank.Module(d) - (if w <= s.bank.Module(d) then w else 0)
  {
    hide Stakes, Winnings, Total, OwedIn, PaidIn, Freed, ReleaseAll, ThreadReward, ThreadId;
    var k, t := m.taskId, s.tasks[m.taskId];
    var i := FirstThread(t.threads, m.threadId);
    OrdinaryTask(s, k);
    var th := t.threads[i];
    var t' := WithThread(t, i, Submitted(th, m));
    assert ThreadOk(k, i, th, s.params.maxWorkersPerThread, s.workers.Keys);
    ReleaseAllFrees(s, k, i, t', th.workers);
    var ws := ReleaseAll(s.workers, t', m.threadId, th.workers).value;
    assert m.creator in th.workers && m.creator in s.workers;
    assert LookUp(ws, m.creator) == ws[m.creator] by { FreedKeys(s.workers, ws, k, i, th.workers); }
    RewardsFit(t.reward.value.amount, |t.threads|);
    InRun(s, k);
    var n: nat :| 1 <= n < s.nextId && Itoa(n) == k;
    assert Submitted(th, m).completed by { SubmittedCompletes(th, m); }
    SubmittedOwed(t, i, Submitted(th, m), d);
    TotalPut(s.tasks, s.nextId, OwedIn(d), n, t');
    TotalPut(s.tasks, s.nextId, PaidIn(d), n, t');
    SubmitStakes(s, k, i, th.workers, ws, m.creator, WinnerReward(t), m.averageRenderSeconds, d);
  }

  lemma FreedKeys(was: map<Str, Worker>, now: map<Str, Worker>, k: Str, i: nat, list: seq<Str>)
    requires Freed(was, now, k, i, list)
    ensures now.Keys == was.Keys
  {
  }

  lemma SubmitBooks(env: Env, s: State, m: Msg)
    requires Inv(s) && Books(s) && m.SubmitSolution? && SubmitStep(env, s, m).Some?
    ensures Books(SubmitStep(env, s, m).value) <==> Orderly(s, m)
  {
    hide Inv, SubmitStep, Stakes, Winnings, Total;
    if SubmissionFinds(s, m) {
      var k, t, now := m.taskId, s.tasks[m.taskId], SubmitStep(env, s, m).value;
      OrdinaryTask(s, k);
      SubmitMovesOnce(env, s, m, t.reward.value.denom);
      WinnerIsPaid(s, k, m.creator);
      forall d: Str
        ensures Balanced(now, d) <==> d != t.reward.value.denom || Orderly(s, m)
      {
        assert Balanced(s, d);
        SubmitMovesOnce(env, s, m, d);
      }
      assert Balanced(now, t.reward.value.denom) <==> Orderly(s, m);
    } else {
      SubmitNothing(env, s, m);
    }
  }

  /** The submission names a thread. */
  predicate SubmissionFinds(s: State, m: Msg)
    requires m.SubmitSolution?
  {
    m.taskId in s.tasks && FirstThread(s.tasks[m.taskId].threads, m.threadId) >= 0
  }

  lemma SubmitNothing(env: Env, s: State, m: Msg)
    requires m.SubmitSolution? && SubmitStep(env, s, m).Some? && !SubmissionFinds(s, m)
    ensures SubmitStep(env, s, m).value == s && Orderly(s, m)
  {
  }

  lemma SubmittedCompletes(th: Thread, m: Msg)
    requires m.SubmitSolution? && th.solution.Some?
    ensures Submitted(th, m).completed
  {
  }

  lemma InRun(s: State, k: Str)
    requires Inv(s) && k in s.tasks && k != []
    ensures exists n: nat :: 1 <= n < s.nextId && Itoa(n) == k
  {
  }

  lemma SubscribeBooks(s: State, m: Msg)
    requires Inv(s) && m.SubscribeWorkerToTask? && SubscribeStep(s, m).Some?
    ensures SameBooks(s, SubscribeStep(s, m).value)
  {
    hide SameBooks;
    SameBooksItself(s);
    var t := s.tasks[m.taskId];
    if FirstOpen(t.threads, m.threadId, s.params.maxWorkersPerThread) >= 0 {
      OrdinaryTask(s, m.taskId);
      OneTaskUntouched(s, SubscribeStep(s, m).value, m.taskId, SubscribeStep(s, m).value.tasks[m.taskId]);
    }
  }

  lemma ProposeBooks(env: Env, s: State, m: Msg)
    requires m.ProposeSolution? && ProposeStep(env, s, m).Some?
    ensures SameBooks(s, ProposeStep(env, s, m).value)
  {
    hide SameBooks;
    OneTaskUntouched(s, ProposeStep(env, s, m).value, m.taskId, ProposeStep(env, s, m).value.tasks[m.taskId]);
  }

  lemma RevealBooks(s: State, m: Msg)
    requires m.RevealSolution? && RevealStep(s, m).Some?
    ensures SameBooks(s, RevealStep(s, m).value)
  {
    hide SameBooks;
    OneTaskUntouched(s, RevealStep(s, m).value, m.taskId, RevealStep(s, m).value.tasks[m.taskId]);
  }

  lemma ValidateBooks(s: State, m: Msg)
    requires m.SubmitValidation? && ValidateStep(s, m).Some?
    ensures SameBooks(s, ValidateStep(s, m).value)
  {
    hide SameBooks;
    OneTaskUntouched(s, ValidateStep(s, m).value, m.taskId, ValidateStep(s, m).value.tasks[m.taskId]);
  }

  // ---------- all messages ----------

  lemma SameBooksItself(s: State)
    ensures SameBooks(s, s)
  {
  }

  lemma BooksAreZero(s: State)
    ensures Books(s) <==> forall d: Str :: Missing(s, d) == 0 && Excess(s, d) == 0
  {
    forall d: Str ensures Balanced(s, d) <==> Missing(s, d) == 0 && Excess(s, d) == 0 { }
  }

  /** Messages that create no task and submit no solution leave the books as they are. */
  lemma OtherBooks(env: Env, s: State, m: Msg)
    requires Inv(s) && Handle(env, s, m).Some? && !m.CreateVideoRenderingTask? && !m.SubmitSolution?
    ensures SameBooks(s, Handle(env, s, m).value)
  {
    hide SameBooks, Inv;
    match m
    case AddWorker(_, _, _, _) => AddWorkerBooks(env, s, m);
    case SubscribeWorkerToTask(_, _, _) => SubscribeBooks(s, m);
    case ProposeSolution(_, _, _, _, _) => ProposeBooks(env, s, m);
    case RevealSolution(_, _, _, _) => RevealBooks(s, m);
    case SubmitValidation(_, _, _, _, _) => ValidateBooks(s, m);
  }

  /** A message that goes through keeps the books balanced if and only if it is orderly. */
  lemma BooksExact(env: Env, s: State, m: Msg)
    requires Inv(s) && Books(s) && Handle(env, s, m).Some?
    ensures Books(Handle(env, s, m).value) <==> Orderly(s, m)
  {
    hide Books, Inv, Missing, Excess;
    var now := Handle(env, s, m).value;
    BooksAreZero(s);
    BooksAreZero(now);
    if m.CreateVideoRenderingTask? {
      forall d: Str
        ensures Missing(now, d) == (if Orderly(s, m) || m.reward.value.denom != d then 0 else m.reward.value.amount)
        ensures Excess(now, d) == 0 && (!Orderly(s, m) ==> m.reward.value.amount > 0)
      {
        CreateBooks(env, s, m, d);
      }
      assert Missing(now, m.reward.value.denom) == 0 <==> Orderly(s, m);
    } else if m.SubmitSolution? {
      SubmitBooks(env, s, m);
    } else {
      OtherBooks(env, s, m);
    }
  }

  // ---------- unbalanced books stay unbalanced ----------

  /** Nothing is held, and nothing is earned, beyond the books. */
  ghost predicate Leans(s: State) {
    forall d: Str :: Missing(s, d) >= 0 && Excess(s, d) >= 0
  }

  ghost predicate Off(s: State, d: Str) { Missing(s, d) > 0 || Excess(s, d) > 0 }

  /** The books still lean to the same side, and no denomination came back into balance. */
  ghost predicate LeansOn(s: State, now: State) {
    Leans(now) && forall d: Str :: Off(s, d) ==> Off(now, d)
  }

  lemma {:induction false} OpenCount(threads: seq<Thread>, i: nat)
    requires i < |threads| && !threads[i].completed
    ensures CompletedCount(threads) < |threads|
  {
    if i < |threads| - 1 { OpenCount(threads[..|threads| - 1], i); }
  }

  /** While a thread is open, two winners' rewards are still owed: its own, and as much of the validators'. */
  lemma OpenOwed(t: Task, i: nat)
    requires t.reward.Some? && t.reward.value.amount >= 0 && i < |t.threads| && !t.threads[i].completed
    ensures Owed(t, t.reward.value.denom) >= 2 * WinnerReward(t).amount >= 0
  {
    hide CompletedCount, ThreadReward;
    var n, c, r := |t.threads|, CompletedCount(t.threads), t.reward.value.amount;
    var w := ThreadReward(r, n);
    OpenCount(t.threads, i);
    RewardsFit(r, n);
    HalfFits(r, n, w);
    Multiply(c, n - 1, w);
    assert 2 * n * w == 2 * (n * w) && (n - 1) * w == n * w - w;
    Multiply(1, n, w);
  }

  /** Even a payment that fails for lack of funds, and is booked all the same, cannot make up for what is
      missing. */
  lemma SubmitLeans(env: Env, s: State, m: Msg, d: Str)
    requires Inv(s) && m.SubmitSolution? && SubmitStep(env, s, m).Some? && SubmissionFinds(s, m)
    requires Missing(s, d) >= 0 && Excess(s, d) >= 0
    ensures var now := SubmitStep(env, s, m).value;
      Missing(now, d) >= 0 && Excess(now, d) >= 0 && (Off(s, d) ==> Off(now, d))
  {
    hide SubmitStep, Stakes, Winnings, Total, ThreadReward, FirstThread;
    var k, t := m.taskId, s.tasks[m.taskId];
    var i := FirstThread(t.threads, m.threadId);
    OrdinaryTask(s, k);
    SubmitMovesOnce(env, s, m, d);
    if t.reward.value.denom == d && !t.threads[i].completed {
      InRun(s, k);
      var n: nat :| 1 <= n < s.nextId && Itoa(n) == k;
      OpenOwed(t, i);
      EveryOwed(s, d);
      TotalAtLeast(s.tasks, s.nextId, OwedIn(d), n);
      StakesPositive(s, d);
    }
  }

  lemma HandleLeans(env: Env, s: State, m: Msg)
    requires Inv(s) && Leans(s) && Handle(env, s, m).Some?
    ensures LeansOn(s, Handle(env, s, m).value)
  {
    hide Inv, Missing, Excess;
    var now := Handle(env, s, m).value;
    if m.CreateVideoRenderingTask? {
      forall d: Str ensures Missing(now, d) >= Missing(s, d) && Excess(now, d) == Excess(s, d) {
        CreateBooks(env, s, m, d);
      }
    } else if m.SubmitSolution? {
      if SubmissionFinds(s, m) {
        forall d: Str
          ensures Missing(now, d) >= 0 && Excess(now, d) >= 0 && (Off(s, d) ==> Off(now, d))
        {
          SubmitLeans(env, s, m, d);
        }
      } else {
        SubmitNothing(env, s, m);
      }
    } else {
      OtherBooks(env, s, m);
    }
  }

  // ---------- runs ----------

  lemma BeginBooks(env: Env, s: State)
    requires Inv(s)
    ensures SameBooks(s, Begun(env, s))
  {
    forall k | k in s.tasks ensures SameProgress(s.tasks[k], BegunTask(env, s.tasks[k])) {
      BegunTaskOk(env, k, s.tasks[k], s.params.maxWorkersPerThread, s.workers.Keys);
    }
    BooksUntouched(s, Begun(env, s));
  }

  lemma EndBooks(s: State)
    requires Inv(s)
    ensures SameBooks(s, Ended(s))
  {
    hide FinishedTasks;
    EndedTasks(s);
    BooksUntouched(s, Ended(s));
  }

  lemma ElsewhereBooks(s: State, accounts: map<(Str, Str), nat>)
    ensures SameBooks(s, s.(bank := s.bank.(accounts := accounts)))
  {
    BooksUntouched(s, s.(bank := s.bank.(accounts := accounts)));
  }

  /** The transaction of the event, if it is one, goes through. */
  predicate Lands(env: Env, s: State, e: Event) { e.Tx? && Handle(env, s, e.m).Some? }

  /** Events that are not a transaction that goes through leave the books as they are. */
  lemma IdleBooks(env: Env, s: State, e: Event)
    requires Inv(s) && !Lands(env, s, e)
    ensures SameBooks(s, Step(env, s, e))
  {
    hide Inv, SameBooks, Handle, Begun, Ended, BeginReads, EndReads;
    SameBooksItself(s);
    match e
    case Tx(m) =>
    case BeginBlock(l) => HooksNeedOnlyReads(env, l, s); BeginBooks(env, s);
    case EndBlock(l) => HooksNeedOnlyReads(env, l, s); EndBooks(s);
    case Elsewhere(accounts) => ElsewhereBooks(s, accounts);
  }

  lemma SameBooksSame(s: State, now: State)
    requires SameBooks(s, now)
    ensures Books(now) <==> Books(s)
    ensures Leans(s) ==> LeansOn(s, now)
  {
    BooksAreZero(s);
    BooksAreZero(now);
  }

  predicate OrderlyEvent(env: Env, s: State, e: Event) { Lands(env, s, e) ==> Orderly(s, e.m) }

  /** One event, under balanced books: they stay balanced if and only if the event is orderly. */
  lemma StepBooks(env: Env, s: State, e: Event)
    requires Inv(s) && Books(s)
    ensures Books(Step(env, s, e)) <==> OrderlyEvent(env, s, e)
  {
    hide Inv, Books, Orderly, Handle, SameBooks;
    if Lands(env, s, e) {
      BooksExact(env, s, e.m);
    } else {
      IdleBooks(env, s, e);
      SameBooksSame(s, Step(env, s, e));
    }
  }

  lemma StepLeans(env: Env, s: State, e: Event)
    requires Inv(s) && Leans(s)
    ensures LeansOn(s, Step(env, s, e))
  {
    hide Inv, Leans, LeansOn, Handle, SameBooks;
    if Lands(env, s, e) {
      HandleLeans(env, s, e.m);
    } else {
      IdleBooks(env, s, e);
      SameBooksSame(s, Step(env, s, e));
    }
  }

  /** Every transaction of the run that went through was orderly. */
  ghost predicate OrderlyRun(env: Env, g: State, es: seq<Event>) {
    forall n :: 0 <= n < |es| ==> OrderlyEvent(env, Run(env, g, es[..n]), es[n])
  }

  lemma OrderlyFront(env: Env, g: State, es: seq<Event>)
    requires es != []
    ensures OrderlyRun(env, g, es) <==>
      OrderlyRun(env, g, es[..|es| - 1]) && OrderlyEvent(env, Run(env, g, es[..|es| - 1]), es[|es| - 1])
  {
    hide OrderlyEvent, Run;
    var front := es[..|es| - 1];
    forall n | 0 <= n < |front| ensures front[..n] == es[..n] && front[n] == es[n] { }
    if OrderlyRun(env, g, es) {
      forall n | 0 <= n < |front| ensures OrderlyEvent(env, Run(env, g, front[..n]), front[n]) {
        assert OrderlyEvent(env, Run(env, g, es[..n]), es[n]);
      }
    }
    if OrderlyRun(env, g, front) && OrderlyEvent(env, Run(env, g, front), es[|es| - 1]) {
      forall n | 0 <= n < |es| ensures OrderlyEvent(env, Run(env, g, es[..n]), es[n]) {
        if n < |front| { assert OrderlyEvent(env, Run(env, g, front[..n]), front[n]); }
      }
    }
  }

  /** Genesis, and the module account is empty. */
  ghost predicate EmptyGenesis(g: State) {
    Genesis(g) && forall d: Str :: g.bank.Module(d) == 0
  }

  lemma GenesisBooks(g: State)
    requires EmptyGenesis(g)
    ensures Books(g) && Leans(g)
  {
    forall d: Str ensures Balanced(g, d) {
      assert Stakes(g.workers, d) == map[] && Winnings(g.workers, d) == map[];
      assert Total(g.tasks, 0, OwedIn(d)) == 0 && Total(g.tasks, 0, PaidIn(d)) == 0;
    }
    BooksAreZero(g);
  }

  lemma LeansBooks(s: State)
    requires Leans(s)
    ensures Books(s) <==> forall d: Str :: !Off(s, d)
  {
    hide Missing, Excess;
    BooksAreZero(s);
    if forall d: Str :: !Off(s, d) {
      forall d: Str ensures Missing(s, d) == 0 && Excess(s, d) == 0 { assert !Off(s, d); }
    }
  }

  /** The books balance at the end of a run if and only if the run was orderly: what one disorderly
      message breaks, nothing later repairs. */
  lemma {:induction false} RunBooks(env: Env, g: State, es: seq<Event>)
    requires EmptyGenesis(g)
    ensures Books(Run(env, g, es)) <==> OrderlyRun(env, g, es)
    ensures Leans(Run(env, g, es))
  {
    hide Books, Leans, Off, OrderlyRun, OrderlyEvent, Step, EmptyGenesis;
    if es == [] {
      GenesisBooks(g);
      OrderlyNone(env, g);
    } else {
      var front, e := es[..|es| - 1], es[|es| - 1];
      var s := Run(env, g, front);
      RunBooks(env, g, front);
      EmptyIsGenesis(g);
      ReachableInv(env, g, front);
      OrderlyFront(env, g, es);
      StepLeans(env, s, e);
      LeansBooks(s);
      LeansBooks(Step(env, s, e));
      if Books(s) { StepBooks(env, s, e); }
    }
  }

  lemma OrderlyNone(env: Env, g: State)
    ensures OrderlyRun(env, g, [])
  {
  }

  lemma EmptyIsGenesis(g: State)
    requires EmptyGenesis(g)
    ensures Genesis(g)
  {
  }

  /** Conservation over every orderly run: in each denomination the module account equals the stakes
      plus the unpaid rewards, never falls below the stakes plus the reserved halves, the recorded
      winnings equal what was paid, and any winner can be paid. */
  lemma EscrowConserved(env: Env, g: State, es: seq<Event>, d: Str, k: Str, a: Str)
    requires EmptyGenesis(g) && OrderlyRun(env, g, es)
    ensures var s := Run(env, g, es);
      && s.bank.Module(d) == MapSum(Stakes(s.workers, d)) + Total(s.tasks, s.nextId, OwedIn(d))
      && s.bank.Module(d) >= MapSum(Stakes(s.workers, d)) + Total(s.tasks, s.nextId, ReservedIn(d))
      && MapSum(Winnings(s.workers, d)) == Total(s.tasks, s.nextId, PaidIn(d))
      && (k in s.tasks && s.tasks[k].threads != [] ==>
           s.tasks[k].reward.Some? && s.bank.Withdraw(a, WinnerReward(s.tasks[k])).Some?)
  {
    RunBooks(env, g, es);
    ReachableInv(env, g, es);
    var s := Run(env, g, es);
    assert Balanced(s, d);
    ModuleCovers(s, d);
    if k in s.tasks && s.tasks[k].threads != [] { WinnerIsPaid(s, k, a); }
  }
}
