/** EvaluateCompletedThread in module/module.go: the settlement that credits a thread's validators. No other
    code calls it. What it credits is bounded by the half of the reward that winners never touch; it
    moves no coins. */
module Settlement {
  import opened Basics
  import opened Protocol
  import opened Splitting
  import opened Verification
  import opened Payout
  import opened Workers
  import opened Handlers
  import opened Keeper
  import opened Invariant
  import opened Escrow

  /** GetValidatorsReward: the same share of the reward as a winner's. */
  function ValidatorsReward(t: Task): Coin
    requires t.reward.Some? && t.threads != []
  {
    Coin(t.reward.value.denom, ThreadReward(t.reward.value.amount, |t.threads|))
  }

  /** The released worker with a validation recorded. None is a panic, as in Workers.Declared. */
  function Credited(w: Worker, payment: int): Option<Worker> {
    match w.reputation
    case None => None
    case Some(r) =>
      if r.winnings.denom != JCT then None
      else Some(Released(w).(reputation := Some(r.(
        points := r.points + 1, validations := r.validations + 1,
        winnings := Coin(JCT, r.winnings.amount + payment)))))
  }

  /** One pass of the loop. None is a panic. */
  function CreditOne(env: Env, ws: map<Str, Worker>, t: Task, i: nat, a: Str): Option<map<Str, Worker>>
    requires i < |t.threads|
  {
    if t.reward.None? || NewCoinPanics(env, ValidatorsReward(t)) then None
    else
      var w := LookUp(ws, a);
      match Credited(w, ValidatorReward(t.threads[i].validations, w.address, ValidatorsReward(t).amount))
      case None => None
      case Some(w') => Some(ws[w.address := w'])
  }

  /** Credits the listed workers in order. */
  function CreditAll(env: Env, ws: map<Str, Worker>, t: Task, i: nat, list: seq<Str>): Option<map<Str, Worker>>
    requires i < |t.threads|
  {
    if list == [] then Some(ws)
    else match CreditAll(env, ws, t, i, list[..|list| - 1])
      case None => None
      case Some(ws') => CreditOne(env, ws', t, i, list[|list| - 1])
  }

  function Settled(t: Task, i: nat): Task
    requires i < |t.threads|
  {
    WithThread(t, i, t.threads[i].(completed := true))
  }

  /** The state after the settlement of thread i of a task. */
  function Settle(env: Env, s: State, t: Task, i: int): Option<State> {
    if !(0 <= i < |t.threads|) then None
    else match CreditAll(env, s.workers, t, i, t.threads[i].workers)
      case None => None
      case Some(ws) => Some(s.(workers := ws, tasks := s.tasks[t.taskId := Settled(t, i)]))
  }

  lemma {:induction false} CreditFailsEarly(env: Env, ws: map<Str, Worker>, t: Task, i: nat, list: seq<Str>, n: nat)
    requires i < |t.threads| && n <= |list| && CreditAll(env, ws, t, i, list[..n]).None?
    ensures CreditAll(env, ws, t, i, list).None?
    decreases |list|
  {
    if n < |list| {
      assert list[..|list| - 1][..n] == list[..n];
      CreditFailsEarly(env, ws, t, i, list[..|list| - 1], n);
    } else {
      assert list[..n] == list;
    }
  }

  /** A panic leaves the server half way, as it would leave the store before the rollback. */
  method EvaluateCompletedThread(server: MsgServer, env: Env, task: Task, index: int) returns (panics: bool)
    modifies server
    ensures panics <==> Settle(env, old(server.Chain()), task, index).None?
    ensures !panics ==> Settle(env, old(server.Chain()), task, index) == Some(server.Chain())
  {
    if !(0 <= index < |task.threads|) {
      return true;
    }
    var thread := new VideoRenderingThread(task.threads[index]);
    hide CreditOne, Settled;
    var list := thread.value.workers;
    ghost var was := server.workers;
    for j := 0 to |list|
      invariant thread.value == task.threads[index]
      invariant CreditAll(env, was, task, index, list[..j]) == Some(server.workers)
      invariant server.Chain() == old(server.Chain()).(workers := server.workers)
    {
      assert list[..j + 1][..j] == list[..j];
      panics := CreditWorker(server, env, task, index, thread, list[j]);
      if panics {
        CreditFailsEarly(env, was, task, index, list, j + 1);
        return true;
      }
    }
    assert list[..|list|] == list;
    server.tasks := server.tasks[task.taskId := Settled(task, index)];
    return false;
  }

  /** The body of the loop. */
  method CreditWorker(server: MsgServer, env: Env, task: Task, index: nat, thread: VideoRenderingThread, a: Str)
    returns (panics: bool)
    requires index < |task.threads| && thread.value == task.threads[index]
    modifies server
    ensures panics <==> CreditOne(env, old(server.workers), task, index, a).None?
    ensures !panics ==> CreditOne(env, old(server.workers), task, index, a) == Some(server.workers)
    ensures server.Chain() == old(server.Chain()).(workers := server.workers)
  {
    hide ThreadReward, ValidatorReward;
    var worker := new WorkerObject(LookUp(server.workers, a));
    worker.ReleaseValidator();
    if worker.value.reputation.None? || task.reward.None? || NewCoinPanics(env, ValidatorsReward(task)) {
      return true;
    }
    var winning := thread.GetValidatorReward(worker.value.address, ValidatorsReward(task));
    var r := worker.value.reputation.value;
    if r.winnings.denom != winning.denom {
      return true;
    }
    r := r.(points := r.points + 1);
    r := r.(validations := r.validations + 1);
    r := r.(winnings := Coin(r.winnings.denom, r.winnings.amount + winning.amount));
    worker.value := worker.value.(reputation := Some(r));
    server.workers := server.workers[worker.value.address := worker.value];
    return false;
  }

  // ---------- what it credits ----------

  /** The workers after the listed ones were credited: the list is credited and free, the others are as before. */
  predicate CreditedIn(was: map<Str, Worker>, now: map<Str, Worker>, vs: seq<Validation>, pot: int, list: seq<Str>) {
    && now.Keys == was.Keys
    && forall a | a in was ::
      if a in list then Credited(was[a], ValidatorReward(vs, a, pot)) == Some(now[a]) else now[a] == was[a]
  }

  /** All workers stake and win in one denomination, "jct" or another. */
  predicate Uniform(ws: map<Str, Worker>, denom: Str) {
    forall a | a in ws :: WorkerOk(a, ws[a], denom)
  }

  lemma {:induction false} CreditAllCredits(
      env: Env, ws: map<Str, Worker>, t: Task, i: nat, list: seq<Str>, denom: Str)
    requires i < |t.threads| && Uniform(ws, denom) && Distinct(list) && forall a | a in list :: a in ws
    requires t.reward.Some? && t.reward.value.amount >= 0 && env.denomValid(t.reward.value.denom)
    ensures CreditAll(env, ws, t, i, list).Some? <==> list == [] || denom == JCT
    ensures CreditAll(env, ws, t, i, list).Some? ==>
      CreditedIn(ws, CreditAll(env, ws, t, i, list).value, t.threads[i].validations, ValidatorsReward(t).amount, list)
  {
    hide CreditOne, CreditedIn, Uniform, ThreadReward;
    var vs, pot := t.threads[i].validations, ValidatorsReward(t).amount;
    if list == [] {
      CreditedNone(ws, vs, pot);
    } else {
      var a, front := list[|list| - 1], list[..|list| - 1];
      CreditAllCredits(env, ws, t, i, front, denom);
      assert list == front + [a];
      assert a !in front;
      if CreditAll(env, ws, t, i, front).Some? {
        CreditOneCredits(env, ws, CreditAll(env, ws, t, i, front).value, t, i, front, a, denom);
      }
    }
  }

  lemma CreditedNone(ws: map<Str, Worker>, vs: seq<Validation>, pot: int)
    ensures CreditedIn(ws, ws, vs, pot, [])
  {
  }

  lemma CreditOneCredits(
      env: Env, was: map<Str, Worker>, ws: map<Str, Worker>, t: Task, i: nat, front: seq<Str>, a: Str, denom: Str)
    requires i < |t.threads| && Uniform(was, denom) && a in was && a !in front
    requires t.reward.Some? && t.reward.value.amount >= 0 && env.denomValid(t.reward.value.denom)
    requires CreditedIn(was, ws, t.threads[i].validations, ValidatorsReward(t).amount, front)
    ensures CreditOne(env, ws, t, i, a).Some? <==> denom == JCT
    ensures CreditOne(env, ws, t, i, a).Some? ==>
      CreditedIn(was, CreditOne(env, ws, t, i, a).value,
                 t.threads[i].validations, ValidatorsReward(t).amount, front + [a])
  {
    hide ThreadReward, ValidatorReward;
    RewardsFit(t.reward.value.amount, |t.threads|);
    assert WorkerOk(a, was[a], denom);
  }

  /** Crediting the listed workers adds what Payout adds up, and leaves every stake alone. */
  lemma {:induction false} CreditsAddUp(
      was: map<Str, Worker>, now: map<Str, Worker>, vs: seq<Validation>, pot: int, list: seq<Str>)
    requires CreditedIn(was, now, vs, pot, list) && Distinct(list) && forall a | a in list :: a in was
    ensures MapSum(Winnings(now, JCT)) == MapSum(Winnings(was, JCT)) + Paid(vs, list, pot)
    decreases |list|
  {
    hide ValidatorReward;
    if list == [] {
      assert now == was;
    } else {
      var a, front := list[|list| - 1], list[..|list| - 1];
      assert list == front + [a];
      assert a !in front;
      var before := now[a := was[a]];
      CreditsAddUp(was, before, vs, pot, front);
      assert Winnings(now, JCT) == Winnings(before, JCT)[a := WonIn(now[a], JCT)];
      MapSumPut(Winnings(before, JCT), a, WonIn(now[a], JCT));
    }
  }

  /** In a good state: the settlement goes through exactly when nobody works on the thread or the chain
      stakes in "jct"; it then credits its workers together with at most one thread's share of the
      validators' half, whatever they validated, touches no stake and no balance, and leaves the
      thread's workers free. */
  lemma SettlementWithinPot(env: Env, s: State, k: Str, i: nat)
    requires Inv(s) && k in s.tasks && i < |s.tasks[k].threads|
    requires s.tasks[k].reward.Some? ==> env.denomValid(s.tasks[k].reward.value.denom)
    ensures s.tasks[k].reward.Some?
    ensures var t := s.tasks[k];
      Settle(env, s, t, i).Some? <==> t.threads[i].workers == [] || s.params.minWorkerStaking.denom == JCT
    ensures var t := s.tasks[k];
      Settle(env, s, t, i).Some? ==>
        var now := Settle(env, s, t, i).value;
        var credited := MapSum(Winnings(now.workers, JCT)) - MapSum(Winnings(s.workers, JCT));
        && credited == Paid(t.threads[i].validations, t.threads[i].workers, ValidatorsReward(t).amount)
        && 0 <= credited <= ValidatorsReward(t).amount
        && 2 * |t.threads| * ValidatorsReward(t).amount <= t.reward.value.amount
        && (forall d: Str :: Stakes(now.workers, d) == Stakes(s.workers, d))
        && now.bank == s.bank
        && forall a | a in t.threads[i].workers :: a in now.workers && now.workers[a].currentTaskId == []
  {
    hide Inv, ThreadReward, ValidatorReward, CreditAll, CreditedIn, Uniform, Settled, Stakes, Winnings, Paid;
    OrdinaryTask(s, k);
    var t := s.tasks[k];
    var th := t.threads[i];
    assert ThreadOk(k, i, th, s.params.maxWorkersPerThread, s.workers.Keys);
    assert Uniform(s.workers, s.params.minWorkerStaking.denom) by { UniformStaff(s); }
    CreditAllCredits(env, s.workers, t, i, th.workers, s.params.minWorkerStaking.denom);
    RewardsFit(t.reward.value.amount, |t.threads|);
    if Settle(env, s, t, i).Some? {
      var now := Settle(env, s, t, i).value;
      var pot := ValidatorsReward(t).amount;
      CreditsAddUp(s.workers, now.workers, th.validations, pot, th.workers);
      PotSuffices(th.validations, th.workers, pot);
      CreditsLeaveFree(s.workers, now.workers, th.validations, pot, th.workers);
    }
  }

  lemma CreditsLeaveFree(was: map<Str, Worker>, now: map<Str, Worker>, vs: seq<Validation>, pot: int, list: seq<Str>)
    requires CreditedIn(was, now, vs, pot, list) && forall a | a in list :: a in was
    ensures forall d: Str :: Stakes(now, d) == Stakes(was, d)
    ensures forall a | a in list :: a in now && now[a].currentTaskId == []
  {
    hide ValidatorReward;
    forall d: Str ensures Stakes(now, d) == Stakes(was, d) { }
  }

  lemma UniformStaff(s: State)
    requires Inv(s)
    ensures Uniform(s.workers, s.params.minWorkerStaking.denom)
  {
  }

  /** Settling a thread that has a solution keeps every invariant of the chain. */
  lemma SettlementInv(env: Env, s: State, k: Str, i: nat)
    requires Inv(s) && k in s.tasks && i < |s.tasks[k].threads| && s.tasks[k].threads[i].solution.Some?
    requires s.tasks[k].reward.Some? && env.denomValid(s.tasks[k].reward.value.denom)
    requires Settle(env, s, s.tasks[k], i).Some?
    ensures Inv(Settle(env, s, s.tasks[k], i).value)
  {
    hide Inv, ThreadReward, ValidatorReward, CreditAll, CreditedIn, Placed, WorkerOk, TaskOk;
    OrdinaryTask(s, k);
    var t := s.tasks[k];
    var th := t.threads[i];
    var done := th.(completed := true);
    assert TaskOk(k, t, s.params.maxWorkersPerThread, s.workers.Keys) by { TasksAreOk(s, k); }
    assert ThreadOk(k, i, th, s.params.maxWorkersPerThread, s.workers.Keys);
    UniformStaff(s);
    CreditAllCredits(env, s.workers, t, i, th.workers, s.params.minWorkerStaking.denom);
    RewardsFit(t.reward.value.amount, |t.threads|);
    TaskOkPut(k, t, i, done, s.params.maxWorkersPerThread, s.workers.Keys);
    var ws := CreditAll(env, s.workers, t, i, th.workers).value;
    forall a | a in ws
      ensures WorkerOk(a, ws[a], s.params.minWorkerStaking.denom)
      ensures Placed(s.tasks[k := WithThread(t, i, done)], a, ws[a])
    {
      SettledPlaced(s, k, i, done, ws, a, ValidatorsReward(t).amount);
    }
    CreditedKeys(s.workers, ws, th.validations, ValidatorsReward(t).amount, th.workers);
    InvPut(s, k, WithThread(t, i, done), ws);
  }

  lemma TasksAreOk(s: State, k: Str)
    requires Inv(s) && k in s.tasks
    ensures TaskOk(k, s.tasks[k], s.params.maxWorkersPerThread, s.workers.Keys)
  {
  }

  lemma CreditedKeys(was: map<Str, Worker>, now: map<Str, Worker>, vs: seq<Validation>, pot: int, list: seq<Str>)
    requires CreditedIn(was, now, vs, pot, list)
    ensures now.Keys == was.Keys
  {
  }

  lemma SettledPlaced(s: State, k: Str, i: nat, done: Thread, ws: map<Str, Worker>, a: Str, pot: nat)
    requires Inv(s) && k in s.tasks && k != [] && i < |s.tasks[k].threads| && a in ws
    requires done == s.tasks[k].threads[i].(completed := true)
    requires CreditedIn(s.workers, ws, s.tasks[k].threads[i].validations, pot, s.tasks[k].threads[i].workers)
    ensures WorkerOk(a, ws[a], s.params.minWorkerStaking.denom)
    ensures Placed(s.tasks[k := WithThread(s.tasks[k], i, done)], a, ws[a])
  {
    var th := s.tasks[k].threads[i];
    assert WorkerOk(a, s.workers[a], s.params.minWorkerStaking.denom) && Placed(s.tasks, a, s.workers[a]);
    RewardNonNegative(th.validations, a, pot);
    if a !in th.workers {
      PlacedPut(s.tasks, k, i, done, a, s.workers[a]);
    }
  }

  lemma RewardNonNegative(vs: seq<Validation>, a: Str, pot: nat)
    ensures ValidatorReward(vs, a, pot) >= 0
  {
    assert Paid(vs, [], pot) == 0;
    assert Paid(vs, [a], pot) == Paid(vs, [], pot) + ValidatorReward(vs, a, pot);
    PotSuffices(vs, [a], pot);
  }

  /** The record of one credited worker: released, with one point, one validation and the payment more. */
  predicate CreditedBy(w: Worker, now: Worker, payment: int) {
    && w.reputation.Some?
    && var r := w.reputation.value;
       now == w.(currentTaskId := [], currentThreadIndex := 0, reputation := Some(r.(
         points := r.points + 1, validations := r.validations + 1,
         winnings := Coin(r.winnings.denom, r.winnings.amount + payment))))
  }

  /** Everything a settlement changes in a good state: it completes the thread and credits the thread's
      workers, each with its share of half the reward divided by the number of threads. */
  lemma SettlementDoes(env: Env, s: State, k: Str, i: nat)
    requires Inv(s) && k in s.tasks && i < |s.tasks[k].threads| && Settle(env, s, s.tasks[k], i).Some?
    requires s.tasks[k].reward.Some? && env.denomValid(s.tasks[k].reward.value.denom)
    ensures var t, th, now := s.tasks[k], s.tasks[k].threads[i], Settle(env, s, s.tasks[k], i).value;
      var pot := t.reward.value.amount / 2 / |t.threads|;
      && now == s.(tasks := now.tasks, workers := now.workers)
      && now.tasks == s.tasks[k := t.(threads := t.threads[i := th.(completed := true)])]
      && now.workers.Keys == s.workers.Keys
      && (forall a | a in s.workers && a !in th.workers :: now.workers[a] == s.workers[a])
      && (forall a | a in th.workers ::
            a in s.workers && CreditedBy(s.workers[a], now.workers[a], ValidatorReward(th.validations, a, pot)))
      && (th.workers != [] ==> forall a | a in th.workers ::
            s.workers[a].reputation.value.winnings.denom == [106, 99, 116])
  {
    hide Inv, CreditAll, Paid, ValidatorReward;
    OrdinaryTask(s, k);
    var t, th := s.tasks[k], s.tasks[k].threads[i];
    assert ThreadOk(k, i, th, s.params.maxWorkersPerThread, s.workers.Keys);
    UniformStaff(s);
    CreditAllCredits(env, s.workers, t, i, th.workers, s.params.minWorkerStaking.denom);
  }
}
