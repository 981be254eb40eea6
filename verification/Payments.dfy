/** Whose balance a message changes, and by how much; and that no message makes or loses a coin. */
module Payments {
  import opened Basics
  import opened Protocol
  import opened Handlers
  import opened Blocks
  import opened Invariant
  import opened Escrow

  // ---------- who pays and who is paid ----------

  /** Amount c of denomination d goes from the account of a to the module. */
  ghost predicate PaysIn(b: Bank, now: Bank, a: Str, d: Str, c: int) {
    && (forall y, x :: now.Balance(y, x) == b.Balance(y, x) - (if y == a && x == d then c else 0))
    && (forall x :: now.Module(x) == b.Module(x) + (if x == d then c else 0))
  }

  /** An order takes the reward from its creator's account, if that holds it, and from nobody else. */
  lemma CreatorPays(env: Env, s: State, m: Msg)
    requires m.CreateVideoRenderingTask? && CreateStep(env, s, m).Some?
    ensures m.reward.Some? && m.reward.value.amount >= 0
    ensures var c := m.reward.value;
      PaysIn(s.bank, CreateStep(env, s, m).value.bank, m.creator, c.denom,
             if c.amount <= s.bank.Balance(m.creator, c.denom) then c.amount else 0)
  {
  }

  /** A registration takes the stake from the worker's account. */
  lemma WorkerStakes(env: Env, s: State, m: Msg)
    requires m.AddWorker? && AddWorkerStep(env, s, m).Some?
    ensures m.stake.amount >= 0
    ensures PaysIn(s.bank, AddWorkerStep(env, s, m).value.bank, m.creator, m.stake.denom, m.stake.amount)
  {
  }

  /** A submission pays half the reward, divided by the number of threads and rounded down, to its creator,
      if the module holds it; nobody else's balance changes. */
  lemma WinnerReceives(env: Env, s: State, m: Msg)
    requires Inv(s) && m.SubmitSolution? && SubmitStep(env, s, m).Some? && SubmissionFinds(s, m)
    ensures s.tasks[m.taskId].reward.Some? && s.tasks[m.taskId].threads != []
    ensures var t := s.tasks[m.taskId];
      var d, w := t.reward.value.denom, t.reward.value.amount / 2 / |t.threads|;
      && w >= 0
      && PaysIn(s.bank, SubmitStep(env, s, m).value.bank, m.creator, d, if w <= s.bank.Module(d) then -w else 0)
  {
    hide ReleaseAll, Inv;
    OrdinaryTask(s, m.taskId);
  }

  /** The other messages, submissions for no thread, and the block hooks move no coins. */
  lemma NobodyPays(env: Env, s: State, m: Msg)
    requires Handle(env, s, m).Some? && !m.CreateVideoRenderingTask? && !m.AddWorker?
    requires m.SubmitSolution? ==> !SubmissionFinds(s, m)
    ensures Handle(env, s, m).value.bank == s.bank
  {
  }

  lemma HooksPayNobody(env: Env, s: State)
    ensures Begun(env, s).bank == s.bank && Ended(s).bank == s.bank
  {
  }

  // ---------- nothing is made or lost ----------

  /** The balances of all accounts in one denomination. */
  ghost function Purse(accounts: map<(Str, Str), nat>, d: Str): map<(Str, Str), int> {
    map k | k in accounts && k.1 == d :: accounts[k]
  }

  ghost function Supply(b: Bank, d: Str): int { MapSum(Purse(b.accounts, d)) + b.Module(d) }

  lemma PursePut(accounts: map<(Str, Str), nat>, a: Str, x: Str, v: nat, d: Str)
    ensures MapSum(Purse(accounts[(a, x) := v], d)) == MapSum(Purse(accounts, d))
      + (if x != d then 0 else v - (if (a, x) in accounts then accounts[(a, x)] else 0))
  {
    if x == d {
      assert Purse(accounts[(a, x) := v], d) == Purse(accounts, d)[(a, x) := v];
      MapSumPut(Purse(accounts, d), (a, x), v);
    } else {
      assert Purse(accounts[(a, x) := v], d) == Purse(accounts, d);
    }
  }

  lemma DepositConserves(b: Bank, a: Str, c: Coin, d: Str)
    requires b.Deposit(a, c).Some?
    ensures Supply(b.Deposit(a, c).value, d) == Supply(b, d)
  {
    PursePut(b.accounts, a, c.denom, b.Balance(a, c.denom) - c.amount, d);
  }

  lemma WithdrawConserves(b: Bank, a: Str, c: Coin, d: Str)
    requires b.Withdraw(a, c).Some?
    ensures Supply(b.Withdraw(a, c).value, d) == Supply(b, d)
  {
    PursePut(b.accounts, a, c.denom, b.Balance(a, c.denom) + c.amount, d);
  }

  /** Every message keeps the sum of all balances and the module account, in every denomination. */
  lemma SupplyConserved(env: Env, s: State, m: Msg, d: Str)
    requires Handle(env, s, m).Some?
    ensures Supply(Handle(env, s, m).value.bank, d) == Supply(s.bank, d)
  {
    hide Supply, ReleaseAll, FirstThread, NewTask, NewWorker, Submitted;
    match m
    case CreateVideoRenderingTask(creator, _, _, _, _, reward) =>
      if s.bank.Deposit(creator, reward.value).Some? { DepositConserves(s.bank, creator, reward.value, d); }
    case AddWorker(creator, _, _, stake) => DepositConserves(s.bank, creator, stake, d);
    case SubmitSolution(creator, taskId, threadId, _, _) =>
      if SubmissionFinds(s, m) {
        var p := WinnerReward(s.tasks[taskId]);
        if s.bank.Withdraw(creator, p).Some? { WithdrawConserves(s.bank, creator, p, d); }
      }
    case _ => NobodyPays(env, s, m);
  }
}
