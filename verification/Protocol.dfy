/** The records kept on chain (types.pb.go, params.go) and the transaction messages (tx.pb.go). */
module Protocol {
  import opened Basics

  datatype Coin = Coin(denom: Str, amount: int)

  datatype Frame = Frame(
    filename: Str, signature: Str, cid: Str, hash: Str, validCount: int, invalidCount: int)

  datatype Validation = Validation(validator: Str, frames: seq<Frame>, publicKey: Str, isReverse: bool)

  datatype Solution = Solution(
    proposedBy: Str, frames: seq<Frame>, publicKey: Str, dir: Str, accepted: bool)

  datatype Thread = Thread(
    threadId: Str, taskId: Str, startFrame: int, endFrame: int, completed: bool, workers: seq<Str>,
    solution: Option<Solution>, validations: seq<Validation>, averageRenderSeconds: int)

  datatype Task = Task(
    taskId: Str, requester: Str, cid: Str, startFrame: int, endFrame: int, threadAmount: int,
    completed: bool, reward: Option<Coin>, threads: seq<Thread>)

  datatype Reputation = Reputation(
    staked: Coin, points: int, validations: int, solutions: int, winnings: Coin, renderDurations: seq<int>)

  datatype Worker = Worker(
    address: Str, reputation: Option<Reputation>, enabled: bool, currentTaskId: Str,
    currentThreadIndex: int, publicIp: Str, ipfsId: Str)

  datatype Params = Params(minWorkerStaking: Coin, maxWorkersPerThread: int, minValidators: int)

  /** The value a failed lookup leaves in a Go variable of the record type. */
  const ZERO_WORKER := Worker([], None, false, [], 0, [], [])
  const ZERO_TASK := Task([], [], [], 0, 0, 0, false, None, [])

  datatype Msg =
    | CreateVideoRenderingTask(
        creator: Str, cid: Str, startFrame: int, endFrame: int, threads: int, reward: Option<Coin>)
    | AddWorker(creator: Str, publicIp: Str, ipfsId: Str, stake: Coin)
    | SubscribeWorkerToTask(address: Str, taskId: Str, threadId: Str)
    | ProposeSolution(creator: Str, taskId: Str, threadId: Str, publicKey: Str, signatures: seq<Str>)
    | RevealSolution(creator: Str, taskId: Str, threadId: Str, frames: seq<Str>)
    | SubmitValidation(creator: Str, taskId: Str, threadId: Str, publicKey: Str, signatures: seq<Str>)
    | SubmitSolution(creator: Str, taskId: Str, threadId: Str, dir: Str, averageRenderSeconds: int)

  /** Code outside the module, as arbitrary but fixed functions: CID and denomination syntax,
      base64 decoding of keys and signatures, building the signed message from a hash and an
      address, and checking a signature (key, hash, address, signature). */
  datatype Env = Env(
    cidDecodes: Str -> bool,
    denomValid: Str -> bool,
    keyDecodes: Str -> bool,
    signatureDecodes: Str -> bool,
    messageBuilds: (Str, Str) -> bool,
    verifies: (Str, Str, Str, Str) -> bool)

  /** Account balances by (address, denomination) and the module account by denomination. */
  datatype Bank = Bank(accounts: map<(Str, Str), nat>, escrow: map<Str, nat>)
  {
    function Balance(addr: Str, denom: Str): nat {
      if (addr, denom) in accounts then accounts[(addr, denom)] else 0
    }

    function Module(denom: Str): nat {
      if denom in escrow then escrow[denom] else 0
    }

    /** SendCoinsFromAccountToModule. */
    function Deposit(addr: Str, c: Coin): Option<Bank> {
      if 0 <= c.amount <= Balance(addr, c.denom) then
        Some(Bank(accounts[(addr, c.denom) := Balance(addr, c.denom) - c.amount],
                  escrow[c.denom := Module(c.denom) + c.amount]))
      else None
    }

    /** SendCoinsFromModuleToAccount. */
    function Withdraw(addr: Str, c: Coin): Option<Bank> {
      if 0 <= c.amount <= Module(c.denom) then
        Some(Bank(accounts[(addr, c.denom) := Balance(addr, c.denom) + c.amount],
                  escrow[c.denom := Module(c.denom) - c.amount]))
      else None
    }
  }

  /** types.NewCoins panics on a negative amount, and on a bad denomination unless the amount is zero. */
  predicate NewCoinsPanics(env: Env, c: Coin) {
    c.amount < 0 || (c.amount > 0 && !env.denomValid(c.denom))
  }

  /** types.NewCoin panics on a negative amount or a bad denomination. */
  predicate NewCoinPanics(env: Env, c: Coin) {
    c.amount < 0 || !env.denomValid(c.denom)
  }

  datatype State = State(
    params: Params, nextId: nat, tasks: map<Str, Task>, workers: map<Str, Worker>, bank: Bank)
}
