# The rendering protocol and its wire codec in Dafny

The repository is a Cosmos SDK module that farms out 3D rendering. A requester orders a task and deposits a
reward; the task's frame range is split into threads; staked workers subscribe to a thread, one of them proposes
a solution (one signature per frame), the others validate, the proposer reveals file hashes, the block hooks
judge the validations and accept the solution, and the proposer submits it and is paid. This project models

* the chain as a state machine: the seven message handlers, `BeginBlock` and `EndBlock`, over the parameters,
  the task counter, the tasks, the workers and a bank (`Protocol`, `Handlers`, `Keeper`, `Blocks`, `Settlement`);
* the functions these steps call: frame splitting and rewards, verification counting and the acceptance rule,
  the validators' pay, the CLI entry codec, the worker record (`Splitting`, `Verification`, `CliCodec`, `Workers`);
* the protocol-buffers codec the stored records rest on: varints, the backward marshal into a buffer of exactly
  `Size()` bytes, the forward unmarshal loop with nesting, packed and unknown fields (`Varint`, `Wire`,
  `WireMarshal`, `WireUnmarshal`).

Every handler and both hooks exist twice: once as an imperative method that reads, changes and stores records in
the source's order, and once as a function on states. The method is proved equal to the function for **every**
state, good or not (the hooks: every state that stores tasks under their own identifiers, as every reachable state
does), and for every outcome (success, error or panic). What follows is then proved about the functions, over all
runs: sequences of transactions, block hooks on nodes with arbitrary configurations and databases, and changes of
account balances by other modules. `Stories`, `EscrowExamples` and `RecountExample` hold runs from genesis.

Main results:

1. **One invariant, every reachable state** (`Invariant.Inv`, `Runs.ReachableInv`), and what rests on it: workers'
   assignments are coherent, the two branches marked "this shouldn't happen" are dead, reveal is all or nothing,
   validations are unique and correctly directed, completed threads have no busy worker.
2. **What a node's own data can do** (`Runs.HooksProceedExactly`, `Runs.NodesAgree`): in every reachable state and on
   every node, a block hook gets to its end if and only if the reads it makes of the node's database succeed, and
   panics otherwise; it never returns early. Nodes whose reads succeed compute the same state over the same history,
   whatever their configurations and databases hold.
3. **Monotone life cycle** (`Lifecycle.RunEvolves`, `Lifecycle.AcceptedIsFrozen`): an accepted solution is frozen.
4. **Escrow** (`Escrow.BooksExact`, `Escrow.RunBooks`, `Escrow.EscrowConserved`): conservation fails in general; the
   books balance at the end of a run if and only if every transaction of the run was orderly - see below.
5. **Acceptance** (`Acceptance.ThresholdSuffices`, `Acceptance.AcceptanceRule`, `Counts.CountsUnlessDisturbed`,
   `Counts.ZeroExactly`): what the counters mean, when they fail to, and that the client's 20% threshold is enough
   for the chain.
6. **Each step, exactly** (`Effects`, `Payments`, `Judging.AcceptsExactly`, `Verdicts.JudgeMeans`): when a message goes
   through, everything it changes, whose balance moves, and when a block accepts a solution, said of the message's
   bytes and the records' fields.
7. **Codec** (`WireProofs.RoundTrip`, `WireProofs.EncodingInjective`, `WireProofs.DecodeConcat`,
   `WireProofs.EncodingMerges`): round trip, injectivity, decoding distributes over concatenation, last one wins; the layouts
   byte by byte (`WireBytes`).

## Where the code does not do what one might expect

* **A failed database read stops the node.** The hooks drop the error of `ReadThread` and `ReadTask` and use the
  record at once (module/module.go:179-180, 250-251, 294-295, 317-318); a read that fails for another reason than a
  missing row gives no record, and the hook panics. So the hooks do not always get to their end:
  `BlockInvariant.HooksNeedOnlyReads` has the exact condition, and `Stories.FailedReadPanics` a run from genesis to a
  state in which one node panics and another does not.
* **The escrow equation is not an invariant of the code.** `CreateVideoRenderingTask` and `SubmitSolution` ignore
  the results of their transfers, and `SubmitSolution` does not look at `Completed`. `Escrow.Orderly` is the
  condition a caller can check beforehand (the requester has the funds; the thread is not completed yet or its
  reward rounds to nothing). `Escrow.BooksExact` shows that a message that goes through keeps the books balanced if
  and only if it is orderly, and `Escrow.RunBooks` that nothing later repairs what a disorderly one breaks. Any
  unfunded task breaks the books of any genesis (`EscrowExamples.UnfundedTask`), any paid solution can be submitted
  and paid again (`ResubmissionIsPaidAgain`), and `PaidTwice` is a run from genesis that does so.
* **Counters of a thread can be counted twice.** Accepting one thread stores the whole task, with the counters of
  earlier threads that were judged and not accepted; the next block counts on from there. `Counts.RecountExact` says
  exactly when, and `RecountExample.AcceptedOnOneVote` is a run from genesis at whose end a solution of a thread with
  two workers is accepted on one verifying validation where two are required. Counters are what they should be for
  every thread this never happened to, among them the last thread of every task.
* **Frame ranges** tile the task's range unless the number of frames is negative and not a multiple of the thread
  count; `CreateVideoRenderingTask` checks neither bound. `Splitting.RangesTile` has the exact condition, and
  `RangesMissTheEnd` an input that fails it.
* **`EndBlock` stores an empty completed task under the empty key**, because it ignores the failed look-up of
  number 0 (module/module.go:330-343). The invariant carries it (`NOBODYS_TASK`).
* **`BeginBlock` adjusts `MinValidators`**, which no handler reads; judging starts at two validations, or at one
  validation of a thread with one worker (module/module.go:232).
* `GetValidatorReward` pays in `jct` whatever the reward's denomination (VideoRenderingThread.go:313-325).
  `Settlement.SettlementWithinPot` shows that the settlement goes through exactly when nobody works on the thread
  or the chain stakes in `jct`, and that it credits winnings without moving any coin.

## Assumptions

* A hook that panics takes its node down and commits nothing: a run continues from the state before it. Reads of
  the node's database are independent of each other and of the chain.
* A transaction that returns an error or panics leaves the store unchanged, and values read from the store are
  fresh copies (the SDK's atomicity and its encoding of records).
* Genesis: `nextId = 1`, no tasks, no workers, and parameters whose minimal stake is present; for the books the
  module account starts empty and is credited only by this module.
* CID and denomination syntax, base64 decoding of keys and signatures, the signed message and signature
  verification are arbitrary functions (`Protocol.Env`), the same on every node. `jct` passes `types.NewCoin`.
* A message to be encoded is a Go value: integers in the range of their type and lengths below 2^63
  (`WireProofs.Fits`).
* Message signers are valid addresses and recipients are not blocked; all of a balance is spendable.

## Model

| member | source | states |
|---|---|---|
| Keeper.MsgServer.CreateTask | keeper/msg_server.go:32-73 | The handler as it runs equals its transition function in every state: an invalid CID, a missing reward, no threads or an invalid coin reject it, a failed deposit does not |
| Keeper.MsgServer.RegisterWorker | keeper/msg_server.go:75-133 | AddWorker equals its transition function, including all five refusals and the rollback of the stored worker when staking fails |
| Keeper.MsgServer.Subscribe | keeper/msg_server.go:135-185 | The search loop takes the first open thread with the identifier, and stops without effect when the worker is already on it |
| Keeper.MsgServer.Propose | keeper/msg_server.go:187-265 | The loop over all threads with the identifier equals the all-or-nothing proposal, error and panic cases included |
| Keeper.MsgServer.Reveal | keeper/msg_server.go:268-348 | Equals its transition function, with the index and nil faults as rejections |
| Keeper.MsgServer.RevealFrames | keeper/msg_server.go:319-343 | Walking the decoded map in whatever order accepts exactly when every file is known and afterwards everything is revealed, and leaves exactly the first-match updates |
| Keeper.MsgServer.Validate | keeper/msg_server.go:350-414 | Equals its transition function: appends one validation with the right direction and releases everybody but the proposer |
| Keeper.MsgServer.Submit | keeper/msg_server.go:416-476 | Equals its transition function: payment attempted, thread completed, remaining workers released, winner credited; also for a thread that was completed before |
| Keeper.MsgServer.ReleaseThread | keeper/msg_server.go:454-464 | The release loop, with its panic on an index outside the task |
| Keeper.MsgServer.DeliverTx | keeper/msg_server.go:32-476 | A whole transaction with its rollback equals one step of the state machine |
| Effects.CreateExactly | keeper/msg_server.go:32-73 | In a good state: exactly when an order goes through, and every field of the task and the threads it stores under the fresh number; nothing else changes but balances |
| Effects.AddWorkerExactly | keeper/msg_server.go:75-133 | A worker is registered exactly when it is new and owns the stake it offers, in the staking denomination and not below the minimum; every field of its record |
| Effects.SubscribeExactly | keeper/msg_server.go:135-185 | Goes through exactly for an enabled worker and an open task; the worker joins and is assigned to the named thread if that is open, has room and does not list it, and nothing changes otherwise |
| Effects.ProposeExactly | keeper/msg_server.go:187-265 | Exactly when a proposal goes through; the named thread then has a solution with the message's creator and key, and frame by frame the name and signature its entries say; nothing else changes |
| Effects.RevealExactly | keeper/msg_server.go:268-348 | Exactly when a reveal goes through; only CIDs and hashes of the thread's frames change |
| Effects.HiddenRevealExactly | keeper/msg_server.go:319-343 | The reveal of a hidden solution is complete if and only if the names are distinct and the entries spell, in some order, every frame's name with a CID and a hash; each frame then carries what its own entry spells |
| Effects.ValidateExactly | keeper/msg_server.go:350-414 | Exactly when a validation goes through; one validation is appended with the message's creator, key and entries and the parity of the creator's place, and everybody but the proposer is released; nothing else changes |
| Effects.SubmitExactly | keeper/msg_server.go:416-476 | Everything a submission changes besides balances: directory, seconds and completion of the thread, the released workers, and the winner's record field by field |
| Payments.CreatorPays | keeper/msg_server.go:63-66 | An order takes the reward from its creator's account, if that holds it; no other balance changes |
| Payments.WorkerStakes | keeper/msg_server.go:125-130 | A registration takes the stake from the worker's account and from nobody else |
| Payments.WinnerReceives | keeper/msg_server.go:443-445 | A submission pays half the reward divided by the number of threads to its creator, if the module holds it; no other balance changes |
| Payments.NobodyPays | keeper/msg_server.go:135-414 | The other messages move no coins |
| Payments.HooksPayNobody | module/module.go:151-364 | The block hooks move no coins |
| Payments.SupplyConserved | keeper/msg_server.go:32-476 | Every message keeps the sum of all balances and the module account, in every denomination |
| Entries.SignedSay | keeper/msg_server.go:236-246 | An entry name=signature is stored as a frame with that name and that signature, empty CID and hash, and zero counters |
| Entries.PrintedIsStored | utils.go:34-44 | What the client prints for a map of signatures is stored as exactly its pairs, in the order printed |
| Entries.RevealSpelled | keeper/msg_server.go:319-343 | Frames with distinct names and one entry for each in any order: each frame gets the CID and the hash its own entry spells, and keeps the rest |
| Entries.RevealMeans | keeper/msg_server.go:319-343 | Any reveal, also a repeated one: exactly when it goes through, and that the first frame of a name takes the values of the last entry for it while all else stays |
| Handlers.FirstOpen | keeper/msg_server.go:160-183 | The first thread with the identifier, a free place and not completed; none before it, and none at all if it finds none |
| Handlers.FirstThread | keeper/msg_server.go:424-425 | The first thread with the identifier, and none before it |
| Workers.WorkerObject.DeclareWinner | Worker.go:54-60 | Updates the record in place as specified, panicking without reputation or on mixed denominations |
| Workers.WorkerObject.ReleaseValidator | Worker.go:62-65 | Clears the assignment and nothing else |
| Blocks.AppModule.BeginBlock | module/module.go:151-261 | The hook as it runs - early return, unchecked index and unchecked reads of the database included - equals its transition function for every configuration and database |
| Blocks.AppModule.WalkTasks | module/module.go:229-258 | The walk in any order judges each stored task exactly once, and panics exactly when the read for some thread to deliver fails |
| Blocks.AppModule.WalkTask | module/module.go:229-258 | Counters change in memory, the whole task is stored each time a thread is accepted, and a failed read for a thread to deliver panics |
| Blocks.ScanStored | module/module.go:230-239 | What a walk over a task leaves in the store: a thread as it was judged if it or a later thread was accepted, and as it was before otherwise |
| Blocks.AppModule.EndBlock | module/module.go:265-364 | The hook as it runs - unchecked solution and unchecked reads of the database included - equals its transition function for every configuration and database |
| Blocks.AppModule.LookForReveals | module/module.go:309-327 | Panics exactly when some open, validated thread has no solution, or has one proposed by this node whose row cannot be read |
| Blocks.AppModule.ChooseThread | module/module.go:290-302 | Asks the database about the free threads in order, until one has no subscription on its way or a read fails |
| Blocks.AppModule.FindPending | module/module.go:125-149 | Finds the first open task whose reward this node accepts, or faults on a missing reward |
| Blocks.AppModule.CompleteTasks | module/module.go:329-346 | Completes every task whose threads are all completed, and writes the empty task for a number without one |
| Invariant.GenesisInv | genesis.go:4-11 | Genesis satisfies the invariant |
| Invariant.CreateInv | keeper/msg_server.go:32-73 | Creating a task keeps the invariant: the number is fresh, the threads well ranged |
| Invariant.AddWorkerInv | keeper/msg_server.go:75-133 | Registering keeps the invariant |
| Invariant.SubscribeInv | keeper/msg_server.go:135-185 | Subscribing keeps the invariant, also for a worker that leaves another thread for this one |
| Invariant.ProposeInv | keeper/msg_server.go:187-265 | Proposing keeps the invariant |
| Invariant.RevealKeeps | keeper/msg_server.go:319-343 | A reveal that goes through leaves all frames revealed under pairwise distinct names, from hidden or revealed frames |
| Invariant.RevealInv | keeper/msg_server.go:268-348 | Revealing keeps the invariant |
| Invariant.ValidateInv | keeper/msg_server.go:350-414 | Validating keeps the invariant: nobody but the proposer validates twice |
| Invariant.ReleaseAllFrees | keeper/msg_server.go:454-464 | In a good state the release loop never faults and frees exactly the listed workers that are busy on the thread |
| Invariant.SubmitInv | keeper/msg_server.go:416-476 | Submitting keeps the invariant, also when done twice |
| Invariant.HandleInv | keeper/msg_server.go:32-476 | Every message that goes through keeps the invariant |
| BlockInvariant.BeginInv | module/module.go:151-261 | BeginBlock keeps the invariant |
| BlockInvariant.EndInv | module/module.go:309-346 | EndBlock keeps the invariant |
| BlockInvariant.TasksKnowTheirKeys | module/module.go:239 | In a good state every task is stored under its own identifier, so that storing a task again replaces it |
| BlockInvariant.HooksNeedOnlyReads | module/module.go:169-361 | In a good state a hook gets to its end if and only if its reads of the database succeed, and panics otherwise; the state it reaches does not depend on the node |
| BlockInvariant.JoinReads | module/module.go:290-302 | The choice of a thread gets through exactly when every read it makes succeeds |
| BlockInvariant.PendingFinds | module/module.go:125-149 | In a good state the search finds the first open task that pays enough and has an open thread with room, if there is one, and never faults |
| BlockInvariant.DeliveriesAwaited | module/module.go:249-251 | The threads whose delivery is looked up are those the block leaves accepted, undelivered and proposed by the configured address |
| BlockInvariant.BeginProceeds | module/module.go:169-180 | The early return and the index out of range cannot happen; before the walk only the read for the busy configured worker's thread can fail |
| BlockInvariant.RevealsNeedReads | module/module.go:314-318 | The nil solution cannot happen; only the reads for own solutions that may have to be revealed can fail |
| BlockInvariant.EndCompletes | module/module.go:329-346 | After EndBlock a stored task is completed exactly when all its threads are |
| BlockInvariant.EndIdempotent | module/module.go:309-346 | A second EndBlock changes nothing on the chain |
| Judging.AcceptsExactly | module/module.go:229-245 | In every reachable state, a BeginBlock that gets to its end accepts an undisturbed solution whose validations decode if and only if task and thread are open, it is revealed, two workers have validated it or all have, and at least max(1, n/5) frames are verified by two validations, or by one for a single worker; it then stores the exact numbers and changes nothing else |
| Judging.BeginLeaves | module/module.go:151-167 | BeginBlock sets the minimum of validators to the number of workers between 2 and 6, and touches nothing else outside open tasks |
| Judging.EndWrites | module/module.go:329-346 | EndBlock marks exactly the tasks whose threads are all completed, and changes nothing else but the record under the empty key |
| Runs.ReachableInv | keeper/msg_server.go:32-476 | Every reachable state satisfies the invariant |
| Runs.HooksProceedExactly | module/module.go:169-361 | In every reachable state, on every node: a hook gets to its end if and only if its reads succeed, panics otherwise, and never returns early |
| Runs.NodesAgree | module/module.go:169-361 | Over every history, two nodes whose reads succeed reach equal states and get through all hooks, whatever their configurations and databases hold |
| Stories.FailedReadPanics | module/module.go:169-180 | A run from genesis to a state in which BeginBlock panics on a node whose read fails and proceeds on one whose read succeeds |
| Runs.AssignmentCoherent | keeper/msg_server.go:160-182 | A busy worker's task exists and is open, its index is in range, its thread is open and lists it, without duplicates and within the limit |
| Runs.DeadBranches | keeper/msg_server.go:313-317 | A worker that reaches either "this shouldn't happen" test is listed on the thread |
| Runs.FirstHashDecides | module/module.go:232 | The first frame's hash is non-empty exactly when the whole solution is revealed under distinct names, and empty exactly when nothing is revealed |
| Runs.ValidationsCoherent | keeper/msg_server.go:403-411 | Validations need a solution, come from the thread's workers with the right direction, at most one per worker other than the proposer |
| Runs.CompletionCoherent | keeper/msg_server.go:446-464 | Solutions have one frame per frame of the range and a proposer from the workers; nobody is busy on a completed thread; a completed task has only completed threads |
| Lifecycle.RunEvolves | keeper/msg_server.go:217-256 | Every later state has grown out of every earlier one: workers and validations only by appending, solutions set once, counters never decreasing, completion and acceptance never reverted |
| Lifecycle.AcceptedIsFrozen | keeper/msg_server.go:298-301 | After acceptance every frame with its counters, the proposer and the key stay for the rest of the run |
| Lifecycle.DirectionsStay | VideoRenderingThread.go:304-311 | A stored direction flag equals IsReverse of its validator in every later state |
| Counts.RecountExact | module/module.go:230-239 | A walk over a task changes the stored counters of a thread it leaves unaccepted if and only if the thread is due, counting changes it, it is not accepted, and a later thread of the task is |
| Counts.CountsUnlessDisturbed | module/module.go:229-245 | In every reachable state, for every thread that was never changed in that way: counters are zero until acceptance; afterwards each is at most the number of validations that verify, respectively fail, the frame, and when it was judged at least max(1, n/5) frames had two verifying validations, or one if the thread had a single worker then |
| Counts.ZeroExactly | module/module.go:229-245 | In every reachable state, the counters of an unaccepted solution are zero if and only if the thread was never changed in that way |
| Counts.LastThreadTraced | module/module.go:229-245 | The last thread of a task, so every thread of a single-thread task, never is |
| RecountExample.TwoBlocks | module/module.go:230-239 | Two walks over a task of two threads: the first stores the counter of thread 0, the second accepts it on the sum |
| RecountExample.AcceptedOnOneVote | module/module.go:229-245 | A run from genesis at whose end a solution is accepted with one verifying validation of its only frame, where two are required |
| Escrow.BooksExact | keeper/msg_server.go:63-72 | A message that goes through keeps the books balanced in every denomination if and only if it is orderly |
| Escrow.SubmitMovesOnce | keeper/msg_server.go:443-471 | In every good state: each submission adds one winner's reward to the winnings; the first one of a thread moves it from owed to paid; it leaves the module exactly if the module has it; stakes stay |
| Escrow.SubmitBooks | keeper/msg_server.go:443-471 | Under balanced books a submission keeps them balanced if and only if it is orderly |
| Escrow.CreateBooks | keeper/msg_server.go:63-72 | A new task leaves exactly its reward missing when the requester cannot pay, and nothing otherwise |
| Escrow.AddWorkerBooks | keeper/msg_server.go:115-130 | Registering moves the stake into the module and leaves the books as they are |
| Escrow.SubmitLeans | keeper/msg_server.go:443-471 | Even a payment that fails for lack of funds, and is booked all the same, does not bring unbalanced books back into balance |
| Escrow.WinnerIsPaid | keeper/msg_server.go:443-445 | Under balanced books the payment of any task's winner is covered |
| Escrow.RunBooks | keeper/msg_server.go:32-476 | The books balance at the end of a run if and only if every transaction of the run that went through was orderly |
| Escrow.EscrowConserved | keeper/msg_server.go:443-471 | Over every orderly run: module account = stakes + unpaid rewards, at least stakes + reserved halves; winnings = what was paid; every winner transfer is covered |
| EscrowExamples.UnfundedTask | keeper/msg_server.go:63-72 | In every genesis state, every well-formed task whose reward exceeds its creator's balance goes through and unbalances the books |
| EscrowExamples.SubmissionAccepted | keeper/msg_server.go:416-476 | In a good state a submission for an existing thread goes through exactly when its creator proposed the solution and the reward is in the (valid) staking denomination |
| EscrowExamples.ResubmissionIsPaidAgain | keeper/msg_server.go:424-449 | Any first submission with a positive payment can be repeated at once, is accepted and unbalances the books |
| EscrowExamples.PaidTwice | keeper/msg_server.go:424-449 | An orderly run from genesis to such a submission, and its repetition |
| Settlement.EvaluateCompletedThread | module/module.go:366-388 | The settlement loop equals its transition function, panics included |
| Settlement.SettlementWithinPot | module/module.go:366-388 | In a good state, with a valid reward denomination, it goes through exactly when the thread is empty or the chain stakes in "jct"; then it credits what the payments add up to, never more than the thread's share of the validators' half, and touches no stake and no balance |
| Settlement.SettlementInv | module/module.go:366-388 | Settling a thread with a solution keeps the chain's invariant |
| Settlement.SettlementDoes | module/module.go:366-388 | Everything a settlement changes: the completed thread, and field by field the records of its workers |
| Verification.VideoRenderingThread.EvaluateVerifications | VideoRenderingThread.go:382-423 | The nested loops leave exactly the tallied frames, stopping at the first failure to decode |
| Verification.VideoRenderingThread.IsSolutionAccepted | VideoRenderingThread.go:427-453 | The loop decides the acceptance predicate |
| Verification.VideoRenderingThread.IsReverse | VideoRenderingThread.go:304-311 | The search loop computes the worker's direction |
| Verification.VideoRenderingThread.GetValidatorReward | VideoRenderingThread.go:313-335 | The two loops compute the share of the worker's first validation, in "jct" |
| Verification.ReverseAt | VideoRenderingThread.go:304-311 | A worker's direction is the parity of its first position |
| Verification.ReverseStable | VideoRenderingThread.go:304-311 | Later subscriptions do not change it |
| Verdicts.JudgeAt | VideoRenderingThread.go:385-418 | The verdict on a frame by the validation's first entry for its file: it decodes or not, and that entry's own signature verifies or not |
| Verdicts.JudgeMeans | VideoRenderingThread.go:385-418 | Every verdict and exactly when it is given; no entry for the file gives none |
| Verdicts.OtherEntriesDoNotMatter | VideoRenderingThread.go:385-390 | Deleting an entry for another file leaves the verdict unchanged |
| Verdicts.CountsVerdicts | VideoRenderingThread.go:382-423 | Counting the verdicts one by one gives the numbers of endorsing and of rejecting validations |
| Acceptance.CountingRefines | VideoRenderingThread.go:382-423 | From zero, each frame's counters are the numbers of validations whose first entry for the file verifies, respectively fails |
| Acceptance.CountingStops | VideoRenderingThread.go:382-423 | At the first entry that does not decode counting ends: earlier frames are counted in full, this one up to there, later ones not at all |
| Acceptance.TallyBound | VideoRenderingThread.go:382-423 | Whatever fails to decode, the counters grow by at most the verifying, respectively failing, validations |
| Acceptance.AcceptanceRule | VideoRenderingThread.go:382-453 | Counting from zero and the rule together: accepted exactly when at least max(1, n/5) of n >= 1 frames are verified by two validations each, or by one each if the thread has a single worker |
| Acceptance.ThresholdSuffices | VideoRenderingThread.go:180-188 | A proposer's validation good on all n frames and another good on f of them with 5f > n-1 make the chain accept, for every n and f |
| Acceptance.FifthByDoubles | VideoRenderingThread.go:180-188 | With the double nearest to 0.2 and rounding to the nearest double, the client's test is 5f > n and the chain's count n/5, for all 32-bit n, negative ones included |
| Payout.PotSuffices | VideoRenderingThread.go:313-335 | Distinct workers together never get more than the pot, even when validators repeat |
| Payout.PotIsUsed | VideoRenderingThread.go:313-335 | Without repetitions, and with some file validated, the payments miss the pot by fewer units than there are validations |
| Payout.ShareOfFirst | VideoRenderingThread.go:313-335 | A worker is paid for its first validation: the pot times its files divided by the files of all validations, rounded down |
| Payout.NoShare | VideoRenderingThread.go:313-335 | Who validated nothing is paid nothing |
| Payout.FilesAddUp | VideoRenderingThread.go:314-317 | The files counted are those of all validations |
| Splitting.SplitFrames | VideoRenderingTask.go:40-61 | The loop computes the closed-form ranges, for negative totals too |
| Splitting.GenerateThreads | VideoRenderingTask.go:19-31 | One fresh thread per range, in order |
| Splitting.RangesTile | VideoRenderingTask.go:40-61 | The ranges are contiguous from the first frame, and end at the last one if and only if the total is non-negative or a multiple of the thread count |
| Splitting.RangesMissTheEnd | VideoRenderingTask.go:40-61 | A task from frame 5 to frame 3 in two threads: the ranges end at frame 4 |
| Splitting.RangesPartition | VideoRenderingTask.go:40-61 | A frame is in the task's range exactly when it is in some thread's, and then in only one |
| Splitting.RangeSizes | VideoRenderingTask.go:40-61 | Sizes are the quotient, one more for the first ranges |
| Splitting.ThreadIdInjective | VideoRenderingTask.go:19-31 | Thread identifiers are unique within a task |
| Splitting.RewardsFit | VideoRenderingTask.go:77-85 | All winners' and validators' shares together fit into the reward and leave at most 2n-1 units |
| CliCodec.FromCliToFrames | utils.go:66-87 | The loop computes the map in which later entries win and malformed ones are skipped |
| CliCodec.ParseSpelled | utils.go:66-87 | An entry filename=cid:hash is read with exactly these parts |
| CliCodec.ParseOnlySpelled | utils.go:66-87 | Only entries of that form are read; all others are skipped |
| CliCodec.FromFramesToCli | utils.go:89-98 | One entry per key, in whatever order the map is walked |
| CliCodec.FramesRoundTrip | utils.go:66-98 | Reading what was printed, in any order, gives the map back |
| CliCodec.TransformSliceToMap | utils.go:17-31 | The loop computes the map, or fails on an item without a separator |
| Entries.MapOfMeans | utils.go:17-31 | It fails exactly on an item without a separator; otherwise the last item for a key gives its value, and there are no other keys |
| CliCodec.MapToKeyValueFormat | utils.go:34-44 | One item per key, in whatever order the map is walked |
| CliCodec.KeyValueRoundTrip | utils.go:17-44 | Reading what was printed gives the map back, also when values contain the separator |
| RevealOrder.AnyOrder | keeper/msg_server.go:325-335 | For every message and every iteration order the outcome is the order-free one |
| RevealOrder.OrdersAgree | keeper/msg_server.go:325-335 | Two iteration orders accept or reject alike and leave the same frames |
| Varint.EncodeVarint | types.pb.go:1936-1945 | Writes the varint into exactly the bytes before the offset and nothing else |
| Varint.EncSize | types.pb.go:2297-2299 | The bit-length formula is the number of bytes written |
| Varint.EncTen | types.pb.go:1936-1945 | A 64-bit value takes at most ten bytes |
| Varint.ReadVarint | types.pb.go:4075-4089 | The shift loop with wrap-around at 64 bits accepts and returns what the specification does, within the buffer |
| Varint.DecEnc | types.pb.go:1936-1945 | A written varint is read back, whatever follows |
| WireBytes.EncWorth | types.pb.go:1936-1945 | The bytes written are one varint: seven bits each, least significant first, the high bit on all but the last, worth the value |
| WireBytes.MinusOne | types.pb.go:1936-1945 | Minus one is written as nine bytes 255 and a 1 |
| WireBytes.DecMeans | types.pb.go:4075-4089 | The loop reads a varint of at most ten bytes, if there is one, and keeps the low 64 bits of its worth |
| WireMarshal.MarshalFrame | types.pb.go:1738-1782 | The backward writer puts the frame's encoding right before the index and nothing elsewhere |
| WireMarshal.MarshalValidation | types.pb.go:1677-1721 | The same, with the frames written last to first |
| WireMarshal.MarshalSolution | types.pb.go:1609-1660 | The same for a solution |
| WireMarshal.MarshalReputation | types.pb.go:1338-1400 | The same for a reputation with its packed durations |
| WireMarshal.PackDurations | types.pb.go:1338-1400 | The scratch buffer of the packed field holds the concatenated varints |
| WireMarshal.Marshal | types.pb.go:1594-1660 | A buffer of Size() bytes is filled completely, and decodes to an equal message |
| WireUnmarshal.MessageObject.Unmarshal | types.pb.go:3702-3901 | The forward loop over arbitrary bytes ends, stays inside the buffer, and accepts and updates exactly as the specification |
| WireUnmarshal.MessageObject.UnmarshalField | types.pb.go:4070-4285 | One turn of the loop, with the wrapping index checks, is one parsed field |
| WireUnmarshal.MessageObject.UnpackDurations | types.pb.go:3019-3094 | The packed loop, which may run past the declared length but not past the buffer |
| WireUnmarshal.SkipTypes | types.pb.go:4706-4783 | On arbitrary bytes it ends, never reads outside, and finds the end of the field exactly when there is one inside the buffer, groups included |
| WireProofs.SizeExact | types.pb.go:2145-2230 | Size() is the length of the encoding for all four messages |
| WireProofs.RoundTrip | types.pb.go:1609-1782 | Decoding an encoding into an empty message gives an equal message |
| WireProofs.EncodingInjective | types.pb.go:1609-1782 | Different messages have different encodings |
| WireProofs.DecodeConcat | types.pb.go:4070-4285 | When a decodes, decoding a followed by b is decoding b into the result |
| WireProofs.EncodingMerges | types.pb.go:4070-4285 | Decoding an encoding into any message merges: scalars and strings are replaced by non-empty ones, repeated fields are appended |
| WireProofs.UnknownSkipped | types.pb.go:4706-4783 | A complete unknown field changes nothing and does not disturb what follows |
| WireProofs.UnpackedDuration | types.pb.go:3019-3094 | A duration that is not packed is appended like a packed one |
| WireBytes.FrameLayout | types.pb.go:1738-1782 | The bytes of a frame, with the tag bytes 0a, 12, 1a, 22, 28, 30 of its fields |
| WireBytes.ValidationLayout | types.pb.go:1677-1721 | The bytes of a validation, with the tag bytes 0a, 12, 1a, 20 |
| WireBytes.SolutionLayout | types.pb.go:1609-1660 | The bytes of a solution, with the tag bytes 0a, 12, 1a, 22, 28 |
| WireBytes.ReputationLayout | types.pb.go:1338-1400 | The bytes of a reputation, with the tag bytes 0a, 10, 18, 20, 2a, 32 |
| WireBytes.ScalarValues | types.pb.go:4070-4285 | What any varint makes of each scalar field: 64-bit or 32-bit two's complement, and true for everything but zero |
| WireBytes.UnknownRecordIgnored | types.pb.go:4706-4783 | Every well-formed record with an unknown number is passed over: varints, eight and four bytes, length-delimited, and groups nested to any depth |
| WireBytes.StrayTagsFail | types.pb.go:4090-4097 | The end of a group that is not open, and field number zero, are rejected |
| WireBytes.WrongTypeFails | types.pb.go:4070-4285 | A known field with another wire type is rejected |
| WireBytes.CutOffFails | types.pb.go:4070-4285 | A length that exceeds the rest of the buffer is rejected |

## Left out

- The goroutines the hooks launch, and the writes to the node's database: they do not write the store. The hooks' accesses that can stop or fault them are modelled; the flags of a row only choose which goroutines start, so that the model has them without using them.
- A panic inside a launched goroutine, which would take the node down as well.
- Client work (`StartWork`, `ProposeSolution`, `RevealSolution`, `SubmitSolution` in VideoRenderingThread.go), Docker, IPFS, files, logging, TOML: input and output around the protocol. `ipfs.EnsureIPFSRunning` in SubmitSolution is not part of this model.
- Kinds and texts of errors: a handler, a parser or a hook says whether it fails, not with which error; what a failed Unmarshal leaves in its object is not described.
- The codec of `types.Coin`: the two coins inside a reputation are kept as the raw bytes of their records.
- The remaining messages of types.pb.go, tx.pb.go and query.pb.go: the same generated code.
- Nil `math.Int` inside a coin, and a missing stake in AddWorker: messages decoded by the SDK carry amounts.
- Integer widths on the chain: counters, identifiers and amounts are unbounded, so overflows of int64 counters, of `int32(i)` thread indices and of 256-bit amounts do not appear; the codec does use 32 and 64 bits and Go's wrapping addition.
- The iteration semantics of the store while it is written: each walk visits every key present at its start once, in any order.
- Records are values that the server object stores again, as the handlers do with their copies; the aliasing of pointers inside one copy is not modelled beyond what BeginBlock shows (counters changed in memory before the task is stored).
- FifthByDoubles: doubles are 53-bit integers over powers of two, without exponent limits and without a rule for ties, which do not matter for products of 32-bit counts.
- AcceptedIsFrozen: `Dir` is not frozen, because a repeated submission replaces it.
- The query server, genesis export, module wiring, zkp/zkp.go, and the checks in `VerifySubmittedSolution`, which the handler has commented out.
