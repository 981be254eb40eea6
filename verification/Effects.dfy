/** Exactly when each message goes through in a good state, and everything it changes there: field by field,
    for the records it writes, and nothing for the others. (Balances are the subject of Payments.) */
module Effects {
  import opened Basics
  import opened Protocol
  import opened Splitting
  import opened Verification
  import opened CliCodec
  import opened Handlers
  import opened Invariant
  import opened Entries
  import opened Workers

  // ---------- frames of reference ----------

  /** Only the tasks under k may differ, and of its threads only number i. */
  predicate OnlyThread(s: State, now: State, k: Str, i: nat)
    requires k in s.tasks && i < |s.tasks[k].threads|
  {
    && now.tasks.Keys == s.tasks.Keys && now.params == s.params && now.nextId == s.nextId
    && (forall x | x in s.tasks && x != k :: now.tasks[x] == s.tasks[x])
    && |now.tasks[k].threads| == |s.tasks[k].threads|
    && now.tasks[k] == s.tasks[k].(threads := now.tasks[k].threads)
    && forall j :: 0 <= j < |s.tasks[k].threads| && j != i ==> now.tasks[k].threads[j] == s.tasks[k].threads[j]
  }

  /** Thread i carries the identifier the message names. */
  predicate Named(s: State, k: Str, threadId: Str, i: nat) {
    k in s.tasks && i < |s.tasks[k].threads| && s.tasks[k].threads[i].threadId == threadId
  }

  lemma NamedOnce(s: State, k: Str, threadId: Str, i: nat)
    requires Inv(s) && Named(s, k, threadId, i)
    ensures k != [] && ThreadOk(k, i, s.tasks[k].threads[i], s.params.maxWorkersPerThread, s.workers.Keys)
    ensures forall j :: 0 <= j < |s.tasks[k].threads| && s.tasks[k].threads[j].threadId == threadId ==> j == i
  {
    hide Inv, ThreadId;
    OrdinaryTask(s, k);
    forall j | 0 <= j < |s.tasks[k].threads| && s.tasks[k].threads[j].threadId == threadId ensures j == i {
      ThreadIdInjective(k, i, j);
    }
  }

  predicate Enabled(s: State, a: Str) { a in s.workers && s.workers[a].enabled }
  predicate OpenTask(s: State, k: Str) { k in s.tasks && !s.tasks[k].completed }

  // ---------- CreateVideoRenderingTask ----------

  lemma CreateExactly(env: Env, s: State, m: Msg)
    requires Inv(s) && m.CreateVideoRenderingTask?
    ensures CreateStep(env, s, m).Some? <==>
      && env.cidDecodes(m.cid) && m.threads > 0
      && m.reward.Some? && m.reward.value.amount >= 0
      && (m.reward.value.amount > 0 ==> env.denomValid(m.reward.value.denom))
    ensures CreateStep(env, s, m).Some? ==>
      var now, k := CreateStep(env, s, m).value, Itoa(s.nextId);
      && k !in s.tasks && now.tasks.Keys == s.tasks.Keys + {k} && now.nextId == s.nextId + 1
      && (forall x | x in s.tasks :: now.tasks[x] == s.tasks[x])
      && now.workers == s.workers && now.params == s.params
      && var t := now.tasks[k];
         && t.taskId == k && t.requester == m.creator && t.cid == m.cid && t.startFrame == m.startFrame
         && t.endFrame == m.endFrame && t.threadAmount == m.threads && !t.completed && t.reward == m.reward
         && |t.threads| == m.threads
         && forall i :: 0 <= i < m.threads ==>
              var th := t.threads[i];
              && th.threadId == k + Itoa(i) && th.taskId == k && !th.completed && th.workers == []
              && th.solution.None? && th.validations == [] && th.averageRenderSeconds == 0
              && FrameRange(th.startFrame, th.endFrame) == RangeOf(m.startFrame, m.endFrame, m.threads, i)
  {
    hide Inv, RangeOf, Itoa, IdsOk;
    assert IdsOk(s.tasks.Keys, s.nextId) by { IdsAreOk(s); }
    IdsGrow(s.tasks.Keys, s.nextId);
  }

  lemma IdsAreOk(s: State)
    requires Inv(s)
    ensures IdsOk(s.tasks.Keys, s.nextId)
  {
  }

  // ---------- AddWorker ----------

  /** A worker is registered exactly when it is new and has the stake it offers, in the staking denomination
      and not below the minimum. */
  lemma AddWorkerExactly(env: Env, s: State, m: Msg)
    requires m.AddWorker?
    ensures var min := s.params.minWorkerStaking;
      AddWorkerStep(env, s, m).Some? <==>
        && m.creator !in s.workers && env.denomValid(min.denom)
        && m.stake.denom == min.denom && m.stake.amount >= min.amount && m.stake.amount >= 0
        && m.stake.amount <= s.bank.Balance(m.creator, min.denom)
    ensures AddWorkerStep(env, s, m).Some? ==>
      var now := AddWorkerStep(env, s, m).value;
      && now.workers.Keys == s.workers.Keys + {m.creator}
      && (forall a | a in s.workers :: now.workers[a] == s.workers[a])
      && now.tasks == s.tasks && now.nextId == s.nextId && now.params == s.params
      && var w := now.workers[m.creator];
         && w.address == m.creator && w.enabled && w.currentTaskId == [] && w.currentThreadIndex == 0
         && w.publicIp == m.publicIp && w.ipfsId == m.ipfsId && w.reputation.Some?
         && var r := w.reputation.value;
            && r.staked == m.stake && r.points == r.validations == r.solutions == 0 && r.renderDurations == []
            && r.winnings.denom == s.params.minWorkerStaking.denom && r.winnings.amount == 0
  {
  }

  // ---------- SubscribeWorkerToTask ----------

  lemma SubscribeExactly(s: State, m: Msg)
    requires Inv(s) && m.SubscribeWorkerToTask?
    ensures SubscribeStep(s, m).Some? <==> Enabled(s, m.address) && OpenTask(s, m.taskId)
    ensures SubscribeStep(s, m).Some? && (forall i: nat :: !Named(s, m.taskId, m.threadId, i)) ==>
      SubscribeStep(s, m).value == s
    ensures forall i: nat :: SubscribeStep(s, m).Some? && Named(s, m.taskId, m.threadId, i) ==>
      SubscribeDoes(s, SubscribeStep(s, m).value, m, i)
  {
    hide Inv;
    if SubscribeStep(s, m).Some? {
      var t, max := s.tasks[m.taskId], s.params.maxWorkersPerThread;
      var o := FirstOpen(t.threads, m.threadId, max);
      assert WorkerOk(m.address, s.workers[m.address], s.params.minWorkerStaking.denom) by { WorkerIsOk(s, m.address); }
      if o >= 0 {
        OrdinaryTask(s, m.taskId);
        assert Named(s, m.taskId, m.threadId, o);
      }
      forall i: nat | Named(s, m.taskId, m.threadId, i) ensures SubscribeDoes(s, SubscribeStep(s, m).value, m, i) {
        OrdinaryTask(s, m.taskId);
        NamedOnce(s, m.taskId, m.threadId, i);
        assert o >= 0 ==> o == i;
        assert Open(t.threads[i], m.threadId, max) <==> o >= 0;
      }
    }
  }

  lemma WorkerIsOk(s: State, a: Str)
    requires Inv(s) && a in s.workers
    ensures WorkerOk(a, s.workers[a], s.params.minWorkerStaking.denom)
  {
  }

  /** The worker is appended to thread i and assigned to it, if the thread is open, has room, and does not
      list the worker. */
  predicate SubscribeDoes(s: State, now: State, m: Msg, i: nat)
    requires m.SubscribeWorkerToTask? && m.address in s.workers && Named(s, m.taskId, m.threadId, i)
  {
    var th := s.tasks[m.taskId].threads[i];
    if !th.completed && |th.workers| < s.params.maxWorkersPerThread && m.address !in th.workers then
      && OnlyThread(s, now, m.taskId, i) && now.bank == s.bank
      && now.tasks[m.taskId].threads[i] == th.(workers := th.workers + [m.address])
      && now.workers == s.workers[m.address :=
           s.workers[m.address].(currentTaskId := m.taskId, currentThreadIndex := i)]
    else now == s
  }

  // ---------- ProposeSolution ----------

  /** The thread takes the proposal. */
  predicate Takes(env: Env, th: Thread, m: Msg)
    requires m.ProposeSolution?
  {
    && th.solution.None? && m.creator in th.workers && env.keyDecodes(m.publicKey)
    && |m.signatures| == th.endFrame - th.startFrame + 1
    && forall j :: 0 <= j < |m.signatures| ==> EQUALS in m.signatures[j]
  }

  lemma ProposeExactly(env: Env, s: State, m: Msg)
    requires Inv(s) && m.ProposeSolution?
    ensures ProposeStep(env, s, m).Some? <==>
      && Enabled(s, m.creator) && OpenTask(s, m.taskId)
      && forall i: nat :: Named(s, m.taskId, m.threadId, i) ==> Takes(env, s.tasks[m.taskId].threads[i], m)
    ensures ProposeStep(env, s, m).Some? && (forall i: nat :: !Named(s, m.taskId, m.threadId, i)) ==>
      ProposeStep(env, s, m).value == s
    ensures forall i: nat :: ProposeStep(env, s, m).Some? && Named(s, m.taskId, m.threadId, i) ==>
      ProposeDoes(s, ProposeStep(env, s, m).value, m, i)
  {
    hide Inv, SignedFrames;
    if Enabled(s, m.creator) && OpenTask(s, m.taskId) {
      var t := s.tasks[m.taskId];
      assert forall i: nat | i < |t.threads| ::
        t.threads[i].threadId == m.threadId <==> Named(s, m.taskId, m.threadId, i);
      if ProposalOk(env, t.threads, m) {
        var now := ProposeStep(env, s, m).value;
        if forall i: nat :: !Named(s, m.taskId, m.threadId, i) {
          assert ProposedThreads(env, t.threads, m) == t.threads;
          assert s.tasks[m.taskId := t] == s.tasks;
        }
        forall i: nat | Named(s, m.taskId, m.threadId, i) ensures ProposeDoes(s, now, m, i) {
          NamedOnce(s, m.taskId, m.threadId, i);
          SignedSay(m.signatures);
        }
      }
    }
  }

  /** Thread i gets the solution, with the message's creator, key and entries; nothing else changes. */
  ghost predicate ProposeDoes(s: State, now: State, m: Msg, i: nat)
    requires m.ProposeSolution? && Named(s, m.taskId, m.threadId, i)
  {
    && OnlyThread(s, now, m.taskId, i) && now.workers == s.workers && now.bank == s.bank
    && var th, th' := s.tasks[m.taskId].threads[i], now.tasks[m.taskId].threads[i];
       && th' == th.(solution := th'.solution) && th'.solution.Some?
       && var sol := th'.solution.value;
          && sol.proposedBy == m.creator && sol.publicKey == m.publicKey && sol.dir == [] && !sol.accepted
          && AsSigned(sol.frames, m.signatures)
  }

  // ---------- RevealSolution and SubmitValidation ----------

  /** The worker is busy on thread i of the open task. */
  predicate BusyOn(s: State, a: Str, k: Str, threadId: Str, i: nat) {
    && OpenTask(s, k) && a in s.workers && s.workers[a].currentTaskId == k && s.workers[a].currentThreadIndex == i
    && Named(s, k, threadId, i)
  }

  /** A reveal goes through exactly when its creator works on the named thread, proposed its solution, which
      is not accepted, and the entries complete the frames. */
  lemma RevealExactly(s: State, m: Msg)
    requires Inv(s) && m.RevealSolution?
    ensures RevealStep(s, m).Some? <==>
      exists i: nat :: BusyOn(s, m.creator, m.taskId, m.threadId, i)
        && RevealTakes(s.tasks[m.taskId].threads[i], m)
    ensures forall i: nat :: RevealStep(s, m).Some? && BusyOn(s, m.creator, m.taskId, m.threadId, i) ==>
      && RevealTakes(s.tasks[m.taskId].threads[i], m)
      && RevealDoes(s, RevealStep(s, m).value, m, i)
  {
    hide Inv, RevealOf;
    if WorksOn(s, m.creator, m.taskId) {
      var i: nat := s.workers[m.creator].currentThreadIndex;
      WorksOnThread(s, m.creator, m.taskId);
      assert CurrentThread(s, m.creator, m.taskId) == s.tasks[m.taskId].threads[i];
      if RevealStep(s, m).Some? { assert BusyOn(s, m.creator, m.taskId, m.threadId, i); }
    }
  }

  predicate RevealTakes(th: Thread, m: Msg)
    requires m.RevealSolution?
  {
    && th.solution.Some? && !th.solution.value.accepted && th.solution.value.proposedBy == m.creator
    && RevealOf(th.solution.value.frames, m.frames).Some?
  }

  /** Only CIDs and hashes of the thread's frames change. */
  predicate RevealDoes(s: State, now: State, m: Msg, i: nat)
    requires m.RevealSolution? && Named(s, m.taskId, m.threadId, i)
    requires RevealTakes(s.tasks[m.taskId].threads[i], m)
  {
    && OnlyThread(s, now, m.taskId, i) && now.workers == s.workers && now.bank == s.bank
    && var th := s.tasks[m.taskId].threads[i];
       now.tasks[m.taskId].threads[i] == th.(solution := Some(th.solution.value.(
         frames := RevealOf(th.solution.value.frames, m.frames).value)))
  }

  /** A hidden solution of a thread on which the creator is busy: the reveal goes through if and only if the
      names are distinct and the entries spell, in some order, every frame's name with a CID and a hash; and
      the frames then carry what their own entries spell. */
  lemma HiddenRevealExactly(frames: seq<Frame>, entries: seq<Str>)
    requires Hidden(frames)
    ensures RevealOf(frames, entries).Some? <==>
      DistinctNames(frames) && exists owner, cids, hashes :: SpelledOut(frames, entries, owner, cids, hashes)
    ensures forall owner, cids, hashes ::
      DistinctNames(frames) && SpelledOut(frames, entries, owner, cids, hashes) && RevealOf(frames, entries).Some? ==>
      var r := RevealOf(frames, entries).value;
      && |r| == |frames|
      && forall i :: 0 <= i < |frames| ==> r[i] == frames[i].(cid := cids[i], hash := hashes[i])
  {
    hide RevealOf, Owned;
    forall owner, cids, hashes | DistinctNames(frames) && SpelledOut(frames, entries, owner, cids, hashes)
      ensures RevealOf(frames, entries).Some?
      ensures var r := RevealOf(frames, entries).value;
        |r| == |frames| && forall i :: 0 <= i < |frames| ==> r[i] == frames[i].(cid := cids[i], hash := hashes[i])
    {
      OwnedLengths(frames, entries, owner, cids, hashes);
      RevealSpelled(frames, entries, owner, cids, hashes);
    }
    if RevealOf(frames, entries).Some? {
      RevealKeeps(frames, entries);
      RevealSpellsOut(frames, entries);
    }
  }

  /** The entries spell the frames, with non-empty values. */
  predicate SpelledOut(frames: seq<Frame>, entries: seq<Str>, owner: seq<nat>, cids: seq<Str>, hashes: seq<Str>) {
    Owned(frames, entries, owner, cids, hashes)
    && |cids| == |hashes| == |frames|
    && forall i :: 0 <= i < |frames| ==> cids[i] != [] && hashes[i] != []
  }

  lemma OwnedLengths(frames: seq<Frame>, entries: seq<Str>, owner: seq<nat>, cids: seq<Str>, hashes: seq<Str>)
    requires Owned(frames, entries, owner, cids, hashes)
    ensures |entries| == |owner| == |cids| == |hashes| == |frames|
  {
  }

  /** The entry that reveals frame i. */
  predicate Reveals(frames: seq<Frame>, entries: seq<Str>, i: nat, j: nat)
    requires i < |frames|
  {
    && j < |entries| && ParseEntry(entries[j]).Some?
    && var f := ParseEntry(entries[j]).value;
       f.filename == frames[i].filename && f.cid != [] && f.hash != []
  }

  lemma EveryRevealable(frames: seq<Frame>, entries: seq<Str>)
    requires Hidden(frames) && RevealOf(frames, entries).Some?
    ensures |entries| == |frames| && DistinctNames(frames)
    ensures forall i: nat | i < |frames| :: Revealable(frames, entries, i)
  {
    hide ParseEntry, FirstNamed;
    var m := FramesOf(entries);
    RevealKeeps(frames, entries);
    var r := RevealOf(frames, entries).value;
    assert forall i :: 0 <= i < |frames| ==> r[i] == Revealed(frames, m, i) && r[i].filename == frames[i].filename;
    forall i: nat | i < |frames| ensures Revealable(frames, entries, i) {
      assert r[i].cid != [] && r[i].hash != [];
      FramesOfFrom(entries, frames[i].filename);
      var j :| 0 <= j < |entries| && ParseEntry(entries[j]) == Some(m[frames[i].filename]);
      assert Reveals(frames, entries, i, j);
    }
  }

  lemma RevealSpellsOut(frames: seq<Frame>, entries: seq<Str>)
    requires Hidden(frames) && RevealOf(frames, entries).Some?
    ensures DistinctNames(frames) && exists owner, cids, hashes :: SpelledOut(frames, entries, owner, cids, hashes)
  {
    hide RevealOf, Hidden, Spells, ParseEntry, Revealable;
    var n := |frames|;
    EveryRevealable(frames, entries);
    var at := Collect(frames, entries, n);
    forall i, j | 0 <= i < j < n ensures at[i] != at[j] {
      assert Reveals(frames, entries, i, at[i]) && Reveals(frames, entries, j, at[j]);
    }
    var owner := Invert(at, n);
    var cids := seq(n, i requires 0 <= i < n => ParseEntry(entries[at[i]]).value.cid);
    var hashes := seq(n, i requires 0 <= i < n => ParseEntry(entries[at[i]]).value.hash);
    forall j | 0 <= j < n
      ensures Spells(entries[j], frames[owner[j]].filename, cids[owner[j]], hashes[owner[j]])
    {
      assert Reveals(frames, entries, owner[j], at[owner[j]]);
      ParseOnlySpelled(entries[j]);
    }
    assert SpelledOut(frames, entries, owner, cids, hashes);
  }

  predicate Revealable(frames: seq<Frame>, entries: seq<Str>, i: nat)
    requires i < |frames|
  {
    exists j: nat :: j < |entries| && Reveals(frames, entries, i, j)
  }

  lemma {:induction false} Collect(frames: seq<Frame>, entries: seq<Str>, n: nat) returns (at: seq<nat>)
    requires n <= |frames| && forall i: nat | i < n :: Revealable(frames, entries, i)
    ensures |at| == n && forall i :: 0 <= i < n ==> at[i] < |entries| && Reveals(frames, entries, i, at[i])
  {
    at := [];
    if n > 0 {
      at := Collect(frames, entries, n - 1);
      assert Revealable(frames, entries, n - 1);
      var j: nat :| j < |entries| && Reveals(frames, entries, n - 1, j);
      at := at + [j];
    }
  }

  /** The inverse of a permutation. */
  lemma Invert(at: seq<nat>, n: nat) returns (owner: seq<nat>)
    requires |at| == n && Distinct(at) && forall i :: 0 <= i < n ==> at[i] < n
    ensures |owner| == n && Distinct(owner)
    ensures forall j :: 0 <= j < n ==> owner[j] < n && at[owner[j]] == j
  {
    forall j: nat | j < n ensures j in at { DistinctCovers(at, j); }
    owner := InvertUpto(at, n, n);
  }

  lemma {:induction false} InvertUpto(at: seq<nat>, n: nat, k: nat) returns (owner: seq<nat>)
    requires |at| == n && k <= n && forall j: nat | j < k :: j in at
    ensures |owner| == k && forall j :: 0 <= j < k ==> owner[j] < n && at[owner[j]] == j
  {
    owner := [];
    if k > 0 {
      owner := InvertUpto(at, n, k - 1);
      assert k - 1 in at;
      var i: nat :| i < n && at[i] == k - 1;
      owner := owner + [i];
    }
  }

  /** A validation goes through exactly when its creator, enabled, works on the named thread, which has a
      solution, and every entry has a separator. */
  lemma ValidateExactly(s: State, m: Msg)
    requires Inv(s) && m.SubmitValidation?
    ensures ValidateStep(s, m).Some? <==>
      && (exists i: nat :: BusyOn(s, m.creator, m.taskId, m.threadId, i)
            && s.tasks[m.taskId].threads[i].solution.Some?)
      && Enabled(s, m.creator)
      && forall j :: 0 <= j < |m.signatures| ==> EQUALS in m.signatures[j]
    ensures forall i: nat :: ValidateStep(s, m).Some? && BusyOn(s, m.creator, m.taskId, m.threadId, i) ==>
      s.tasks[m.taskId].threads[i].solution.Some? && ValidateDoes(s, ValidateStep(s, m).value, m, i)
  {
    hide Inv, SignedFrames;
    if WorksOn(s, m.creator, m.taskId) {
      var i: nat := s.workers[m.creator].currentThreadIndex;
      WorksOnThread(s, m.creator, m.taskId);
      WorkerIsOk(s, m.creator);
      assert CurrentThread(s, m.creator, m.taskId) == s.tasks[m.taskId].threads[i];
      if ValidateStep(s, m).Some? {
        assert BusyOn(s, m.creator, m.taskId, m.threadId, i);
        SignedSay(m.signatures);
        DirectionIsParity(s.tasks[m.taskId].threads[i].workers, m.creator);
      }
    }
  }

  lemma DirectionIsParity(workers: seq<Str>, a: Str)
    requires a in workers && Distinct(workers)
    ensures forall p :: 0 <= p < |workers| && workers[p] == a ==> Reverse(workers, a) == (p % 2 != 0)
  {
    forall p | 0 <= p < |workers| && workers[p] == a ensures Reverse(workers, a) == (p % 2 != 0) {
      ReverseAt(workers, p);
    }
  }

  /** One validation is appended, with the message's creator, key and entries and the direction of the
      creator's place; everybody but the proposer is released. */
  ghost predicate ValidateDoes(s: State, now: State, m: Msg, i: nat)
    requires m.SubmitValidation? && m.creator in s.workers && Named(s, m.taskId, m.threadId, i)
    requires s.tasks[m.taskId].threads[i].solution.Some?
  {
    && OnlyThread(s, now, m.taskId, i) && now.bank == s.bank
    && var th, th' := s.tasks[m.taskId].threads[i], now.tasks[m.taskId].threads[i];
    && th' == th.(validations := th'.validations) && |th'.validations| == |th.validations| + 1
    && th'.validations[..|th.validations|] == th.validations
    && var v := th'.validations[|th.validations|];
       && v.validator == m.creator && v.publicKey == m.publicKey && AsSigned(v.frames, m.signatures)
       && (forall p :: 0 <= p < |th.workers| && th.workers[p] == m.creator ==> v.isReverse == (p % 2 != 0))
       && now.workers == (
            if m.creator == th.solution.value.proposedBy then s.workers
            else s.workers[m.creator := s.workers[m.creator].(currentTaskId := [], currentThreadIndex := 0)])
  }

  // ---------- SubmitSolution ----------

  /** A worker once the thread is done: free, if it was busy on it. */
  function Freed1(w: Worker, th: Thread, a: Str, k: Str, i: nat): Worker {
    if a in th.workers && w.currentTaskId == k && w.currentThreadIndex == i then
      w.(currentTaskId := [], currentThreadIndex := 0)
    else w
  }

  /** The thread is completed with the message's directory and seconds; workers busy on it are released; and
      the winner, released in any case, has one point, one solution, the payment and one duration more. */
  predicate SubmitDoes(s: State, now: State, m: Msg, i: nat)
    requires m.SubmitSolution? && Named(s, m.taskId, m.threadId, i) && s.tasks[m.taskId].threads[i].solution.Some?
    requires s.tasks[m.taskId].reward.Some? && m.creator in s.workers && s.workers[m.creator].reputation.Some?
  {
    var t, th := s.tasks[m.taskId], s.tasks[m.taskId].threads[i];
    var r := s.workers[m.creator].reputation.value;
    && OnlyThread(s, now, m.taskId, i) && now.workers.Keys == s.workers.Keys
    && now.tasks[m.taskId].threads[i] == th.(
         solution := Some(th.solution.value.(dir := m.dir)),
         averageRenderSeconds := m.averageRenderSeconds, completed := true)
    && (forall a | a in s.workers && a != m.creator ::
          now.workers[a] == Freed1(s.workers[a], th, a, m.taskId, i))
    && now.workers[m.creator] == s.workers[m.creator].(
         currentTaskId := [], currentThreadIndex := 0,
         reputation := Some(r.(
           points := r.points + 1, solutions := r.solutions + 1,
           winnings := Coin(r.winnings.denom, r.winnings.amount + t.reward.value.amount / 2 / |t.threads|),
           renderDurations := r.renderDurations + [m.averageRenderSeconds])))
  }

  lemma SubmitExactly(env: Env, s: State, m: Msg, i: nat)
    requires Inv(s) && m.SubmitSolution? && SubmitStep(env, s, m).Some? && Named(s, m.taskId, m.threadId, i)
    ensures Proposes(s.tasks[m.taskId].threads[i], m.creator) && s.tasks[m.taskId].reward.Some?
    ensures m.creator in s.workers && s.workers[m.creator].reputation.Some?
    ensures SubmitDoes(s, SubmitStep(env, s, m).value, m, i)
  {
    hide Inv, ReleaseAll, ThreadId, FirstThread, Freed, SubmitStep, Declared, Timed, Submitted, WithThread, Freed1;
    var k, t, th := m.taskId, s.tasks[m.taskId], s.tasks[m.taskId].threads[i];
    NamedOnce(s, k, m.threadId, i);
    OrdinaryTask(s, k);
    SubmitShape(env, s, m);
    SameIds(t, i, Submitted(th, m), m);
    ReleaseAllFrees(s, k, i, WithThread(t, i, Submitted(th, m)), th.workers);
    var ws := ReleaseAll(s.workers, WithThread(t, i, Submitted(th, m)), m.threadId, th.workers).value;
    assert m.creator in th.workers && m.creator in s.workers;
    WorkerIsOk(s, m.creator);
    SubmitThread(s, SubmitStep(env, s, m).value, m, i);
    SubmitStaffed(s, ws, m, i, WinnerReward(t));
  }

  lemma SameIds(t: Task, i: nat, th: Thread, m: Msg)
    requires i < |t.threads| && m.SubmitSolution? && t.threads[i].solution.Some? && th == Submitted(t.threads[i], m)
    ensures var t' := WithThread(t, i, th);
      && t'.taskId == t.taskId && |t'.threads| == |t.threads|
      && forall j :: 0 <= j < |t.threads| ==> t'.threads[j].threadId == t.threads[j].threadId
  {
  }

  /** The state after a submission, as the handler composes it. */
  lemma SubmitShape(env: Env, s: State, m: Msg)
    requires m.SubmitSolution? && SubmitStep(env, s, m).Some?
    requires m.taskId in s.tasks && FirstThread(s.tasks[m.taskId].threads, m.threadId) >= 0
    ensures var t, now := s.tasks[m.taskId], SubmitStep(env, s, m).value;
      var i := FirstThread(t.threads, m.threadId);
      var th := t.threads[i];
      && Proposes(th, m.creator) && t.reward.Some?
      && var t' := WithThread(t, i, Submitted(th, m));
         var ws := ReleaseAll(s.workers, t', m.threadId, th.workers);
         && ws.Some? && Declared(LookUp(ws.value, m.creator), WinnerReward(t)).Some?
         && now == s.(bank := now.bank, tasks := s.tasks[m.taskId := t'],
              workers := ws.value[m.creator :=
                Timed(Declared(LookUp(ws.value, m.creator), WinnerReward(t)).value, m.averageRenderSeconds)])
  {
    hide ReleaseAll, FirstThread;
  }

  lemma SubmitThread(s: State, now: State, m: Msg, i: nat)
    requires m.SubmitSolution? && Named(s, m.taskId, m.threadId, i) && s.tasks[m.taskId].threads[i].solution.Some?
    requires now.tasks ==
      s.tasks[m.taskId := WithThread(s.tasks[m.taskId], i, Submitted(s.tasks[m.taskId].threads[i], m))]
    requires now.params == s.params && now.nextId == s.nextId
    ensures OnlyThread(s, now, m.taskId, i)
    ensures var th := s.tasks[m.taskId].threads[i];
      now.tasks[m.taskId].threads[i] == th.(
        solution := Some(th.solution.value.(dir := m.dir)),
        averageRenderSeconds := m.averageRenderSeconds, completed := true)
  {
  }

  lemma SubmitStaffed(s: State, ws: map<Str, Worker>, m: Msg, i: nat, p: Coin)
    requires m.SubmitSolution? && Named(s, m.taskId, m.threadId, i)
    requires Freed(s.workers, ws, m.taskId, i, s.tasks[m.taskId].threads[i].workers)
    requires m.creator in s.workers && s.workers[m.creator].reputation.Some?
    requires Declared(LookUp(ws, m.creator), p).Some?
    ensures var now := ws[m.creator := Timed(Declared(LookUp(ws, m.creator), p).value, m.averageRenderSeconds)];
      var r := s.workers[m.creator].reputation.value;
      && now.Keys == s.workers.Keys
      && (forall a | a in s.workers && a != m.creator ::
            now[a] == Freed1(s.workers[a], s.tasks[m.taskId].threads[i], a, m.taskId, i))
      && now[m.creator] == s.workers[m.creator].(
           currentTaskId := [], currentThreadIndex := 0,
           reputation := Some(r.(
             points := r.points + 1, solutions := r.solutions + 1,
             winnings := Coin(r.winnings.denom, r.winnings.amount + p.amount),
             renderDurations := r.renderDurations + [m.averageRenderSeconds])))
  {
  }
}
