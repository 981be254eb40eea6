/** The stored counters over a run. A thread is disturbed when BeginBlock stores the counters of its solution
    without accepting it, because a later thread of the task was accepted; it is then counted again from
    there. Undisturbed threads have zero counters until acceptance, and counters backed by verifying
    validations afterwards; and the last thread of a task is never disturbed. */
module Counts {
  import opened Basics
  import opened Protocol
  import opened Splitting
  import opened Verification
  import opened Verdicts
  import opened Acceptance
  import opened Handlers
  import opened Blocks
  import opened Invariant
  import opened BlockInvariant
  import opened Runs
  import opened Lifecycle

  // ---------- counters ----------

  predicate Accepting(th: Thread) { th.solution.Some? && th.solution.value.accepted }

  predicate Zero(th: Thread) {
    th.solution.Some? ==>
      !th.solution.value.accepted
      && forall i :: 0 <= i < |th.solution.value.frames| ==>
           th.solution.value.frames[i].validCount == 0 && th.solution.value.frames[i].invalidCount == 0
  }

  /** Some counter is not zero. */
  predicate Touched(th: Thread) {
    && th.solution.Some?
    && exists i :: 0 <= i < |th.solution.value.frames|
         && (th.solution.value.frames[i].validCount > 0 || th.solution.value.frames[i].invalidCount > 0)
  }

  /** Every counter is backed by that many verifying, respectively failing, validations. */
  predicate Backed(env: Env, frames: seq<Frame>, vs: seq<Validation>) {
    forall i :: 0 <= i < |frames| ==>
      && 0 <= frames[i].validCount <= |Endorsers(env, frames[i], vs)|
      && 0 <= frames[i].invalidCount <= |Rejecters(env, frames[i], vs)|
  }

  /** The solution can be judged: the thread is open, the solution is revealed and not accepted, and two
      workers have validated it, or all. */
  predicate Reviewable(th: Thread) {
    && th.solution.Some? && !th.completed && !th.solution.value.accepted
    && |th.solution.value.frames| > 0 && th.solution.value.frames[0].hash != []
    && (|th.validations| >= 2 || |th.validations| == |th.workers|)
  }

  /** The thread is judged here for the first time, on enough frames with the required number of verifying
      validations each: two, unless the thread has a single worker. */
  predicate Deserves(env: Env, th: Thread) {
    && Reviewable(th) && Zero(th)
    && |Vouched(env, th.solution.value.frames, th.validations, MinValidValidations(th.workers))|
         >= RequiredFrames(|th.solution.value.frames|)
  }

  /** Thread now has grown out of thread th, with the frames as they were counted there. */
  predicate CountedFrom(env: Env, th: Thread, now: Thread) {
    && th.solution.Some? && now.solution.Some?
    && now.solution.value.frames == Evaluated(env, th).solution.value.frames
    && th.workers <= now.workers && th.validations <= now.validations
  }

  // ---------- when a thread is counted again ----------

  /** Some later thread of the task is accepted. */
  predicate LaterTaken(env: Env, threads: seq<Thread>, j: nat) {
    exists i :: j < i < |threads| && Reviewable(threads[i]) && Accepts(Evaluated(env, threads[i]))
  }

  /** The counters of thread j change without its acceptance. */
  predicate Recounted(env: Env, threads: seq<Thread>, j: nat)
    requires j < |threads|
  {
    && Reviewable(threads[j]) && Evaluated(env, threads[j]) != threads[j]
    && !Accepts(Evaluated(env, threads[j]))
    && LaterTaken(env, threads, j)
  }

  /** What one scan of a task stores changes a thread it leaves unaccepted if and only if the thread is
      reviewable, counting changes it, it is not accepted, and a later thread is. Only its counters change then. */
  lemma RecountExact(env: Env, threads: seq<Thread>, j: nat)
    requires j < |threads| && !Accepting(Scan(env, threads, |threads|).1[j])
    ensures var now := Scan(env, threads, |threads|).1[j];
      && (now != threads[j] <==> Recounted(env, threads, j))
      && (now != threads[j] ==>
           && now == Evaluated(env, threads[j]) && threads[j].solution.Some?
           && SameButCounts(threads[j].solution.value.frames, now.solution.value.frames))
  {
    ScanStored(env, threads, |threads|, j);
    if Due(threads[j]) { EvaluatedCounts(env, threads[j]); }
  }

  // ---------- growth of the validations ----------

  lemma BackedGrows(env: Env, frames: seq<Frame>, vs: seq<Validation>, more: seq<Validation>)
    requires vs <= more && Backed(env, frames, vs)
    ensures Backed(env, frames, more)
  {
    hide Endorses, Rejects;
    forall i | 0 <= i < |frames|
      ensures |Endorsers(env, frames[i], vs)| <= |Endorsers(env, frames[i], more)|
      ensures |Rejecters(env, frames[i], vs)| <= |Rejecters(env, frames[i], more)|
    {
      SubsetCard(Endorsers(env, frames[i], vs), Endorsers(env, frames[i], more));
      SubsetCard(Rejecters(env, frames[i], vs), Rejecters(env, frames[i], more));
    }
  }

  // ---------- acceptance ----------

  /** Counting from zero backs every counter. */
  lemma EvaluatedBacked(env: Env, th: Thread)
    requires th.solution.Some? && Zero(th)
    ensures Backed(env, Evaluated(env, th).solution.value.frames, th.validations)
  {
    hide Endorsers, Rejecters, Tally, Count;
    var frames, vs := th.solution.value.frames, th.validations;
    var after := Evaluated(env, th).solution.value.frames;
    forall i | 0 <= i < |frames|
      ensures 0 <= after[i].validCount <= |Endorsers(env, after[i], vs)|
      ensures 0 <= after[i].invalidCount <= |Rejecters(env, after[i], vs)|
    {
      TallyAllEach(env, frames, vs, |frames|, i);
      TallyBound(env, frames[i], vs);
      CountsVerdicts(env, frames[i], vs);
      SameVerdicts(env, frames[i], after[i], vs);
    }
  }

  /** What is accepted after counting from zero has enough verified frames. */
  lemma TakenDeserves(env: Env, th: Thread)
    requires Takes(env, th) && Zero(th)
    ensures Deserves(env, th)
  {
    var frames, after := th.solution.value.frames, Evaluated(env, th).solution.value.frames;
    var min := MinValidValidations(th.workers);
    EvaluatedBacked(env, th);
    EvaluatedCounts(env, th);
    forall i: nat | i in Passing(after, min) ensures i in Vouched(env, frames, th.validations, min) {
      SameVerdicts(env, frames[i], after[i], th.validations);
    }
    SubsetCard(Passing(after, min), Vouched(env, frames, th.validations, min));
  }

  // ---------- steps other than a judging BeginBlock ----------

  predicate Stored(tasks: map<Str, Task>, k: Str, j: nat) { k in tasks && j < |tasks[k].threads| }

  /** Zero counters stay zero, and new threads have them. */
  ghost predicate Moves(tasks: map<Str, Task>, now: map<Str, Task>) {
    forall k, j: nat :: Stored(now, k, j) && (Stored(tasks, k, j) ==> Zero(tasks[k].threads[j])) ==>
      Zero(now[k].threads[j])
  }

  lemma OneMoves(tasks: map<Str, Task>, k: Str, i: nat, th: Thread)
    requires k in tasks && i < |tasks[k].threads| && (Zero(tasks[k].threads[i]) ==> Zero(th))
    ensures Moves(tasks, tasks[k := WithThread(tasks[k], i, th)])
  {
  }

  lemma CreateMoves(env: Env, s: State, m: Msg)
    requires m.CreateVideoRenderingTask? && CreateStep(env, s, m).Some?
    ensures Moves(s.tasks, CreateStep(env, s, m).value.tasks)
  {
    var t := NewTask(Itoa(s.nextId), m);
    forall j: nat | j < |t.threads| ensures Zero(t.threads[j]) {
      assert t.threads[j] == NewThread(t.taskId, RangeOf(m.startFrame, m.endFrame, m.threads, j), j);
    }
  }

  lemma SubscribeMoves(s: State, m: Msg)
    requires Inv(s) && m.SubscribeWorkerToTask? && SubscribeStep(s, m).Some?
    ensures Moves(s.tasks, SubscribeStep(s, m).value.tasks)
  {
    var t := s.tasks[m.taskId];
    var i := FirstOpen(t.threads, m.threadId, s.params.maxWorkersPerThread);
    if i >= 0 {
      OrdinaryTask(s, m.taskId);
      OneMoves(s.tasks, m.taskId, i, t.threads[i].(workers := t.threads[i].workers + [m.address]));
    }
  }

  lemma ProposeMoves(env: Env, s: State, m: Msg)
    requires m.ProposeSolution? && ProposeStep(env, s, m).Some?
    ensures Moves(s.tasks, ProposeStep(env, s, m).value.tasks)
  {
    var t := s.tasks[m.taskId];
    forall j: nat | j < |t.threads| && Zero(t.threads[j]) ensures Zero(Proposed(t.threads[j], m)) { }
  }

  lemma RevealMoves(s: State, m: Msg)
    requires m.RevealSolution? && RevealStep(s, m).Some?
    ensures Moves(s.tasks, RevealStep(s, m).value.tasks)
  {
    var th, i := CurrentThread(s, m.creator, m.taskId), s.workers[m.creator].currentThreadIndex;
    var frames := RevealOf(th.solution.value.frames, m.frames).value;
    assert forall j :: 0 <= j < |frames| ==>
      frames[j].validCount == th.solution.value.frames[j].validCount
      && frames[j].invalidCount == th.solution.value.frames[j].invalidCount;
    OneMoves(s.tasks, m.taskId, i, WithFrames(th, frames));
  }

  lemma ValidateMoves(s: State, m: Msg)
    requires m.SubmitValidation? && ValidateStep(s, m).Some?
    ensures Moves(s.tasks, ValidateStep(s, m).value.tasks)
  {
    var th, w := CurrentThread(s, m.creator, m.taskId), s.workers[m.creator];
    OneMoves(s.tasks, m.taskId, w.currentThreadIndex,
             th.(validations := th.validations + [NewValidation(th, w, m)]));
  }

  lemma SubmitMoves(env: Env, s: State, m: Msg)
    requires m.SubmitSolution? && SubmitStep(env, s, m).Some?
    ensures Moves(s.tasks, SubmitStep(env, s, m).value.tasks)
  {
    var t := s.tasks[m.taskId];
    var i := FirstThread(t.threads, m.threadId);
    if i >= 0 { OneMoves(s.tasks, m.taskId, i, Submitted(t.threads[i], m)); }
  }

  lemma HandleMoves(env: Env, s: State, m: Msg)
    requires Inv(s) && Handle(env, s, m).Some?
    ensures Moves(s.tasks, Handle(env, s, m).value.tasks)
  {
    hide Inv;
    match m
    case CreateVideoRenderingTask(_, _, _, _, _, _) => CreateMoves(env, s, m);
    case AddWorker(_, _, _, _) =>
    case SubscribeWorkerToTask(_, _, _) => SubscribeMoves(s, m);
    case ProposeSolution(_, _, _, _, _) => ProposeMoves(env, s, m);
    case RevealSolution(_, _, _, _) => RevealMoves(s, m);
    case SubmitValidation(_, _, _, _, _) => ValidateMoves(s, m);
    case SubmitSolution(_, _, _, _, _) => SubmitMoves(env, s, m);
  }

  lemma EndMoves(s: State)
    requires Inv(s)
    ensures Moves(s.tasks, Ended(s).tasks)
  {
    hide FinishedTasks;
    EndedTasks(s);
    forall k, j: nat | Stored(Ended(s).tasks, k, j)
      ensures Stored(s.tasks, k, j) && Ended(s).tasks[k].threads[j] == s.tasks[k].threads[j]
    {
    }
  }

  /** The event is a BeginBlock that gets to its end. */
  predicate Judges(env: Env, s: State, e: Event) { e.BeginBlock? && BeginReads(env, e.l, s) }

  lemma StepMoves(env: Env, s: State, e: Event)
    requires Inv(s) && !Judges(env, s, e)
    ensures Moves(s.tasks, Step(env, s, e).tasks)
  {
    hide Inv, Handle, Begun, Ended, BeginReads, EndReads;
    match e
    case Tx(m) => if Handle(env, s, m).Some? { HandleMoves(env, s, m); }
    case BeginBlock(l) => HooksNeedOnlyReads(env, l, s);
    case EndBlock(l) => HooksNeedOnlyReads(env, l, s); EndMoves(s);
    case Elsewhere(_) =>
  }

  // ---------- runs ----------

  /** The event stores the counters of the unaccepted thread. */
  predicate Disturbs(env: Env, s: State, e: Event, k: Str, j: nat) {
    Judges(env, s, e) && Stored(s.tasks, k, j) && !s.tasks[k].completed && Recounted(env, s.tasks[k].threads, j)
  }

  ghost predicate Disturbed(env: Env, g: State, es: seq<Event>, k: Str, j: nat) {
    exists n :: 0 <= n < |es| && Disturbs(env, Run(env, g, es[..n]), es[n], k, j)
  }

  lemma DisturbedFront(env: Env, g: State, es: seq<Event>, k: Str, j: nat)
    requires es != []
    ensures Disturbed(env, g, es, k, j) <==>
      || Disturbed(env, g, es[..|es| - 1], k, j)
      || Disturbs(env, Run(env, g, es[..|es| - 1]), es[|es| - 1], k, j)
  {
    hide Disturbs, Run;
    var front := es[..|es| - 1];
    forall n | 0 <= n < |front| ensures front[..n] == es[..n] && front[n] == es[n] { }
    if Disturbed(env, g, front, k, j) {
      var n :| 0 <= n < |front| && Disturbs(env, Run(env, g, front[..n]), front[n], k, j);
      assert Disturbs(env, Run(env, g, es[..n]), es[n], k, j);
    }
    if Disturbed(env, g, es, k, j) {
      var n :| 0 <= n < |es| && Disturbs(env, Run(env, g, es[..n]), es[n], k, j);
      if n < |front| { assert Disturbs(env, Run(env, g, front[..n]), front[n], k, j); }
    }
  }

  /** The accepted thread was judged at some BeginBlock of the run, deservedly, and keeps the frames of then. */
  ghost predicate Earned(env: Env, g: State, es: seq<Event>, k: Str, j: nat, now: Thread) {
    exists n :: 0 <= n < |es| && EarnedAt(env, Run(env, g, es[..n]), es[n], k, j, now)
  }

  predicate EarnedAt(env: Env, s: State, e: Event, k: Str, j: nat, now: Thread) {
    && Judges(env, s, e) && Stored(s.tasks, k, j)
    && Deserves(env, s.tasks[k].threads[j]) && CountedFrom(env, s.tasks[k].threads[j], now)
  }

  ghost predicate Traced(env: Env, g: State, es: seq<Event>, k: Str, j: nat, now: Thread) {
    if Accepting(now) then
      Backed(env, now.solution.value.frames, now.validations) && Earned(env, g, es, k, j, now)
    else Zero(now)
  }

  /** An accepted thread stays traced. */
  lemma TracedOn(env: Env, g: State, es: seq<Event>, k: Str, j: nat, th: Thread, now: Thread)
    requires es != [] && Accepting(th) && ThreadEvolves(th, now) && Traced(env, g, es[..|es| - 1], k, j, th)
    ensures Traced(env, g, es, k, j, now)
  {
    hide Deserves, Judges, Evaluated;
    var front := es[..|es| - 1];
    BackedGrows(env, th.solution.value.frames, th.validations, now.validations);
    var n :| 0 <= n < |front| && EarnedAt(env, Run(env, g, front[..n]), front[n], k, j, th);
    assert front[..n] == es[..n] && front[n] == es[n];
    assert EarnedAt(env, Run(env, g, es[..n]), es[n], k, j, now);
  }

  /** One judging BeginBlock on a thread with zero counters. */
  lemma JudgeTraced(env: Env, g: State, es: seq<Event>, k: Str, j: nat)
    requires es != []
    requires var s := Run(env, g, es[..|es| - 1]);
      && Inv(s) && Judges(env, s, es[|es| - 1]) && Stored(s.tasks, k, j) && Zero(s.tasks[k].threads[j])
      && !Disturbs(env, s, es[|es| - 1], k, j)
    ensures StoredThread(Run(env, g, es), k, j)
    ensures Traced(env, g, es, k, j, Run(env, g, es).tasks[k].threads[j])
  {
    hide Inv, Judges, Takes, Recounted, Zero, Deserves, CountedFrom, Backed, Scan, Accepted, Evaluated;
    var n := |es| - 1;
    var s := Run(env, g, es[..n]);
    var t, th := s.tasks[k], s.tasks[k].threads[j];
    JudgesRuns(env, s, es[n]);
    assert Run(env, g, es) == Begun(env, s);
    var now := BegunTask(env, t).threads[j];
    if !t.completed && Takes(env, th) {
      TakenStored(env, t.threads, j);
      TakenTraced(env, th, now);
      assert EarnedAt(env, Run(env, g, es[..n]), es[n], k, j, now);
    } else {
      if !t.completed { UndisturbedStays(env, t.threads, j); }
      ZeroTraced(env, g, es, k, j, now);
    }
  }

  lemma TakenStored(env: Env, threads: seq<Thread>, j: nat)
    requires j < |threads| && Takes(env, threads[j])
    ensures Scan(env, threads, |threads|).1[j] == Accepted(Evaluated(env, threads[j]))
  {
    ScanStored(env, threads, |threads|, j);
  }

  lemma UndisturbedStays(env: Env, threads: seq<Thread>, j: nat)
    requires j < |threads| && Zero(threads[j]) && !Takes(env, threads[j]) && !Recounted(env, threads, j)
    ensures Scan(env, threads, |threads|).1[j] == threads[j]
  {
    ScanStored(env, threads, |threads|, j);
  }

  lemma JudgesRuns(env: Env, s: State, e: Event)
    requires Inv(s) && Judges(env, s, e)
    ensures Step(env, s, e) == Begun(env, s)
  {
    hide Inv, Begun, BeginReads, EndReads;
    HooksNeedOnlyReads(env, e.l, s);
  }

  lemma TakenTraced(env: Env, th: Thread, now: Thread)
    requires Takes(env, th) && Zero(th) && now == Accepted(Evaluated(env, th))
    ensures Backed(env, now.solution.value.frames, now.validations)
    ensures Accepting(now) && Deserves(env, th) && CountedFrom(env, th, now)
  {
    EvaluatedBacked(env, th);
    TakenDeserves(env, th);
  }

  lemma {:induction false} RunTraced(env: Env, g: State, es: seq<Event>, k: Str, j: nat)
    requires Genesis(g) && !Disturbed(env, g, es, k, j) && StoredThread(Run(env, g, es), k, j)
    ensures Traced(env, g, es, k, j, Run(env, g, es).tasks[k].threads[j])
  {
    hide Inv, Traced, Evolves, Moves, Disturbs, Judges, Disturbed;
    if es != [] {
      var front, e := es[..|es| - 1], es[|es| - 1];
      var s := Run(env, g, front);
      ReachableInv(env, g, front);
      DisturbedFront(env, g, es, k, j);
      if Stored(s.tasks, k, j) { RunTraced(env, g, front, k, j); }
      if Stored(s.tasks, k, j) && Accepting(s.tasks[k].threads[j]) {
        ThreadStep(env, s, e, k, j);
        TracedOn(env, g, es, k, j, s.tasks[k].threads[j], Run(env, g, es).tasks[k].threads[j]);
      } else {
        if Stored(s.tasks, k, j) { UnacceptedZero(env, g, front, k, j, s.tasks[k].threads[j]); }
        if Judges(env, s, e) {
          OldThread(env, s, e, k, j);
          JudgeTraced(env, g, es, k, j);
        } else {
          StepMoves(env, s, e);
          MovedZero(s.tasks, Run(env, g, es).tasks, k, j);
          ZeroTraced(env, g, es, k, j, Run(env, g, es).tasks[k].threads[j]);
        }
      }
    }
  }

  lemma ThreadStep(env: Env, s: State, e: Event, k: Str, j: nat)
    requires Inv(s) && Stored(s.tasks, k, j)
    ensures Stored(Step(env, s, e).tasks, k, j)
    ensures ThreadEvolves(s.tasks[k].threads[j], Step(env, s, e).tasks[k].threads[j])
  {
    StepEvolves(env, s, e);
  }

  lemma OldThread(env: Env, s: State, e: Event, k: Str, j: nat)
    requires Inv(s) && Judges(env, s, e) && Stored(Step(env, s, e).tasks, k, j)
    ensures Stored(s.tasks, k, j)
  {
    JudgesRuns(env, s, e);
  }

  lemma MovedZero(tasks: map<Str, Task>, now: map<Str, Task>, k: Str, j: nat)
    requires Moves(tasks, now) && Stored(now, k, j) && (Stored(tasks, k, j) ==> Zero(tasks[k].threads[j]))
    ensures Zero(now[k].threads[j])
  {
  }

  lemma UnacceptedZero(env: Env, g: State, es: seq<Event>, k: Str, j: nat, th: Thread)
    requires Traced(env, g, es, k, j, th) && !Accepting(th)
    ensures Zero(th)
  {
  }

  lemma ZeroTraced(env: Env, g: State, es: seq<Event>, k: Str, j: nat, th: Thread)
    requires Zero(th)
    ensures Traced(env, g, es, k, j, th)
  {
  }

  // ---------- the results ----------

  /** In every reachable state, a thread that was never disturbed has zero counters until its solution is
      accepted. Afterwards each counter is at most the number of stored validations that verify, respectively
      fail, the frame; and there was a BeginBlock at which at least max(1, n/5) frames had two verifying
      validations - or one, if the thread had a single worker at that time - and that left the frames of now. */
  lemma CountsUnlessDisturbed(env: Env, g: State, es: seq<Event>, k: Str, j: nat)
    requires Genesis(g) && StoredThread(Run(env, g, es), k, j) && !Disturbed(env, g, es, k, j)
    requires Run(env, g, es).tasks[k].threads[j].solution.Some?
    ensures var th := Run(env, g, es).tasks[k].threads[j];
      var frames := th.solution.value.frames;
      && (!th.solution.value.accepted ==>
           forall i :: 0 <= i < |frames| ==> frames[i].validCount == frames[i].invalidCount == 0)
      && (th.solution.value.accepted ==>
           && (forall i :: 0 <= i < |frames| ==>
                && frames[i].validCount <= |Endorsers(env, frames[i], th.validations)|
                && frames[i].invalidCount <= |Rejecters(env, frames[i], th.validations)|)
           && Earned(env, g, es, k, j, th))
  {
    hide Earned;
    RunTraced(env, g, es, k, j);
  }

  lemma {:induction false} DisturbedTouched(env: Env, g: State, es: seq<Event>, k: Str, j: nat)
    requires Genesis(g) && Disturbed(env, g, es, k, j)
    ensures StoredThread(Run(env, g, es), k, j) && Touched(Run(env, g, es).tasks[k].threads[j])
  {
    hide Inv, Disturbs, Disturbed, Touched, ThreadEvolves;
    assert es != [] by { NotBefore(env, g, es, k, j); }
    var front, e := es[..|es| - 1], es[|es| - 1];
    var s := Run(env, g, front);
    ReachableInv(env, g, front);
    DisturbedFront(env, g, es, k, j);
    if Disturbed(env, g, front, k, j) {
      DisturbedTouched(env, g, front, k, j);
      ThreadStep(env, s, e, k, j);
      TouchedStays(s.tasks[k].threads[j], Run(env, g, es).tasks[k].threads[j]);
    } else {
      DisturbsStored(env, s, e, k, j);
      RunTraced(env, g, front, k, j);
      UnacceptedZero(env, g, front, k, j, s.tasks[k].threads[j]);
      DisturbsTouches(env, s, e, k, j);
    }
  }

  lemma NotBefore(env: Env, g: State, es: seq<Event>, k: Str, j: nat)
    requires Disturbed(env, g, es, k, j)
    ensures es != []
  {
  }

  lemma TouchedStays(th: Thread, now: Thread)
    requires Touched(th) && ThreadEvolves(th, now)
    ensures Touched(now)
  {
    var i :| 0 <= i < |th.solution.value.frames|
      && (th.solution.value.frames[i].validCount > 0 || th.solution.value.frames[i].invalidCount > 0);
    assert now.solution.value.frames[i].validCount >= th.solution.value.frames[i].validCount;
  }

  lemma DisturbsStored(env: Env, s: State, e: Event, k: Str, j: nat)
    requires Disturbs(env, s, e, k, j)
    ensures Stored(s.tasks, k, j) && !Accepting(s.tasks[k].threads[j])
  {
  }

  lemma DisturbsTouches(env: Env, s: State, e: Event, k: Str, j: nat)
    requires Inv(s) && Disturbs(env, s, e, k, j) && Zero(s.tasks[k].threads[j])
    ensures Stored(Step(env, s, e).tasks, k, j) && Touched(Step(env, s, e).tasks[k].threads[j])
  {
    hide Inv, Judges, Zero, Touched, Accepts, Evaluated, Due, Scan;
    var t := s.tasks[k];
    JudgesRuns(env, s, e);
    RecountTouches(env, t.threads, j);
  }

  lemma RecountTouches(env: Env, threads: seq<Thread>, j: nat)
    requires j < |threads| && Recounted(env, threads, j) && Zero(threads[j])
    ensures Touched(Scan(env, threads, |threads|).1[j])
  {
    hide Scan, Evaluated, Accepts;
    ScanStored(env, threads, |threads|, j);
    EvaluatedTouches(env, threads[j]);
  }

  lemma EvaluatedTouches(env: Env, th: Thread)
    requires th.solution.Some? && Zero(th) && Evaluated(env, th) != th
    ensures Touched(Evaluated(env, th))
  {
    EvaluatedCounts(env, th);
    FramesDiffer(env, th);
    var fs, gs := th.solution.value.frames, Evaluated(env, th).solution.value.frames;
    var i :| 0 <= i < |fs| && gs[i] != fs[i];
    assert gs[i].validCount > 0 || gs[i].invalidCount > 0;
  }

  lemma FramesDiffer(env: Env, th: Thread)
    requires th.solution.Some? && Evaluated(env, th) != th
    ensures Evaluated(env, th).solution.value.frames != th.solution.value.frames
  {
  }

  /** In every reachable state, the counters of an unaccepted solution are all zero if and only if the
      thread was never disturbed. */
  lemma ZeroExactly(env: Env, g: State, es: seq<Event>, k: Str, j: nat)
    requires Genesis(g) && StoredThread(Run(env, g, es), k, j)
    requires !Accepting(Run(env, g, es).tasks[k].threads[j])
    ensures Zero(Run(env, g, es).tasks[k].threads[j]) <==> !Disturbed(env, g, es, k, j)
  {
    hide Disturbed;
    if Disturbed(env, g, es, k, j) {
      DisturbedTouched(env, g, es, k, j);
    } else {
      RunTraced(env, g, es, k, j);
    }
  }

  /** The last thread of a task - the only one of a single-thread task - is never disturbed: its counters are
      always traced. */
  lemma LastThreadTraced(env: Env, g: State, es: seq<Event>, k: Str, j: nat)
    requires Genesis(g) && StoredThread(Run(env, g, es), k, j) && j == |Run(env, g, es).tasks[k].threads| - 1
    ensures !Disturbed(env, g, es, k, j)
    ensures Traced(env, g, es, k, j, Run(env, g, es).tasks[k].threads[j])
  {
    hide Traced;
    LastUndisturbed(env, g, es, k, j);
    RunTraced(env, g, es, k, j);
  }

  lemma LastUndisturbed(env: Env, g: State, es: seq<Event>, k: Str, j: nat)
    requires Genesis(g) && StoredThread(Run(env, g, es), k, j) && j == |Run(env, g, es).tasks[k].threads| - 1
    ensures !Disturbed(env, g, es, k, j)
  {
    forall n | 0 <= n < |es| ensures !Disturbs(env, Run(env, g, es[..n]), es[n], k, j) {
      RunEvolves(env, g, es, n);
    }
  }
}
