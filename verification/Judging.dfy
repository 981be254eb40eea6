/** Exactly when BeginBlock accepts a solution, and what it leaves alone. */
module Judging {
  import opened Basics
  import opened Protocol
  import opened Verification
  import opened Verdicts
  import opened Acceptance
  import opened Blocks
  import opened Invariant
  import opened BlockInvariant
  import opened Runs
  import opened Counts

  /** Enough frames are verified: at least max(1, n/5) of them by two validations each, or by one each if
      the thread has a single worker. */
  predicate EnoughVouched(env: Env, th: Thread)
    requires th.solution.Some?
  {
    var n := |th.solution.value.frames|;
    && n >= 1
    && |Vouched(env, th.solution.value.frames, th.validations, if |th.workers| == 1 then 1 else 2)|
         >= (if n >= 5 then n / 5 else 1)
  }

  predicate AllDecode(env: Env, th: Thread)
    requires th.solution.Some?
  {
    forall i :: 0 <= i < |th.solution.value.frames| ==> Decodes(env, th.solution.value.frames[i], th.validations)
  }

  /** The frames with the numbers of verifying and failing validations. */
  ghost predicate CountedExactly(env: Env, th: Thread, now: Thread)
    requires th.solution.Some?
  {
    now.solution.Some? && |now.solution.value.frames| == |th.solution.value.frames|
    && forall i :: 0 <= i < |th.solution.value.frames| ==>
         var f := th.solution.value.frames[i];
         now.solution.value.frames[i] == f.(
           validCount := |Endorsers(env, f, th.validations)|, invalidCount := |Rejecters(env, f, th.validations)|)
  }

  lemma LookedExactly(env: Env, th: Thread)
    requires th.solution.Some? && !th.solution.value.accepted && Zero(th) && AllDecode(env, th)
    ensures Takes(env, th) <==> Reviewable(th) && EnoughVouched(env, th)
    ensures var now := Looked(env, th);
      Takes(env, th) ==>
        && CountedExactly(env, th, now)
        && now == th.(solution := Some(th.solution.value.(frames := now.solution.value.frames, accepted := true)))
  {
    hide Decodes, Accepts, Evaluated, Endorsers, Rejecters;
    AcceptanceRule(env, th);
    EvaluatedShape(env, th);
    forall i | 0 <= i < |th.solution.value.frames|
      ensures var f := th.solution.value.frames[i];
        Evaluated(env, th).solution.value.frames[i] == f.(
          validCount := |Endorsers(env, f, th.validations)|, invalidCount := |Rejecters(env, f, th.validations)|)
    {
      CountingRefines(env, th, i);
    }
  }

  lemma EvaluatedShape(env: Env, th: Thread)
    requires th.solution.Some?
    ensures Evaluated(env, th).solution.Some?
    ensures |Evaluated(env, th).solution.value.frames| == |th.solution.value.frames|
    ensures Evaluated(env, th) == th.(solution := Some(th.solution.value.(
      frames := Evaluated(env, th).solution.value.frames)))
  {
  }

  /** A BeginBlock that gets to its end, in any reachable state, on a solution that is not accepted, whose
      validations decode and whose thread was never disturbed. It accepts the solution if and only if task
      and thread are open, the solution is revealed, two workers have validated it or all have, and enough
      frames are verified; it then stores the exact numbers and changes nothing else of the thread. */
  lemma AcceptsExactly(env: Env, g: State, es: seq<Event>, l: Local, k: Str, j: nat)
    requires Genesis(g) && StoredThread(Run(env, g, es), k, j) && !Disturbed(env, g, es, k, j)
    requires BeginReads(env, l, Run(env, g, es))
    requires var th := Run(env, g, es).tasks[k].threads[j];
      th.solution.Some? && !th.solution.value.accepted && AllDecode(env, th)
    ensures var s, after := Run(env, g, es), Run(env, g, es + [BeginBlock(l)]);
      StoredThread(after, k, j) && after.tasks[k].threads[j].solution.Some?
    ensures var s, after := Run(env, g, es), Run(env, g, es + [BeginBlock(l)]);
      var th, now := s.tasks[k].threads[j], after.tasks[k].threads[j];
      var sol := th.solution.value;
      && (now.solution.value.accepted <==>
           && !s.tasks[k].completed && !th.completed
           && |sol.frames| >= 1 && (forall i :: 0 <= i < |sol.frames| ==> sol.frames[i].hash != [])
           && (|th.validations| >= 2 || |th.validations| == |th.workers|)
           && EnoughVouched(env, th))
      && (now.solution.value.accepted ==>
           && CountedExactly(env, th, now)
           && now == th.(solution := Some(sol.(frames := now.solution.value.frames, accepted := true))))
  {
    hide Inv, Disturbed, AllDecode, EnoughVouched, Takes, Looked, Scan, CountedExactly, BeginReads, Zero, Genesis;
    var s, e := Run(env, g, es), BeginBlock(l);
    var t, th := s.tasks[k], s.tasks[k].threads[j];
    ReachableInv(env, g, es);
    RunTraced(env, g, es, k, j);
    UnacceptedZero(env, g, es, k, j, th);
    StoredThreadOk(env, g, es, k, j);
    assert (es + [e])[..|es|] == es;
    JudgesRuns(env, s, e);
    LookedExactly(env, th);
    if !t.completed {
      StoredAfter(env, t.threads, j);
    }
  }

  lemma StoredAfter(env: Env, threads: seq<Thread>, j: nat)
    requires j < |threads| && threads[j].solution.Some? && !threads[j].solution.value.accepted
    ensures var now := Scan(env, threads, |threads|).1[j];
      && now.solution.Some? && (now.solution.value.accepted <==> Takes(env, threads[j]))
      && (Takes(env, threads[j]) ==> now == Looked(env, threads[j]))
  {
    hide Due, Accepts, Evaluated;
    ScanStored(env, threads, |threads|, j);
    EvaluatedShape(env, threads[j]);
  }

  /** What BeginBlock writes besides: the minimum of validators follows the number of workers while that is
      between 2 and 6. All else stays. */
  lemma BeginLeaves(env: Env, s: State)
    ensures var now := Begun(env, s);
      && now.nextId == s.nextId && now.workers == s.workers && now.bank == s.bank && now.tasks.Keys == s.tasks.Keys
      && now.params == s.params.(minValidators := now.params.minValidators)
      && now.params.minValidators == (if 2 <= |s.workers| <= 6 then |s.workers| else s.params.minValidators)
      && forall k | k in s.tasks ::
           && now.tasks[k] == s.tasks[k].(threads := now.tasks[k].threads)
           && |now.tasks[k].threads| == |s.tasks[k].threads|
           && (s.tasks[k].completed ==> now.tasks[k] == s.tasks[k])
  {
  }

  /** EndBlock completes exactly the tasks whose threads are all completed, and changes nothing else but the
      record under the empty key. */
  lemma EndWrites(s: State)
    requires Inv(s)
    ensures var now := Ended(s);
      && now == s.(tasks := now.tasks) && now.tasks.Keys == s.tasks.Keys + {[]}
      && now.tasks[[]] == ZERO_TASK.(completed := true)
      && forall k | k in s.tasks && k != [] ::
           now.tasks[k] == s.tasks[k].(completed := forall j :: 0 <= j < |s.tasks[k].threads| ==>
             s.tasks[k].threads[j].completed)
  {
    hide FinishedTasks;
    EndedTasks(s);
    forall k | k in s.tasks && k != []
      ensures Ended(s).tasks[k] == s.tasks[k].(completed := forall j :: 0 <= j < |s.tasks[k].threads| ==>
        s.tasks[k].threads[j].completed)
    {
      assert TaskOk(k, s.tasks[k], s.params.maxWorkersPerThread, s.workers.Keys);
    }
  }
}
