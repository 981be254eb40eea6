/** VideoRenderingTask.go: splitting a frame range among threads, thread identifiers and rewards. */
module Splitting {
  import opened Basics
  import opened Protocol

  datatype FrameRange = FrameRange(startFrame: int, endFrame: int)

  function Total(start: int, end: int): int { end - start + 1 }

  /** How many extra frames the first threads share; none when the total is negative. */
  function Extra(start: int, end: int, threads: int): int
    requires threads > 0
  {
    var r := GoMod(Total(start, end), threads);
    if r > 0 then r else 0
  }

  /** Where range i starts: i equal shares after the start, plus the extra frames handed out so far. */
  function StartOf(start: int, end: int, threads: int, i: nat): int
    requires threads > 0
  {
    start + i * GoDiv(Total(start, end), threads) + Min(i, Extra(start, end, threads))
  }

  function RangeOf(start: int, end: int, threads: int, i: nat): FrameRange
    requires threads > 0
  {
    FrameRange(StartOf(start, end, threads, i), StartOf(start, end, threads, i + 1) - 1)
  }

  /** splitFrames. A thread count that is zero or negative panics in the source. */
  method SplitFrames(startFrame: int, endFrame: int, threads: int) returns (result: seq<FrameRange>)
    requires threads > 0
    ensures |result| == threads
    ensures forall i :: 0 <= i < threads ==> result[i] == RangeOf(startFrame, endFrame, threads, i)
  {
    var totalFrames := endFrame - startFrame + 1;
    var framesPerThread := GoDiv(totalFrames, threads);
    var remainder := GoMod(totalFrames, threads);
    ghost var r := Extra(startFrame, endFrame, threads);
    result := [];
    var currentStart := startFrame;
    for i := 0 to threads
      invariant |result| == i
      invariant forall j :: 0 <= j < i ==> result[j] == RangeOf(startFrame, endFrame, threads, j)
      invariant currentStart == StartOf(startFrame, endFrame, threads, i)
      invariant (if remainder > 0 then remainder else 0) == r - Min(i, r)
    {
      var extra := 0;
      if remainder > 0 {
        extra := 1;
        remainder := remainder - 1;
      }
      var end := currentStart + framesPerThread + extra - 1;
      assert (i + 1) * framesPerThread == i * framesPerThread + framesPerThread;
      result := result + [FrameRange(currentStart, end)];
      currentStart := end + 1;
    }
  }

  lemma DivModBounds(a: int, b: int)
    requires b > 0
    ensures a == b * GoDiv(a, b) + GoMod(a, b)
    ensures a >= 0 ==> 0 <= GoMod(a, b) < b && GoDiv(a, b) >= 0
    ensures a < 0 ==> -b < GoMod(a, b) <= 0
  {
    NaturalDivision(if a < 0 then -a else a, b);
  }

  lemma NaturalDivision(n: nat, b: int)
    requires b > 0
    ensures n == b * (n / b) + n % b && n / b >= 0
  {
    assert n % b < b;
  }

  /** The ranges start at the first frame, leave no gap and no overlap, and reach exactly the last
      frame - unless the total is negative and not a multiple of the thread count. */
  lemma RangesTile(start: int, end: int, threads: int)
    requires threads > 0
    ensures RangeOf(start, end, threads, 0).startFrame == start
    ensures forall i: nat :: i + 1 < threads ==>
      RangeOf(start, end, threads, i + 1).startFrame == RangeOf(start, end, threads, i).endFrame + 1
    ensures RangeOf(start, end, threads, threads - 1).endFrame == end
      <==> Total(start, end) >= 0 || GoMod(Total(start, end), threads) == 0
  {
    DivModBounds(Total(start, end), threads);
    var q := GoDiv(Total(start, end), threads);
    assert StartOf(start, end, threads, threads) == start + threads * q + Min(threads, Extra(start, end, threads));
  }

  /** A task from frame 5 to frame 3 in two threads: the ranges end at frame 4. */
  lemma RangesMissTheEnd()
    ensures RangeOf(5, 3, 2, 0) == FrameRange(5, 4)
    ensures RangeOf(5, 3, 2, 1) == FrameRange(5, 4)
  {
    hide GoDiv, GoMod;
    SmallDivision();
    assert Total(5, 3) == -1;
  }

  lemma SmallDivision()
    ensures GoDiv(-1, 2) == 0 && GoMod(-1, 2) == -1
  {
    assert 1 / 2 == 0;
  }

  /** Sizes: each range holds the quotient, one more for the first ranges; so they never grow. */
  lemma RangeSizes(start: int, end: int, threads: int, i: nat)
    requires threads > 0 && i < threads
    ensures var g := RangeOf(start, end, threads, i);
      g.endFrame - g.startFrame + 1
        == GoDiv(Total(start, end), threads) + (if i < GoMod(Total(start, end), threads) then 1 else 0)
  {
    DivModBounds(Total(start, end), threads);
    var q := GoDiv(Total(start, end), threads);
    assert (i + 1) * q == i * q + q;
  }

  lemma {:induction false} StartsAscend(start: int, end: int, threads: int, i: nat, j: nat)
    requires threads > 0 && Total(start, end) >= 0 && i <= j
    ensures StartOf(start, end, threads, i) <= StartOf(start, end, threads, j)
    decreases j
  {
    if i < j {
      DivModBounds(Total(start, end), threads);
      var q := GoDiv(Total(start, end), threads);
      assert j * q == (j - 1) * q + q;
      StartsAscend(start, end, threads, i, j - 1);
    }
  }

  /** The thread whose range holds frame f. */
  lemma {:induction false} FindRange(start: int, end: int, threads: int, n: nat, f: int) returns (i: nat)
    requires threads > 0 && Total(start, end) >= 0
    requires start <= f < StartOf(start, end, threads, n)
    ensures i < n && RangeOf(start, end, threads, i).startFrame <= f <= RangeOf(start, end, threads, i).endFrame
    decreases n
  {
    assert n > 0;
    if StartOf(start, end, threads, n - 1) <= f { return n - 1; }
    i := FindRange(start, end, threads, n - 1, f);
  }

  /** Partition: a frame lies in the task's range exactly when it lies in the range of some thread,
      and no frame lies in the ranges of two threads. */
  lemma RangesPartition(start: int, end: int, threads: int, f: int)
    requires threads > 0 && Total(start, end) >= 0
    ensures start <= f <= end <==>
      exists i: nat :: i < threads && InRange(start, end, threads, i, f)
    ensures forall i: nat, j: nat ::
      i < threads && j < threads && InRange(start, end, threads, i, f) && InRange(start, end, threads, j, f) ==> i == j
  {
    RangesTile(start, end, threads);
    if start <= f <= end {
      var i := FindRange(start, end, threads, threads, f);
      assert InRange(start, end, threads, i, f);
    }
    forall i: nat | i < threads && InRange(start, end, threads, i, f) ensures start <= f <= end {
      StartsAscend(start, end, threads, 0, i);
      StartsAscend(start, end, threads, i + 1, threads);
    }
    forall i: nat, j: nat |
      i < j && InRange(start, end, threads, i, f) && InRange(start, end, threads, j, f)
      ensures false
    {
      StartsAscend(start, end, threads, i + 1, j);
    }
  }

  predicate InRange(start: int, end: int, threads: int, i: nat, f: int)
    requires threads > 0
  {
    RangeOf(start, end, threads, i).startFrame <= f <= RangeOf(start, end, threads, i).endFrame
  }

  // ---------- threads ----------

  function ThreadId(taskId: Str, i: nat): Str { taskId + Itoa(i) }

  /** Thread identifiers are unique within a task. */
  lemma ThreadIdInjective(taskId: Str, i: nat, j: nat)
    requires ThreadId(taskId, i) == ThreadId(taskId, j)
    ensures i == j
  {
    assert ThreadId(taskId, i)[|taskId|..] == Itoa(i);
    assert ThreadId(taskId, j)[|taskId|..] == Itoa(j);
    ItoaInjective(i, j);
  }

  function NewThread(taskId: Str, r: FrameRange, i: nat): Thread {
    Thread(ThreadId(taskId, i), taskId, r.startFrame, r.endFrame, false, [], None, [], 0)
  }

  /** The threads a new task gets. */
  function FreshThreads(taskId: Str, start: int, end: int, threads: int): (s: seq<Thread>)
    requires threads > 0
  {
    seq(threads, i requires 0 <= i < threads => NewThread(taskId, RangeOf(start, end, threads, i), i))
  }

  /** GenerateThreads. */
  method GenerateThreads(t: Task) returns (res: seq<Thread>)
    requires t.threadAmount > 0
    ensures res == FreshThreads(t.taskId, t.startFrame, t.endFrame, t.threadAmount)
  {
    var frameRanges := SplitFrames(t.startFrame, t.endFrame, t.threadAmount);
    res := [];
    for i := 0 to |frameRanges|
      invariant |res| == i
      invariant forall j :: 0 <= j < i ==> res[j] == NewThread(t.taskId, frameRanges[j], j)
    {
      res := res + [NewThread(t.taskId, frameRanges[i], i)];
    }
  }

  // ---------- rewards ----------

  /** GetWinnerReward and GetValidatorsReward: half the reward, split over the threads. */
  function ThreadReward(reward: int, threads: nat): int
    requires threads > 0
  {
    GoDiv(GoDiv(reward, 2), threads)
  }

  /** Paying every thread's winner and every thread's validators never exceeds the reward, and
      leaves at most 2n - 1 units over. */
  lemma RewardsFit(reward: nat, n: nat)
    requires n > 0
    ensures 0 <= 2 * n * ThreadReward(reward, n) <= reward
    ensures reward - 2 * n * ThreadReward(reward, n) <= 2 * n - 1
  {
    var h, w := reward / 2, ThreadReward(reward, n);
    assert h == n * w + h % n;
    assert 2 * n * w == 2 * (n * w);
  }
}
