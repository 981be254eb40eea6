/** VideoRenderingThread.go: counting verifications, the acceptance rule, the client's threshold
    and the validators' pay. */
module Verification {
  import opened Basics
  import opened Protocol

  // ---------- one validation against one frame ----------

  /** slices.IndexFunc on the filename: the first position, or -1. */
  function FirstNamed(frames: seq<Frame>, name: Str): (i: int)
    ensures -1 <= i < |frames|
    ensures i >= 0 ==> frames[i].filename == name
    ensures forall j :: 0 <= j < (if i < 0 then |frames| else i) ==> frames[j].filename != name
  {
    if frames == [] then -1
    else if frames[0].filename == name then 0
    else
      var i := FirstNamed(frames[1..], name);
      assert forall j :: 1 <= j < |frames| ==> frames[j] == frames[1..][j - 1];
      if i < 0 then -1 else i + 1
  }

  datatype Verdict = Absent | Undecodable | Good | Bad

  /** A verdict does not look at the counters. */
  lemma JudgeIgnoresCounts(env: Env, f: Frame, g: Frame, v: Validation)
    requires f.filename == g.filename && f.hash == g.hash
    ensures Judge(env, f, v) == Judge(env, g, v)
  {
  }

  /** What a validation says about a frame: it has no entry for the file, something fails to decode,
      or the signature over (hash, validator) verifies or not. Only the first entry counts. */
  function Judge(env: Env, f: Frame, v: Validation): Verdict {
    var idx := FirstNamed(v.frames, f.filename);
    if idx < 0 then Absent
    else if !env.keyDecodes(v.publicKey) then Undecodable
    else if !env.messageBuilds(f.hash, v.validator) then Undecodable
    else if !env.signatureDecodes(v.frames[idx].signature) then Undecodable
    else if env.verifies(v.publicKey, f.hash, v.validator, v.frames[idx].signature) then Good
    else Bad
  }

  /** How many validations give the verdict on the frame. */
  function Count(env: Env, f: Frame, vs: seq<Validation>, d: Verdict): (n: nat)
    ensures n <= |vs|
  {
    if vs == [] then 0
    else Count(env, f, vs[..|vs| - 1], d) + (if Judge(env, f, vs[|vs| - 1]) == d then 1 else 0)
  }

  // ---------- EvaluateVerifications ----------

  /** The frame after the validations have been counted in order, and whether all of them decoded.
      Counting stops at the first one that does not. */
  function Tally(env: Env, f: Frame, vs: seq<Validation>): (r: (Frame, bool))
    ensures r.0 == f.(validCount := r.0.validCount, invalidCount := r.0.invalidCount)
  {
    if vs == [] then (f, true)
    else
      var (g, ok) := Tally(env, f, vs[..|vs| - 1]);
      if !ok then (g, false)
      else match Judge(env, f, vs[|vs| - 1])
        case Absent => (g, true)
        case Undecodable => (g, false)
        case Good => (g.(validCount := g.validCount + 1), true)
        case Bad => (g.(invalidCount := g.invalidCount + 1), true)
  }

  /** The frames after the first n have been counted. */
  function TallyAll(env: Env, frames: seq<Frame>, vs: seq<Validation>, n: nat): (r: (seq<Frame>, bool))
    requires n <= |frames|
    ensures |r.0| == |frames|
  {
    if n == 0 then (frames, true)
    else
      var (fs, ok) := TallyAll(env, frames, vs, n - 1);
      if !ok then (fs, false)
      else
        var (g, good) := Tally(env, frames[n - 1], vs);
        (fs[n - 1 := g], good)
  }

  function WithFrames(t: Thread, frames: seq<Frame>): Thread
    requires t.solution.Some?
  {
    t.(solution := Some(t.solution.value.(frames := frames)))
  }

  function Evaluated(env: Env, t: Thread): Thread
    requires t.solution.Some?
  {
    WithFrames(t, TallyAll(env, t.solution.value.frames, t.validations, |t.solution.value.frames|).0)
  }

  // ---------- IsSolutionAccepted ----------

  function MinValidValidations(workers: seq<Str>): int { if |workers| == 1 then 1 else 2 }

  /** 20% of the frames, rounded down, but at least one. */
  function RequiredFrames(n: nat): nat { if n / 5 == 0 then 1 else n / 5 }

  /** The frames that reached the minimum. */
  function Passing(frames: seq<Frame>, min: int): set<nat> {
    set i: nat | i < |frames| && frames[i].validCount >= min
  }

  predicate Accepts(t: Thread)
    requires t.solution.Some?
  {
    && |t.solution.value.frames| > 0
    && |Passing(t.solution.value.frames, MinValidValidations(t.workers))| >= RequiredFrames(|t.solution.value.frames|)
  }

  /** The position of a worker among the thread's workers decides the render direction. */
  function Reverse(workers: seq<Str>, worker: Str): bool {
    if workers == [] then false
    else if worker in workers[..|workers| - 1] then Reverse(workers[..|workers| - 1], worker)
    else workers[|workers| - 1] == worker && (|workers| - 1) % 2 != 0
  }

  lemma ReverseStable(workers: seq<Str>, w: Str, a: Str)
    requires a in workers
    ensures Reverse(workers + [w], a) == Reverse(workers, a)
  {
    assert (workers + [w])[..|workers|] == workers;
  }

  lemma {:induction false} ReverseAt(workers: seq<Str>, i: nat)
    requires i < |workers| && workers[i] !in workers[..i]
    ensures Reverse(workers, workers[i]) == (i % 2 != 0)
    decreases |workers|
  {
    var front := workers[..|workers| - 1];
    if i < |front| {
      assert front[..i] == workers[..i] && front[i] == workers[i];
      ReverseAt(front, i);
    } else {
      assert front == workers[..i];
    }
  }

  // ---------- validator pay ----------

  const JCT: Str := [106, 99, 116] // "jct"

  function TotalFiles(vs: seq<Validation>): nat {
    if vs == [] then 0 else TotalFiles(vs[..|vs| - 1]) + |vs[|vs| - 1].frames|
  }

  /** calculateValidatorPayment. */
  function ValidatorPayment(files: int, total: nat, pot: int): int {
    if total == 0 then 0 else GoDiv(pot * files, total)
  }

  /** The number of files in the worker's first validation, if there is one. */
  function FirstFiles(vs: seq<Validation>, worker: Str): Option<nat> {
    if vs == [] then None
    else match FirstFiles(vs[..|vs| - 1], worker)
      case Some(n) => Some(n)
      case None => if vs[|vs| - 1].validator == worker then Some(|vs[|vs| - 1].frames|) else None
  }

  function ValidatorReward(vs: seq<Validation>, worker: Str, pot: int): int {
    match FirstFiles(vs, worker)
    case None => 0
    case Some(n) => ValidatorPayment(n, TotalFiles(vs), pot)
  }

  // ---------- the thread object ----------

  /** A *VideoRenderingThread: a copy of the stored record that the methods update in place. */
  class VideoRenderingThread {
    var value: Thread

    constructor (t: Thread)
      ensures value == t
    {
      value := t;
    }

    /** ok is false when the source returns a decoding error; the counts made so far stay. */
    method EvaluateVerifications(env: Env) returns (ok: bool)
      requires value.solution.Some?
      modifies this
      ensures value == Evaluated(env, old(value))
      ensures ok == TallyAll(env, old(value).solution.value.frames, old(value).validations,
                             |old(value).solution.value.frames|).1
    {
      ghost var was, vs := value.solution.value.frames, value.validations;
      for i := 0 to |value.solution.value.frames|
        invariant value.solution.Some? && |value.solution.value.frames| == |was|
        invariant value == WithFrames(old(value), TallyAll(env, was, vs, i).0)
        invariant TallyAll(env, was, vs, i).1
        invariant forall k :: i <= k < |was| ==> value.solution.value.frames[k] == was[k]
      {
        var decoded := EvaluateFrame(env, i);
        if !decoded {
          TallyAllStops(env, was, vs, i + 1, |was|);
          return false;
        }
      }
      return true;
    }

    /** The inner loop of EvaluateVerifications: all validations against frame i. */
    method EvaluateFrame(env: Env, i: nat) returns (ok: bool)
      requires value.solution.Some? && i < |value.solution.value.frames|
      modifies this
      ensures var r := Tally(env, old(value).solution.value.frames[i], old(value).validations);
        && value == WithFrames(old(value), old(value).solution.value.frames[i := r.0])
        && ok == r.1
    {
      hide Judge, Count, FirstNamed;
      var frame, vs := value.solution.value.frames[i], value.validations;
      ghost var was := frame;
      for j := 0 to |vs|
        invariant Tally(env, was, vs[..j]) == (frame, true)
        invariant value == old(value)
      {
        assert vs[..j + 1][..j] == vs[..j];
        JudgeIgnoresCounts(env, frame, was, vs[j]);
        var found, err, valid := Verify(env, frame, vs[j]);
        if !found {
          continue;
        }
        if err {
          TallyPrefixFails(env, was, vs, j + 1);
          value := WithFrames(value, value.solution.value.frames[i := frame]);
          return false;
        }
        if valid {
          frame := frame.(validCount := frame.validCount + 1);
        } else {
          frame := frame.(invalidCount := frame.invalidCount + 1);
        }
      }
      assert vs[..|vs|] == vs;
      value := WithFrames(value, value.solution.value.frames[i := frame]);
      return true;
    }

    /** One pass of the inner loop: look the file up, decode, verify. */
    static method Verify(env: Env, frame: Frame, validation: Validation)
      returns (found: bool, err: bool, valid: bool)
      ensures Judge(env, frame, validation) ==
        if !found then Absent else if err then Undecodable else if valid then Good else Bad
    {
      found, err, valid := true, false, false;
      var idx := FirstNamed(validation.frames, frame.filename);
      if idx < 0 {
        found := false;
        return;
      }
      if !env.keyDecodes(validation.publicKey) {
        err := true;
        return;
      }
      if !env.messageBuilds(frame.hash, validation.validator) {
        err := true;
        return;
      }
      if !env.signatureDecodes(validation.frames[idx].signature) {
        err := true;
        return;
      }
      valid := env.verifies(
        validation.publicKey, frame.hash, validation.validator, validation.frames[idx].signature);
    }

    method IsSolutionAccepted() returns (accepted: bool)
      requires value.solution.Some?
      ensures accepted == Accepts(value)
    {
      var frames := value.solution.value.frames;
      var validFrameCount := 0;
      var minValidValidations := 2;
      if |value.workers| == 1 {
        minValidValidations := 1;
      }
      var totalFrames := |frames|;
      if totalFrames == 0 {
        return false;
      }
      for i := 0 to totalFrames
        invariant validFrameCount == |Passing(frames[..i], minValidValidations)|
      {
        PassingStep(frames, minValidValidations, i);
        if frames[i].validCount >= minValidValidations {
          validFrameCount := validFrameCount + 1;
        }
      }
      assert frames[..totalFrames] == frames;
      var required := totalFrames / 5; // int(float64(totalFrames) * 0.2), see FifthByDoubles
      if required == 0 && totalFrames > 0 {
        required := 1;
      }
      return validFrameCount >= required;
    }

    method IsReverse(worker: Str) returns (r: bool)
      ensures r == Reverse(value.workers, worker)
    {
      for i := 0 to |value.workers|
        invariant worker !in value.workers[..i]
      {
        if value.workers[i] == worker {
          ReverseAt(value.workers, i);
          return i % 2 != 0;
        }
      }
      ReverseAbsent(value.workers, worker);
      return false;
    }

    method GetValidatorReward(worker: Str, totalReward: Coin) returns (reward: Coin)
      ensures reward == Coin(JCT, ValidatorReward(value.validations, worker, totalReward.amount))
    {
      var vs := value.validations;
      var totalFiles := 0;
      for i := 0 to |vs|
        invariant totalFiles == TotalFiles(vs[..i])
      {
        assert vs[..i + 1][..i] == vs[..i];
        totalFiles := totalFiles + |vs[i].frames|;
      }
      assert vs[..|vs|] == vs;
      for i := 0 to |vs|
        invariant FirstFiles(vs[..i], worker) == None
      {
        assert vs[..i + 1][..i] == vs[..i];
        if vs[i].validator == worker {
          FirstFilesStays(vs, worker, i + 1);
          return Coin(JCT, ValidatorPayment(|vs[i].frames|, totalFiles, totalReward.amount));
        }
      }
      return Coin(JCT, 0);
    }
  }

  // ---------- helpers of the methods above ----------

  lemma {:induction false} TallyPrefixFails(env: Env, f: Frame, vs: seq<Validation>, j: nat)
    requires j <= |vs| && !Tally(env, f, vs[..j]).1
    ensures Tally(env, f, vs) == Tally(env, f, vs[..j])
    decreases |vs|
  {
    if j == |vs| {
      assert vs[..j] == vs;
    } else {
      assert vs[..|vs| - 1][..j] == vs[..j];
      TallyPrefixFails(env, f, vs[..|vs| - 1], j);
    }
  }

  lemma {:induction false} TallyAllStops(env: Env, frames: seq<Frame>, vs: seq<Validation>, i: nat, n: nat)
    requires i <= n <= |frames| && !TallyAll(env, frames, vs, i).1
    ensures TallyAll(env, frames, vs, n) == TallyAll(env, frames, vs, i)
  {
    if i < n { TallyAllStops(env, frames, vs, i, n - 1); }
  }

  lemma PassingStep(frames: seq<Frame>, min: int, i: nat)
    requires i < |frames|
    ensures |Passing(frames[..i + 1], min)|
      == |Passing(frames[..i], min)| + (if frames[i].validCount >= min then 1 else 0)
  {
    var a, b := Passing(frames[..i], min), Passing(frames[..i + 1], min);
    assert i !in a;
    if frames[i].validCount >= min {
      assert b == a + {i};
    } else {
      assert b == a;
    }
  }

  lemma {:induction false} ReverseAbsent(workers: seq<Str>, worker: Str)
    requires worker !in workers
    ensures !Reverse(workers, worker)
  {
    if workers != [] { assert workers[|workers| - 1] in workers; }
  }

  lemma {:induction false} FirstFilesStays(vs: seq<Validation>, worker: Str, n: nat)
    requires n <= |vs| && FirstFiles(vs[..n], worker).Some?
    ensures FirstFiles(vs, worker) == FirstFiles(vs[..n], worker)
    decreases |vs|
  {
    if n == |vs| {
      assert vs[..n] == vs;
    } else {
      assert vs[..|vs| - 1][..n] == vs[..n];
      FirstFilesStays(vs[..|vs| - 1], worker, n);
    }
  }
}
