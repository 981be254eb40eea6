/** What counting verifications and the acceptance rule mean, and what the client's 20% threshold
    guarantees (VideoRenderingThread.go). */
module Acceptance {
  import opened Protocol
  import opened Verification
  import opened Verdicts

  // ---------- counting refines its specification ----------

  /** Every validation's entry for the frame's file, if it has one, decodes. */
  predicate Decodes(env: Env, f: Frame, vs: seq<Validation>) {
    forall j :: 0 <= j < |vs| ==> !Garbles(env, f, vs[j])
  }

  /** When everything decodes, the counters grow by exactly the numbers of verifying and of failing
      validations. */
  lemma {:induction false} TallyCounts(env: Env, f: Frame, vs: seq<Validation>)
    requires Decodes(env, f, vs)
    ensures Tally(env, f, vs) ==
      (f.(validCount := f.validCount + Count(env, f, vs, Good),
          invalidCount := f.invalidCount + Count(env, f, vs, Bad)), true)
  {
    hide Judge, Garbles;
    if vs != [] {
      assert forall j :: 0 <= j < |vs| - 1 ==> vs[..|vs| - 1][j] == vs[j];
      TallyCounts(env, f, vs[..|vs| - 1]);
      JudgeMeans(env, f, vs[|vs| - 1]);
    }
  }

  /** Whatever fails to decode, the counters grow by at most the verifying, respectively the failing
      validations. */
  lemma {:induction false} TallyBound(env: Env, f: Frame, vs: seq<Validation>)
    ensures f.validCount <= Tally(env, f, vs).0.validCount <= f.validCount + Count(env, f, vs, Good)
    ensures f.invalidCount <= Tally(env, f, vs).0.invalidCount <= f.invalidCount + Count(env, f, vs, Bad)
  {
    if vs != [] { TallyBound(env, f, vs[..|vs| - 1]); }
  }

  lemma {:induction false} TallyAllAt(env: Env, frames: seq<Frame>, vs: seq<Validation>, n: nat)
    requires n <= |frames|
    requires forall i :: 0 <= i < n ==> Decodes(env, frames[i], vs)
    ensures TallyAll(env, frames, vs, n).1
    ensures forall i :: 0 <= i < |frames| ==>
      TallyAll(env, frames, vs, n).0[i] == if i < n then Tally(env, frames[i], vs).0 else frames[i]
  {
    if n > 0 {
      TallyAllAt(env, frames, vs, n - 1);
      TallyCounts(env, frames[n - 1], vs);
    }
  }

  /** Each frame is either untouched or has been tallied, and keeps everything but its counters. */
  lemma {:induction false} TallyAllEach(env: Env, frames: seq<Frame>, vs: seq<Validation>, n: nat, i: nat)
    requires n <= |frames| && i < |frames|
    ensures var g := TallyAll(env, frames, vs, n).0[i];
      && (g == frames[i] || g == Tally(env, frames[i], vs).0)
      && (i >= n ==> g == frames[i])
  {
    if n > 0 { TallyAllEach(env, frames, vs, n - 1, i); }
  }

  /** From zero counters, with everything decoding, a frame's counters are the numbers of validations
      whose first entry for its file verifies, respectively fails. */
  lemma CountingRefines(env: Env, t: Thread, i: nat)
    requires t.solution.Some? && i < |t.solution.value.frames|
    requires forall k :: 0 <= k < |t.solution.value.frames| ==> Decodes(env, t.solution.value.frames[k], t.validations)
    requires t.solution.value.frames[i].validCount == t.solution.value.frames[i].invalidCount == 0
    ensures var f, g := t.solution.value.frames[i], Evaluated(env, t).solution.value.frames[i];
      && g.validCount == |Endorsers(env, f, t.validations)|
      && g.invalidCount == |Rejecters(env, f, t.validations)|
      && g == f.(validCount := g.validCount, invalidCount := g.invalidCount)
  {
    hide Endorsers, Rejecters, Decodes;
    var frames := t.solution.value.frames;
    TallyAllAt(env, frames, t.validations, |frames|);
    TallyCounts(env, frames[i], t.validations);
    CountsVerdicts(env, frames[i], t.validations);
  }

  /** Counting ends for good at the first entry that does not decode: frame i, validation j. The frames before
      have been counted in full, this one up to there, and the ones after it not at all. */
  lemma CountingStops(env: Env, t: Thread, i: nat, j: nat, k: nat)
    requires t.solution.Some? && i < |t.solution.value.frames| && j < |t.validations|
    requires k < |t.solution.value.frames|
    requires var frames, vs := t.solution.value.frames, t.validations;
      && (forall n :: 0 <= n < i ==> Decodes(env, frames[n], vs))
      && Decodes(env, frames[i], vs[..j]) && Garbles(env, frames[i], vs[j])
    ensures var f, g := t.solution.value.frames[k], Evaluated(env, t).solution.value.frames[k];
      var counted := if k < i then t.validations else if k == i then t.validations[..j] else [];
      g == f.(validCount := f.validCount + |Endorsers(env, f, counted)|,
              invalidCount := f.invalidCount + |Rejecters(env, f, counted)|)
  {
    hide Endorsers, Rejecters, Decodes, Judge, Garbles;
    var frames, vs := t.solution.value.frames, t.validations;
    TallyAllAt(env, frames, vs, i);
    TallyStops(env, frames[i], vs, j);
    StopsHere(env, frames, vs, i);
    TallyAllStops(env, frames, vs, i + 1, |frames|);
    var counted := if k < i then vs else if k == i then vs[..j] else [];
    if k <= i { TallyCounts(env, frames[k], counted); }
    CountsVerdicts(env, frames[k], counted);
  }

  lemma StopsHere(env: Env, frames: seq<Frame>, vs: seq<Validation>, i: nat)
    requires i < |frames| && TallyAll(env, frames, vs, i).1 && !Tally(env, frames[i], vs).1
    ensures TallyAll(env, frames, vs, i + 1) ==
      (TallyAll(env, frames, vs, i).0[i := Tally(env, frames[i], vs).0], false)
  {
  }

  /** Against one frame, counting ends at the first validation that does not decode. */
  lemma {:induction false} TallyStops(env: Env, f: Frame, vs: seq<Validation>, j: nat)
    requires j < |vs| && Decodes(env, f, vs[..j]) && Garbles(env, f, vs[j])
    ensures Tally(env, f, vs) == (Tally(env, f, vs[..j]).0, false)
    decreases |vs|
  {
    hide Judge, Garbles;
    var n := |vs| - 1;
    if j < n {
      assert vs[..n][..j] == vs[..j];
      TallyStops(env, f, vs[..n], j);
    } else {
      JudgeMeans(env, f, vs[n]);
      TallyCounts(env, f, vs[..n]);
    }
  }

  // ---------- the acceptance rule ----------

  /** The frames that at least min validations verify. */
  function Vouched(env: Env, frames: seq<Frame>, vs: seq<Validation>, min: int): set<nat> {
    set i: nat | i < |frames| && |Endorsers(env, frames[i], vs)| >= min
  }

  /** From zero counters, with everything decoding: a solution is accepted exactly when it has frames, and
      at least max(1, n/5) of its n frames are verified by two validations each - or by one each, if the
      thread has a single worker. */
  lemma AcceptanceRule(env: Env, t: Thread)
    requires t.solution.Some?
    requires var frames := t.solution.value.frames;
      forall i :: 0 <= i < |frames| ==>
        Decodes(env, frames[i], t.validations) && frames[i].validCount == frames[i].invalidCount == 0
    ensures var frames := t.solution.value.frames;
      Accepts(Evaluated(env, t)) <==>
        && |frames| >= 1
        && |Vouched(env, frames, t.validations, if |t.workers| == 1 then 1 else 2)|
             >= (if |frames| >= 5 then |frames| / 5 else 1)
  {
    hide Endorsers, Decodes;
    var frames, min := t.solution.value.frames, if |t.workers| == 1 then 1 else 2;
    var after := Evaluated(env, t).solution.value.frames;
    forall i | 0 <= i < |frames| ensures after[i].validCount == |Endorsers(env, frames[i], t.validations)| {
      CountingRefines(env, t, i);
    }
    assert Passing(after, min) == Vouched(env, frames, t.validations, min);
  }

  lemma {:induction false} SubsetCard(a: set<nat>, b: set<nat>)
    requires a <= b
    ensures |a| <= |b|
    decreases |a|
  {
    if a != {} {
      var x :| x in a;
      SubsetCard(a - {x}, b - {x});
    }
  }

  // ---------- the client's threshold ----------

  /** SubmitVerification sends a validation only when it rendered f files with f > 0.2 * (n - 1).
      If the proposer's validation p verifies on all n frames and another validation q on f of them,
      and everything decodes, then the chain accepts the solution. */
  lemma ThresholdSuffices(env: Env, t: Thread, p: nat, q: nat, rendered: set<nat>)
    requires t.solution.Some?
    requires var frames, vs := t.solution.value.frames, t.validations;
      && |frames| >= 1
      && p < |vs| && q < |vs| && p != q
      && (forall i :: 0 <= i < |frames| ==> Decodes(env, frames[i], vs) && frames[i].validCount >= 0)
      && (forall i :: 0 <= i < |frames| ==> Endorses(env, frames[i], vs[p]))
      && (forall i | i in rendered :: i < |frames| && Endorses(env, frames[i], vs[q]))
      && 5 * |rendered| > |frames| - 1
    ensures Accepts(Evaluated(env, t))
  {
    hide Endorses, Decodes, Tally;
    var frames, vs := t.solution.value.frames, t.validations;
    TallyAllAt(env, frames, vs, |frames|);
    var after := Evaluated(env, t).solution.value.frames;
    forall i | i in rendered ensures i in Passing(after, MinValidValidations(t.workers)) {
      assert {p, q} <= Endorsers(env, frames[i], vs);
      SubsetCard({p, q}, Endorsers(env, frames[i], vs));
      TallyCounts(env, frames[i], vs);
      CountsVerdicts(env, frames[i], vs);
    }
    SubsetCard(rendered, Passing(after, MinValidValidations(t.workers)));
  }

  // ---------- the factor 0.2 in double precision ----------

  /** The double nearest to 0.2 is 3602879701896397 / 2^54. */
  const FIFTH_NUMERATOR: int := 3602879701896397
  const TWO_TO_54: int := 0x40_0000_0000_0000
  const TWO_TO_53: int := 0x20_0000_0000_0000

  function PowerOfTwo(k: nat): (p: int)
    ensures p >= 1
  {
    if k == 0 then 1 else 2 * PowerOfTwo(k - 1)
  }

  /** A double of the size that matters here: a 53-bit integer over a power of two. */
  ghost predicate IsDouble(y: real) {
    exists m: int, k: nat :: -TWO_TO_53 < m < TWO_TO_53 && Quotient(y, m, PowerOfTwo(k))
  }

  predicate Quotient(y: real, m: int, p: int) { y * p as real == m as real }

  function Distance(x: real, y: real): real { if x < y then y - x else x - y }

  /** y is a correctly rounded result for x: a double, and none is nearer. */
  ghost predicate RoundsTo(x: real, y: real) {
    IsDouble(y) && forall z: real :: IsDouble(z) ==> Distance(x, y) <= Distance(x, z)
  }

  lemma {:induction false} EighthIsDouble(n: int)
    requires -TWO_TO_53 < n < TWO_TO_53
    ensures IsDouble(n as real / 8.0)
  {
    assert PowerOfTwo(0) == 1 && PowerOfTwo(1) == 2 && PowerOfTwo(2) == 4 && PowerOfTwo(3) == 8;
    assert Quotient(n as real / 8.0, n, PowerOfTwo(3));
  }

  /** A double at most 2^-53, relatively, beyond a positive integer is that integer. */
  lemma {:induction false} BeyondIsEqual(q: int, y: real)
    requires q > 0 && IsDouble(y) && q as real <= y && TWO_TO_53 as real * (y - q as real) <= q as real
    ensures y == q as real
  {
    var m: int, k: nat :| -TWO_TO_53 < m < TWO_TO_53 && Quotient(y, m, PowerOfTwo(k));
    BeyondAsIntegers(q, y, m, PowerOfTwo(k));
  }

  lemma {:induction false} BeyondAsIntegers(q: int, y: real, m: int, p: int)
    requires q > 0 && p >= 1 && m < TWO_TO_53 && y * p as real == m as real
    requires q as real <= y && TWO_TO_53 as real * (y - q as real) <= q as real
    ensures y == q as real
  {
    var P, Q := p as real, q as real;
    assert (q * p) as real == Q * P;
    ScaleReal(Q, y, P);
    assert (y - Q) * P == (m - q * p) as real;
    // the distance is a multiple of 1 / p, and q * p + 1 would have more than 53 bits
    ScaleReal(TWO_TO_53 as real * (y - Q), Q, P);
    assert (TWO_TO_53 as real * (y - Q)) * P == TWO_TO_53 as real * ((y - Q) * P);
    assert (TWO_TO_53 * (m - q * p)) as real == TWO_TO_53 as real * (m - q * p) as real;
    assert TWO_TO_53 * (m - q * p) <= q * p;
    Cancels(y, Q, P);
  }

  lemma {:induction false} ScaleReal(a: real, b: real, c: real)
    requires a <= b && c >= 0.0
    ensures a * c <= b * c
  {
  }

  lemma {:induction false} Cancels(a: real, b: real, c: real)
    requires c >= 1.0 && (a - b) * c <= 0.0 && a >= b
    ensures a == b
  {
    if a > b { ScaleReal(1.0, c, a - b); }
  }

  lemma {:induction false} NegatedDouble(y: real)
    requires IsDouble(y)
    ensures IsDouble(-y)
  {
    var m: int, k: nat :| -TWO_TO_53 < m < TWO_TO_53 && Quotient(y, m, PowerOfTwo(k));
    assert Quotient(-y, -m, PowerOfTwo(k));
  }

  /** For 32-bit frame counts n, negative ones included, float64(f) > float64(n) * 0.2 holds exactly when
      5f > n; and int(float64(n) * 0.2) is n / 5 when n is not negative. */
  lemma {:induction false} FifthByDoubles(n: int, f: int, y: real)
    requires -0x8000_0000 <= n < 0x8000_0000
    requires RoundsTo(n as real * FIFTH_NUMERATOR as real / TWO_TO_54 as real, y)
    ensures f as real > y <==> 5 * f > n
    ensures y.Floor == n / 5
  {
    hide RoundsTo;
    var q, r := n / 5, n % 5;
    var x := n as real * FIFTH_NUMERATOR as real / TWO_TO_54 as real;
    FifthBetween(n, q, r, x);
    if r != 0 { BetweenRoundsBetween(q, x, y); } else { MultipleRoundsBack(q, x, y); }
    assert q as real <= y <= q as real + 0.875;
  }

  /** The exact product lies between the multiples of 1/8 around n / 5, and next to q if n is 5q. */
  lemma {:induction false} FifthBetween(n: int, q: int, r: int, x: real)
    requires -0x8000_0000 <= n < 0x8000_0000 && n == 5 * q + r && 0 <= r < 5
    requires x == n as real * FIFTH_NUMERATOR as real / TWO_TO_54 as real
    ensures r != 0 ==> q as real <= x <= q as real + 0.875
    ensures r == 0 ==> TWO_TO_54 as real * (x - q as real) == q as real
  {
    assert (n * FIFTH_NUMERATOR) as real == n as real * FIFTH_NUMERATOR as real;
    assert x * TWO_TO_54 as real == (n * FIFTH_NUMERATOR) as real;
    assert 5 * FIFTH_NUMERATOR == TWO_TO_54 + 1;
    if r == 0 {
      assert n * FIFTH_NUMERATOR == q * (TWO_TO_54 + 1);
      assert (q * (TWO_TO_54 + 1)) as real == q as real * TWO_TO_54 as real + q as real;
    } else {
      assert q * TWO_TO_54 <= n * FIFTH_NUMERATOR;
      assert 8 * (n * FIFTH_NUMERATOR) <= (8 * q + 7) * TWO_TO_54;
    }
  }

  lemma {:induction false} BetweenRoundsBetween(q: int, x: real, y: real)
    requires -TWO_TO_53 < 8 * q < TWO_TO_53 - 7 && RoundsTo(x, y) && q as real <= x <= q as real + 0.875
    ensures q as real <= y <= q as real + 0.875
  {
    EighthIsDouble(8 * q);
    EighthIsDouble(8 * q + 7);
    assert (8 * q) as real / 8.0 == q as real && (8 * q + 7) as real / 8.0 == q as real + 0.875;
    assert Distance(x, y) <= Distance(x, q as real) && Distance(x, y) <= Distance(x, q as real + 0.875);
  }

  lemma {:induction false} MultipleRoundsBack(q: int, x: real, y: real)
    requires -TWO_TO_53 < 8 * q < TWO_TO_53 && RoundsTo(x, y) && TWO_TO_54 as real * (x - q as real) == q as real
    ensures y == q as real
  {
    EighthIsDouble(8 * q);
    assert (8 * q) as real / 8.0 == q as real;
    assert Distance(x, y) <= Distance(x, q as real);
    if q > 0 {
      assert q as real <= y;
      BeyondIsEqual(q, y);
    } else if q < 0 {
      assert y <= q as real;
      NegatedDouble(y);
      BeyondIsEqual(-q, -y);
    }
  }
}
