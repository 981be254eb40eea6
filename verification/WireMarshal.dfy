/** MarshalToSizedBuffer: the buffer is filled from its end towards its start. */
module WireMarshal {
  import opened Basics
  import opened Protocol
  import opened Varint
  import opened Wire
  import opened WireProofs

  /** The buffer after the bytes were written so that they end at end. */
  function Splice(s: seq<byte>, end: nat, bytes: seq<byte>): (r: seq<byte>)
    requires |bytes| <= end <= |s|
    ensures |r| == |s|
  {
    s[..end - |bytes|] + bytes + s[end..]
  }

  /** Writing more in front. */
  lemma SpliceMore(s: seq<byte>, end: nat, bytes: seq<byte>, more: seq<byte>)
    requires |more| + |bytes| <= end <= |s|
    ensures Splice(Splice(s, end, bytes), end - |bytes|, more) == Splice(s, end, more + bytes)
  {
  }

  lemma SpliceNothing(s: seq<byte>, end: nat)
    requires end <= |s|
    ensures Splice(s, end, []) == s
  {
  }

  // ---------- fields ----------

  method PutTag(dAtA: array<byte>, end: nat, tag: byte) returns (i: nat)
    requires 1 <= end <= dAtA.Length
    modifies dAtA
    ensures i == end - 1 && dAtA[..] == Splice(old(dAtA[..]), end, [tag])
  {
    i := end - 1;
    dAtA[i] := tag;
  }

  method PutVarint(dAtA: array<byte>, end: nat, v: nat) returns (i: nat)
    requires v < TWO_TO_64 && |Enc(v)| <= end <= dAtA.Length
    modifies dAtA
    ensures i == end - |Enc(v)| && dAtA[..] == Splice(old(dAtA[..]), end, Enc(v))
  {
    EncSize(v);
    i := EncodeVarint(dAtA, end, v);
    assert dAtA[..] == dAtA[..i] + dAtA[i..end] + dAtA[end..];
  }

  /** copy(dAtA[i:], s) with i just far enough from the end. */
  method PutCopy(dAtA: array<byte>, end: nat, s: seq<byte>) returns (i: nat)
    requires |s| <= end <= dAtA.Length
    modifies dAtA
    ensures i == end - |s| && dAtA[..] == Splice(old(dAtA[..]), end, s)
  {
    i := end - |s|;
    forall k | 0 <= k < |s| {
      dAtA[i + k] := s[k];
    }
  }

  /** The length and the tag in front of a payload that is already in place. */
  method PutHeader(dAtA: array<byte>, end: nat, num: nat, ghost s: seq<byte>, ghost p: seq<byte>, start: nat)
    returns (i: nat)
    requires 1 <= num <= 15 && |p| < TWO_TO_63 && |Record(num, p)| <= end <= dAtA.Length == |s|
    requires start == end - |p| && dAtA[..] == Splice(s, end, p)
    modifies dAtA
    ensures i == end - |Record(num, p)| && dAtA[..] == Splice(s, end, Record(num, p))
  {
    hide Splice;
    i := PutVarint(dAtA, start, end - start);
    SpliceMore(s, end, p, Enc(|p|));
    i := PutTag(dAtA, i, Tag(num, 2));
    SpliceMore(s, end, Enc(|p|) + p, [Tag(num, 2)]);
    assert [Tag(num, 2)] + (Enc(|p|) + p) == Record(num, p);
  }

  method PutRecord(dAtA: array<byte>, end: nat, num: nat, p: seq<byte>) returns (i: nat)
    requires 1 <= num <= 15 && |p| < TWO_TO_63 && |Record(num, p)| <= end <= dAtA.Length
    modifies dAtA
    ensures i == end - |Record(num, p)| && dAtA[..] == Splice(old(dAtA[..]), end, Record(num, p))
  {
    i := PutCopy(dAtA, end, p);
    i := PutHeader(dAtA, end, num, old(dAtA[..]), p, i);
  }

  method PutBytes(dAtA: array<byte>, end: nat, num: nat, s: Str) returns (i: nat)
    requires 1 <= num <= 15 && |s| < TWO_TO_63 && |EncBytes(num, s)| <= end <= dAtA.Length
    modifies dAtA
    ensures i == end - |EncBytes(num, s)| && dAtA[..] == Splice(old(dAtA[..]), end, EncBytes(num, s))
  {
    i := end;
    SpliceNothing(dAtA[..], end);
    if |s| > 0 {
      i := PutRecord(dAtA, end, num, s);
    }
  }

  method PutInt(dAtA: array<byte>, end: nat, num: nat, x: int) returns (i: nat)
    requires 1 <= num <= 15 && |EncInt(num, x)| <= end <= dAtA.Length
    modifies dAtA
    ensures i == end - |EncInt(num, x)| && dAtA[..] == Splice(old(dAtA[..]), end, EncInt(num, x))
  {
    hide Enc;
    i := end;
    ghost var s := dAtA[..];
    SpliceNothing(s, end);
    if x != 0 {
      i := PutVarint(dAtA, i, U64(x));
      i := PutTag(dAtA, i, Tag(num, 0));
      SpliceMore(s, end, Enc(U64(x)), [Tag(num, 0)]);
    }
  }

  method PutBool(dAtA: array<byte>, end: nat, num: nat, b: bool) returns (i: nat)
    requires 1 <= num <= 15 && |EncBool(num, b)| <= end <= dAtA.Length
    modifies dAtA
    ensures i == end - |EncBool(num, b)| && dAtA[..] == Splice(old(dAtA[..]), end, EncBool(num, b))
  {
    i := end;
    ghost var s := dAtA[..];
    SpliceNothing(s, end);
    if b {
      i := PutTag(dAtA, i, 1);
      i := PutTag(dAtA, i, Tag(num, 0));
      SpliceMore(s, end, [1], [Tag(num, 0)]);
      assert [Tag(num, 0)] + [1] == EncBool(num, b);
    }
  }

  // ---------- messages ----------

  method MarshalFrame(f: Frame, dAtA: array<byte>, end: nat) returns (i: nat)
    requires FrameFits(f) && |EncFrame(f)| <= end <= dAtA.Length
    modifies dAtA
    ensures i == end - |EncFrame(f)| && dAtA[..] == Splice(old(dAtA[..]), end, EncFrame(f))
  {
    hide EncBytes, EncInt, Splice;
    ghost var s := dAtA[..];
    ghost var a, b, c := EncBytes(1, f.filename), EncBytes(2, f.signature), EncBytes(3, f.cid);
    ghost var d, e, g := EncBytes(4, f.hash), EncInt(5, f.validCount), EncInt(6, f.invalidCount);
    i := PutInt(dAtA, end, 6, f.invalidCount);
    i := PutInt(dAtA, i, 5, f.validCount);
    SpliceMore(s, end, g, e);
    i := PutBytes(dAtA, i, 4, f.hash);
    SpliceMore(s, end, e + g, d);
    i := PutBytes(dAtA, i, 3, f.cid);
    SpliceMore(s, end, d + (e + g), c);
    i := PutBytes(dAtA, i, 2, f.signature);
    SpliceMore(s, end, c + (d + (e + g)), b);
    i := PutBytes(dAtA, i, 1, f.filename);
    SpliceMore(s, end, b + (c + (d + (e + g))), a);
    Associate(a, b, c, d, e, g);
  }

  /** One frame as a record: marshalled in place, then measured and tagged. */
  method MarshalOne(f: Frame, dAtA: array<byte>, end: nat) returns (i: nat)
    requires FrameFits(f) && |Record(2, EncFrame(f))| <= end <= dAtA.Length
    modifies dAtA
    ensures i == end - |Record(2, EncFrame(f))|
    ensures dAtA[..] == Splice(old(dAtA[..]), end, Record(2, EncFrame(f)))
  {
    hide EncFrame, SizeFrame, Splice;
    FrameSize(f);
    i := MarshalFrame(f, dAtA, end);
    i := PutHeader(dAtA, end, 2, old(dAtA[..]), EncFrame(f), i);
  }

  /** The loop over the frames, last one first. */
  method MarshalFrames(fs: seq<Frame>, dAtA: array<byte>, end: nat) returns (i: nat)
    requires FramesFit(fs) && |EncFrames(fs)| <= end <= dAtA.Length
    modifies dAtA
    ensures i == end - |EncFrames(fs)| && dAtA[..] == Splice(old(dAtA[..]), end, EncFrames(fs))
  {
    hide Splice, EncFrame, FrameFits;
    i := end;
    var n := |fs|;
    ghost var s, done := dAtA[..], [];
    SpliceNothing(s, end);
    assert fs[..|fs|] == fs;
    while n > 0
      invariant 0 <= n <= |fs| && i == end - |done|
      invariant EncFrames(fs[..n]) + done == EncFrames(fs)
      invariant dAtA[..] == Splice(s, end, done)
    {
      assert fs[..n][..n - 1] == fs[..n - 1];
      ghost var r := Record(2, EncFrame(fs[n - 1]));
      assert EncFrames(fs[..n]) == EncFrames(fs[..n - 1]) + r;
      i := MarshalOne(fs[n - 1], dAtA, i);
      SpliceMore(s, end, done, r);
      done := r + done;
      n := n - 1;
    }
    assert fs[..0] == [] && [] + done == done;
  }

  method MarshalValidation(v: Validation, dAtA: array<byte>, end: nat) returns (i: nat)
    requires Fits(OfValidation(v)) && |EncValidation(v)| <= end <= dAtA.Length
    modifies dAtA
    ensures i == end - |EncValidation(v)| && dAtA[..] == Splice(old(dAtA[..]), end, EncValidation(v))
  {
    hide EncBytes, EncBool, EncFrames, Splice, FramesFit;
    ghost var s := dAtA[..];
    ghost var a, b := EncBytes(1, v.validator), EncFrames(v.frames);
    ghost var c, d := EncBytes(3, v.publicKey), EncBool(4, v.isReverse);
    i := PutBool(dAtA, end, 4, v.isReverse);
    i := PutBytes(dAtA, i, 3, v.publicKey);
    SpliceMore(s, end, d, c);
    i := MarshalFrames(v.frames, dAtA, i);
    SpliceMore(s, end, c + d, b);
    i := PutBytes(dAtA, i, 1, v.validator);
    SpliceMore(s, end, b + (c + d), a);
    Associate([], [], a, b, c, d);
    assert [] + ([] + (a + (b + (c + d)))) == a + (b + (c + d)) && [] + [] + a == a;
  }

  method MarshalSolution(sol: Solution, dAtA: array<byte>, end: nat) returns (i: nat)
    requires Fits(OfSolution(sol)) && |EncSolution(sol)| <= end <= dAtA.Length
    modifies dAtA
    ensures i == end - |EncSolution(sol)| && dAtA[..] == Splice(old(dAtA[..]), end, EncSolution(sol))
  {
    hide EncBytes, EncBool, EncFrames, Splice, FramesFit;
    ghost var s := dAtA[..];
    ghost var a, b, c := EncBytes(1, sol.proposedBy), EncFrames(sol.frames), EncBytes(3, sol.publicKey);
    ghost var d, e := EncBytes(4, sol.dir), EncBool(5, sol.accepted);
    i := PutBool(dAtA, end, 5, sol.accepted);
    i := PutBytes(dAtA, i, 4, sol.dir);
    SpliceMore(s, end, e, d);
    i := PutBytes(dAtA, i, 3, sol.publicKey);
    SpliceMore(s, end, d + e, c);
    i := MarshalFrames(sol.frames, dAtA, i);
    SpliceMore(s, end, c + (d + e), b);
    i := PutBytes(dAtA, i, 1, sol.proposedBy);
    SpliceMore(s, end, b + (c + (d + e)), a);
    Associate([], a, b, c, d, e);
    assert [] + (a + (b + (c + (d + e)))) == a + (b + (c + (d + e))) && [] + a == a;
  }

  // ---------- packed durations ----------

  /** The durations are first written forwards into a temporary buffer of ten bytes each. */
  method PackDurations(xs: seq<int>) returns (buf: array<byte>, j: nat)
    requires forall k :: 0 <= k < |xs| ==> IsI64(xs[k])
    ensures fresh(buf) && j <= buf.Length && buf[..j] == EncPacked(xs)
  {
    buf := new byte[|xs| * 10];
    j := 0;
    for n := 0 to |xs|
      invariant j <= 10 * n && buf[..j] == EncPacked(xs[..n])
    {
      assert xs[..n + 1] == xs[..n] + [xs[n]];
      PackedLast(xs[..n], xs[n]);
      EncTen(U64(xs[n]));
      j := PackOne(buf, j, U64(xs[n]));
    }
    assert xs[..|xs|] == xs;
  }

  /** The inner loop: one varint, forwards. */
  method PackOne(buf: array<byte>, start: nat, v: nat) returns (j: nat)
    requires start + |Enc(v)| <= buf.Length
    modifies buf
    ensures j == start + |Enc(v)| && buf[..j] == old(buf[..start]) + Enc(v)
  {
    j := start;
    var num: nat := v;
    while num >= 128
      invariant start <= j && j + |Enc(num)| == start + |Enc(v)|
      invariant buf[..j] + Enc(num) == old(buf[..start]) + Enc(v)
    {
      ghost var done := buf[..j];
      buf[j] := num % 128 + 128;
      assert buf[..j + 1] == done + [num % 128 + 128];
      num := num / 128;
      j := j + 1;
    }
    ghost var done := buf[..j];
    buf[j] := num;
    j := j + 1;
    assert buf[..j] == done + [num];
  }

  function EncDurations(xs: seq<int>): seq<byte> { if xs == [] then [] else Record(6, EncPacked(xs)) }

  method PutDurations(xs: seq<int>, dAtA: array<byte>, end: nat) returns (i: nat)
    requires (forall k :: 0 <= k < |xs| ==> IsI64(xs[k])) && SizePacked(xs) < TWO_TO_63
    requires |EncDurations(xs)| <= end <= dAtA.Length
    modifies dAtA
    ensures i == end - |EncDurations(xs)| && dAtA[..] == Splice(old(dAtA[..]), end, EncDurations(xs))
  {
    i := end;
    SpliceNothing(dAtA[..], end);
    if |xs| > 0 {
      PackedSize(xs);
      var buf, j := PackDurations(xs);
      i := PutRecord(dAtA, end, 6, buf[..j]);
    }
  }

  function EncStaked(c: Option<seq<byte>>): seq<byte> {
    match c case None => [] case Some(p) => Record(1, p)
  }

  /** The Coin fields arrive already encoded. */
  method MarshalReputation(r: RawReputation, dAtA: array<byte>, end: nat) returns (i: nat)
    requires Fits(OfReputation(r)) && |EncReputation(r)| <= end <= dAtA.Length
    modifies dAtA
    ensures i == end - |EncReputation(r)| && dAtA[..] == Splice(old(dAtA[..]), end, EncReputation(r))
  {
    hide EncInt, Record, EncPacked, Splice;
    ghost var s := dAtA[..];
    ghost var a, b, c := EncStaked(r.staked), EncInt(2, r.points), EncInt(3, r.validations);
    ghost var d, e, g := EncInt(4, r.solutions), Record(5, r.winnings), EncDurations(r.renderDurations);
    assert EncReputation(r) == a + b + c + d + e + g;
    i := PutDurations(r.renderDurations, dAtA, end);
    i := PutRecord(dAtA, i, 5, r.winnings);
    SpliceMore(s, end, g, e);
    i := PutInt(dAtA, i, 4, r.solutions);
    SpliceMore(s, end, e + g, d);
    i := PutInt(dAtA, i, 3, r.validations);
    SpliceMore(s, end, d + (e + g), c);
    i := PutInt(dAtA, i, 2, r.points);
    SpliceMore(s, end, c + (d + (e + g)), b);
    SpliceNothing(dAtA[..], i);
    if r.staked.Some? {
      i := PutRecord(dAtA, i, 1, r.staked.value);
    }
    SpliceMore(s, end, b + (c + (d + (e + g))), a);
    Associate(a, b, c, d, e, g);
  }

  lemma Associate(a: seq<byte>, b: seq<byte>, c: seq<byte>, d: seq<byte>, e: seq<byte>, g: seq<byte>)
    ensures a + (b + (c + (d + (e + g)))) == a + b + c + d + e + g
  {
    assert c + (d + (e + g)) == c + d + e + g;
    assert b + (c + d + e + g) == b + c + d + e + g;
    assert a + (b + c + d + e + g) == a + b + c + d + e + g;
  }

  // ---------- any message ----------

  /** MarshalToSizedBuffer on dAtA[:end]. */
  method MarshalTo(m: Message, dAtA: array<byte>, end: nat) returns (i: nat)
    requires Fits(m) && |Encode(m)| <= end <= dAtA.Length
    modifies dAtA
    ensures i == end - |Encode(m)| && dAtA[..] == Splice(old(dAtA[..]), end, Encode(m))
  {
    match m
    case OfFrame(f) => i := MarshalFrame(f, dAtA, end);
    case OfValidation(v) => i := MarshalValidation(v, dAtA, end);
    case OfSolution(s) => i := MarshalSolution(s, dAtA, end);
    case OfReputation(r) => i := MarshalReputation(r, dAtA, end);
  }

  /** Marshal: a buffer of Size() bytes is filled completely, and decodes to the message. */
  method Marshal(m: Message) returns (out: array<byte>)
    requires Fits(m)
    ensures fresh(out) && out.Length == Size(m)
    ensures out[..] == Encode(m)
    ensures Decode(Empty(m), out[..]) == Some(m)
  {
    hide Encode, Decode, Size, Fits;
    SizeExact(m);
    out := new byte[Size(m)];
    var i := MarshalTo(m, out, Size(m));
    assert i == 0;
    assert out[..] == out[0..Size(m)];
    RoundTrip(m);
  }
}
