/** The codec's laws: exact sizes, round trips, and decoding over concatenation. */
module WireProofs {
  import opened Basics
  import opened Protocol
  import opened Varint
  import opened Wire

  // ---------- sizes ----------

  lemma {:induction false} FramesSize(fs: seq<Frame>)
    ensures |EncFrames(fs)| == SizeFrames(fs)
  {
    if fs != [] {
      FramesSize(fs[..|fs| - 1]);
      FrameSize(fs[|fs| - 1]);
      EncSize(SizeFrame(fs[|fs| - 1]));
    }
  }

  lemma BytesSize(num: nat, s: Str)
    requires 1 <= num <= 15
    ensures |EncBytes(num, s)| == SizeBytes(s)
  {
    EncSize(|s|);
  }

  lemma IntSize(num: nat, x: int)
    requires 1 <= num <= 15
    ensures |EncInt(num, x)| == SizeInt(x)
  {
    EncSize(U64(x));
  }

  lemma FrameSize(f: Frame)
    ensures |EncFrame(f)| == SizeFrame(f)
  {
    BytesSize(1, f.filename);
    BytesSize(2, f.signature);
    BytesSize(3, f.cid);
    BytesSize(4, f.hash);
    IntSize(5, f.validCount);
    IntSize(6, f.invalidCount);
  }

  lemma {:induction false} PackedSize(xs: seq<int>)
    ensures |EncPacked(xs)| == SizePacked(xs)
  {
    if xs != [] {
      PackedSize(xs[..|xs| - 1]);
      EncSize(U64(xs[|xs| - 1]));
    }
  }

  /** Size() is exactly the number of bytes of the encoding, for every message. */
  lemma SizeExact(m: Message)
    ensures |Encode(m)| == Size(m)
  {
    match m
    case OfFrame(f) => FrameSize(f);
    case OfValidation(v) =>
      BytesSize(1, v.validator);
      FramesSize(v.frames);
      BytesSize(3, v.publicKey);
    case OfSolution(s) =>
      BytesSize(1, s.proposedBy);
      FramesSize(s.frames);
      BytesSize(3, s.publicKey);
      BytesSize(4, s.dir);
    case OfReputation(r) =>
      if r.staked.Some? { EncSize(|r.staked.value|); }
      IntSize(2, r.points);
      IntSize(3, r.validations);
      IntSize(4, r.solutions);
      EncSize(|r.winnings|);
      PackedSize(r.renderDurations);
      EncSize(SizePacked(r.renderDurations));
  }

  // ---------- concatenation ----------

  lemma ValueSizePrefix(w: nat, b: seq<byte>, c: seq<byte>)
    requires ValueSize(w, b).Some?
    ensures ValueSize(w, b + c) == ValueSize(w, b)
  {
    if w == 0 { RawPrefix(b, 0, c); }
    if w == 2 { DecPrefix(b, c); }
  }

  lemma {:induction false} SkipPrefix(b: seq<byte>, depth: nat, c: seq<byte>)
    requires Skip(b, depth).Some?
    ensures Skip(b + c, depth) == Skip(b, depth)
    decreases |b|
  {
    hide Raw, Dec, ValueSize;
    DecPrefix(b, c);
    var (wire, n) := Dec(b).value;
    assert (b + c)[n..] == b[n..] + c;
    ValueSizePrefix(wire % 8, b[n..], c);
    var k := ValueSize(wire % 8, b[n..]).value;
    var open := OpenAfter(wire % 8, depth);
    if open > 0 {
      assert (b + c)[n + k..] == b[n + k..] + c;
      SkipPrefix(b[n + k..], open, c);
    }
  }

  lemma {:induction false} PackedPrefix(xs: seq<int>, b: seq<byte>, len: int, c: seq<byte>)
    requires ReadPacked(xs, b, len).Some?
    ensures ReadPacked(xs, b + c, len) == ReadPacked(xs, b, len)
    decreases |b|
  {
    hide Dec, I64;
    if len > 0 {
      DecPrefix(b, c);
      var (u, n) := Dec(b).value;
      assert (b + c)[n..] == b[n..] + c;
      PackedPrefix(xs + [I64(u)], b[n..], len - n, c);
    }
  }

  /** A field that parses does not look past its own bytes. */
  lemma ParsePrefix(m: Message, b: seq<byte>, c: seq<byte>)
    requires Parse(m, b).Some?
    ensures Parse(m, b + c) == Parse(m, b)
  {
    hide Skip, ReadPacked, SetBytes, SetScalar, Raw;
    DecPrefix(b, c);
    var (wire, n) := Dec(b).value;
    var num, wireType := FieldNum(wire), wire % 8;
    if KindOf(m, num) == Unknown {
      SkipPrefix(b, 0, c);
    } else {
      assert (b + c)[n..] == b[n..] + c;
      DecPrefix(b[n..], c);
      var (u, k) := Dec(b[n..]).value;
      if wireType == 2 {
        assert (b + c)[n + k..n + k + u] == b[n + k..n + k + u];
        if KindOf(m, num) == Packed {
          assert (b + c)[n + k..] == b[n + k..] + c;
          PackedPrefix(m.reputation.renderDurations, b[n + k..], u, c);
        }
      }
    }
  }

  /** When a decodes, decoding a ++ b continues with b on the message that a left - also when b fails. */
  lemma {:induction false} DecodeConcat(m: Message, a: seq<byte>, b: seq<byte>)
    requires Decode(m, a).Some?
    ensures Decode(m, a + b) == Decode(Decode(m, a).value, b)
    decreases |a|
  {
    if a == [] {
      assert a + b == b;
    } else {
      ParsePrefix(m, a, b);
      var (m', n) := Parse(m, a).value;
      assert (a + b)[n..] == a[n..] + b;
      DecodeConcat(m', a[n..], b);
    }
  }

  /** A complete unknown field changes nothing and does not disturb what follows. */
  lemma UnknownSkipped(m: Message, field: seq<byte>, rest: seq<byte>)
    requires Dec(field).Some? && Skip(field, 0) == Some(|field|)
    requires var wire := Dec(field).value.0;
      wire % 8 != 4 && FieldNum(wire) > 0 && KindOf(m, FieldNum(wire)) == Unknown
    ensures Decode(m, field + rest) == Decode(m, rest)
  {
    assert Parse(m, field) == Some((m, |field|));
    assert field[|field|..] == [];
    DecodeConcat(m, field, rest);
  }

  // ---------- one field at a time ----------

  lemma TagDecodes(num: nat, w: nat, c: seq<byte>)
    requires 1 <= num <= 15 && w < 8
    ensures Dec([Tag(num, w)] + c) == Some((Tag(num, w) as int, 1))
    ensures FieldNum(Tag(num, w)) == num && Tag(num, w) % 8 == w
  {
    DecByte(Tag(num, w), c);
    assert Tag(num, w) / 8 == num;
  }

  /** A field that takes all the bytes is all there is to decode. */
  lemma OneField(m: Message, b: seq<byte>, now: Message)
    requires Parse(m, b) == Some((now, |b|))
    ensures Decode(m, b) == Some(now)
  {
    hide Parse;
    assert b[|b|..] == [];
  }

  lemma RecordDecodes(m: Message, num: nat, p: seq<byte>)
    requires 1 <= num <= 15 && KindOf(m, num) == Length && |p| < TWO_TO_63
    requires SetBytes(m, num, p).Some?
    ensures Decode(m, Record(num, p)) == SetBytes(m, num, p)
  {
    hide SetBytes, Dec, Enc, Tag, Decode, Skip, ReadPacked;
    var b := Record(num, p);
    var l := Enc(|p|);
    assert b == [Tag(num, 2)] + (l + p);
    TagDecodes(num, 2, l + p);
    assert b[1..] == l + p;
    DecEnc(|p|, p);
    assert b[1 + |l|..1 + |l| + |p|] == p;
    OneField(m, b, SetBytes(m, num, p).value);
  }

  lemma IntDecodes(m: Message, num: nat, x: int)
    requires 1 <= num <= 15 && KindOf(m, num) == Scalar && IsI64(x)
    ensures Decode(m, EncInt(num, x)) == Some(if x == 0 then m else SetScalar(m, num, U64(x)))
  {
    hide SetScalar, Dec, Enc, Tag, Skip, ReadPacked;
    if x != 0 {
      hide Decode;
      var b, e := EncInt(num, x), Enc(U64(x));
      TagDecodes(num, 0, e);
      assert b[1..] == e + [];
      DecEnc(U64(x), []);
      OneField(m, b, SetScalar(m, num, U64(x)));
    }
  }

  lemma BoolDecodes(m: Message, num: nat, v: bool)
    requires 1 <= num <= 15 && KindOf(m, num) == Scalar
    ensures Decode(m, EncBool(num, v)) == Some(if v then SetScalar(m, num, 1) else m)
  {
    hide SetScalar, Dec, Tag, Skip, ReadPacked;
    if v {
      hide Decode;
      var b := EncBool(num, v);
      assert b == [Tag(num, 0)] + [1];
      TagDecodes(num, 0, [1]);
      assert b[1..] == [1] + [];
      DecByte(1, []);
      OneField(m, b, SetScalar(m, num, 1));
    }
  }

  /** Decoding in two parts. */
  lemma Then(m: Message, a: seq<byte>, m1: Message, b: seq<byte>, m2: Message)
    requires Decode(m, a) == Some(m1) && Decode(m1, b) == Some(m2)
    ensures Decode(m, a + b) == Some(m2)
  {
    DecodeConcat(m, a, b);
  }

  // ---------- merging: last one wins, repeated fields append ----------

  /** Go strings and slices are shorter than 2^63 bytes, counters are int64. */
  predicate FrameFits(f: Frame) {
    && |f.filename| < TWO_TO_63 && |f.signature| < TWO_TO_63 && |f.cid| < TWO_TO_63 && |f.hash| < TWO_TO_63
    && IsI64(f.validCount) && IsI64(f.invalidCount)
    && SizeFrame(f) < TWO_TO_63
  }

  predicate FramesFit(fs: seq<Frame>) {
    forall i :: 0 <= i < |fs| ==> FrameFits(fs[i])
  }

  predicate Fits(m: Message) {
    match m
    case OfFrame(f) => FrameFits(f)
    case OfValidation(v) => |v.validator| < TWO_TO_63 && FramesFit(v.frames) && |v.publicKey| < TWO_TO_63
    case OfSolution(s) =>
      |s.proposedBy| < TWO_TO_63 && FramesFit(s.frames) && |s.publicKey| < TWO_TO_63 && |s.dir| < TWO_TO_63
    case OfReputation(r) =>
      && (r.staked.Some? ==> |r.staked.value| < TWO_TO_63) && |r.winnings| < TWO_TO_63
      && IsI64(r.points) && IsI32(r.validations) && IsI32(r.solutions)
      && (forall i :: 0 <= i < |r.renderDurations| ==> IsI64(r.renderDurations[i]))
      && SizePacked(r.renderDurations) < TWO_TO_63
  }

  function Later(s: Str, t: Str): Str { if t == [] then s else t }
  function LaterInt(x: int, y: int): int { if y == 0 then x else y }

  /** The message after a second one of its kind was decoded on top of it. */
  function Merge(m: Message, n: Message): Message
    requires m.OfFrame? <==> n.OfFrame?
    requires m.OfValidation? <==> n.OfValidation?
    requires m.OfSolution? <==> n.OfSolution?
  {
    match n
    case OfFrame(g) =>
      OfFrame(Frame(Later(m.frame.filename, g.filename), Later(m.frame.signature, g.signature),
        Later(m.frame.cid, g.cid), Later(m.frame.hash, g.hash),
        LaterInt(m.frame.validCount, g.validCount), LaterInt(m.frame.invalidCount, g.invalidCount)))
    case OfValidation(v) =>
      OfValidation(Validation(Later(m.validation.validator, v.validator), m.validation.frames + v.frames,
        Later(m.validation.publicKey, v.publicKey), m.validation.isReverse || v.isReverse))
    case OfSolution(s) =>
      OfSolution(Solution(Later(m.solution.proposedBy, s.proposedBy), m.solution.frames + s.frames,
        Later(m.solution.publicKey, s.publicKey), Later(m.solution.dir, s.dir), m.solution.accepted || s.accepted))
    case OfReputation(r) =>
      var q := m.reputation;
      OfReputation(RawReputation(
        if r.staked.None? then q.staked else Some((if q.staked.Some? then q.staked.value else []) + r.staked.value),
        LaterInt(q.points, r.points), LaterInt(q.validations, r.validations), LaterInt(q.solutions, r.solutions),
        q.winnings + r.winnings, q.renderDurations + r.renderDurations))
  }

  lemma StringDecodes(m: Message, num: nat, s: Str)
    requires 1 <= num <= 15 && KindOf(m, num) == Length && |s| < TWO_TO_63
    requires SetBytes(m, num, s).Some?
    ensures Decode(m, EncBytes(num, s)) == if s == [] then Some(m) else SetBytes(m, num, s)
  {
    if s != [] { RecordDecodes(m, num, s); }
  }

  lemma FrameStrings(f: Frame, g: Frame)
    requires FrameFits(g)
    ensures Decode(OfFrame(f),
                   EncBytes(1, g.filename) + EncBytes(2, g.signature) + EncBytes(3, g.cid) + EncBytes(4, g.hash))
      == Some(OfFrame(f.(filename := Later(f.filename, g.filename), signature := Later(f.signature, g.signature),
                         cid := Later(f.cid, g.cid), hash := Later(f.hash, g.hash))))
  {
    hide Decode, EncBytes;
    var m0 := OfFrame(f);
    var m1 := OfFrame(f.(filename := Later(f.filename, g.filename)));
    var m2 := OfFrame(m1.frame.(signature := Later(f.signature, g.signature)));
    var m3 := OfFrame(m2.frame.(cid := Later(f.cid, g.cid)));
    var m4 := OfFrame(m3.frame.(hash := Later(f.hash, g.hash)));
    StringDecodes(m0, 1, g.filename);
    StringDecodes(m1, 2, g.signature);
    StringDecodes(m2, 3, g.cid);
    StringDecodes(m3, 4, g.hash);
    Then(m0, EncBytes(1, g.filename), m1, EncBytes(2, g.signature), m2);
    Then(m0, EncBytes(1, g.filename) + EncBytes(2, g.signature), m2, EncBytes(3, g.cid), m3);
    Then(m0, EncBytes(1, g.filename) + EncBytes(2, g.signature) + EncBytes(3, g.cid), m3, EncBytes(4, g.hash), m4);
  }

  lemma FrameMerges(f: Frame, g: Frame)
    requires FrameFits(g)
    ensures Decode(OfFrame(f), EncFrame(g)) == Some(Merge(OfFrame(f), OfFrame(g)))
  {
    hide Decode, EncBytes, EncInt;
    var strings := EncBytes(1, g.filename) + EncBytes(2, g.signature) + EncBytes(3, g.cid) + EncBytes(4, g.hash);
    var m4 := OfFrame(f.(filename := Later(f.filename, g.filename), signature := Later(f.signature, g.signature),
                         cid := Later(f.cid, g.cid), hash := Later(f.hash, g.hash)));
    var m5 := OfFrame(m4.frame.(validCount := LaterInt(f.validCount, g.validCount)));
    FrameStrings(f, g);
    U64Back(g.validCount);
    U64Back(g.invalidCount);
    IntDecodes(m4, 5, g.validCount);
    IntDecodes(m5, 6, g.invalidCount);
    Then(OfFrame(f), strings, m4, EncInt(5, g.validCount), m5);
    Then(OfFrame(f), strings + EncInt(5, g.validCount), m5, EncInt(6, g.invalidCount), Merge(OfFrame(f), OfFrame(g)));
  }

  /** A message with some frames appended. */
  function WithMore(m: Message, fs: seq<Frame>): Message
    requires m.OfValidation? || m.OfSolution?
  {
    match m
    case OfValidation(v) => OfValidation(v.(frames := v.frames + fs))
    case OfSolution(s) => OfSolution(s.(frames := s.frames + fs))
  }

  lemma FrameRecord(m: Message, f: Frame)
    requires (m.OfValidation? || m.OfSolution?) && FrameFits(f)
    ensures Decode(m, Record(2, EncFrame(f))) == Some(WithMore(m, [f]))
  {
    FrameMerges(EMPTY_FRAME, f);
    FrameSize(f);
    RecordDecodes(m, 2, EncFrame(f));
  }

  lemma {:induction false} FramesAppend(m: Message, fs: seq<Frame>)
    requires (m.OfValidation? || m.OfSolution?) && FramesFit(fs)
    ensures Decode(m, EncFrames(fs)) == Some(WithMore(m, fs))
  {
    hide Decode;
    if fs == [] {
      Nothing(m);
      WithNone(m);
    } else {
      var front, f := fs[..|fs| - 1], fs[|fs| - 1];
      FramesAppend(m, front);
      FrameRecord(WithMore(m, front), f);
      WithTwice(m, front, [f]);
      assert front + [f] == fs;
      Then(m, EncFrames(front), WithMore(m, front), Record(2, EncFrame(f)), WithMore(m, fs));
    }
  }

  lemma Nothing(m: Message)
    ensures Decode(m, []) == Some(m)
  {
  }

  lemma WithNone(m: Message)
    requires m.OfValidation? || m.OfSolution?
    ensures WithMore(m, []) == m
  {
    match m
    case OfValidation(v) => assert v.frames + [] == v.frames;
    case OfSolution(s) => assert s.frames + [] == s.frames;
  }

  lemma WithTwice(m: Message, fs: seq<Frame>, gs: seq<Frame>)
    requires m.OfValidation? || m.OfSolution?
    ensures WithMore(WithMore(m, fs), gs) == WithMore(m, fs + gs)
  {
    match m
    case OfValidation(v) => assert v.frames + fs + gs == v.frames + (fs + gs);
    case OfSolution(s) => assert s.frames + fs + gs == s.frames + (fs + gs);
  }

  lemma ValidationMerges(u: Validation, v: Validation)
    requires Fits(OfValidation(v))
    ensures Decode(OfValidation(u), EncValidation(v)) == Some(Merge(OfValidation(u), OfValidation(v)))
  {
    hide Decode, EncBytes, EncBool, EncFrames;
    var m0 := OfValidation(u);
    var m1 := OfValidation(u.(validator := Later(u.validator, v.validator)));
    var m2 := WithMore(m1, v.frames);
    var m3 := OfValidation(m2.validation.(publicKey := Later(u.publicKey, v.publicKey)));
    StringDecodes(m0, 1, v.validator);
    FramesAppend(m1, v.frames);
    StringDecodes(m2, 3, v.publicKey);
    BoolDecodes(m3, 4, v.isReverse);
    Then(m0, EncBytes(1, v.validator), m1, EncFrames(v.frames), m2);
    Then(m0, EncBytes(1, v.validator) + EncFrames(v.frames), m2, EncBytes(3, v.publicKey), m3);
    Then(m0, EncBytes(1, v.validator) + EncFrames(v.frames) + EncBytes(3, v.publicKey), m3,
         EncBool(4, v.isReverse), Merge(m0, OfValidation(v)));
  }

  lemma SolutionMerges(q: Solution, s: Solution)
    requires Fits(OfSolution(s))
    ensures Decode(OfSolution(q), EncSolution(s)) == Some(Merge(OfSolution(q), OfSolution(s)))
  {
    hide Decode, EncBytes, EncBool, EncFrames;
    var m0 := OfSolution(q);
    var m1 := OfSolution(q.(proposedBy := Later(q.proposedBy, s.proposedBy)));
    var m2 := WithMore(m1, s.frames);
    var m3 := OfSolution(m2.solution.(publicKey := Later(q.publicKey, s.publicKey)));
    var m4 := OfSolution(m3.solution.(dir := Later(q.dir, s.dir)));
    StringDecodes(m0, 1, s.proposedBy);
    FramesAppend(m1, s.frames);
    StringDecodes(m2, 3, s.publicKey);
    StringDecodes(m3, 4, s.dir);
    BoolDecodes(m4, 5, s.accepted);
    Then(m0, EncBytes(1, s.proposedBy), m1, EncFrames(s.frames), m2);
    Then(m0, EncBytes(1, s.proposedBy) + EncFrames(s.frames), m2, EncBytes(3, s.publicKey), m3);
    Then(m0, EncBytes(1, s.proposedBy) + EncFrames(s.frames) + EncBytes(3, s.publicKey), m3, EncBytes(4, s.dir), m4);
    Then(m0, EncBytes(1, s.proposedBy) + EncFrames(s.frames) + EncBytes(3, s.publicKey) + EncBytes(4, s.dir), m4,
         EncBool(5, s.accepted), Merge(m0, OfSolution(s)));
  }

  // ---------- packed durations ----------

  lemma {:induction false} PackedDecodes(pre: seq<int>, xs: seq<int>, c: seq<byte>)
    requires forall i :: 0 <= i < |xs| ==> IsI64(xs[i])
    ensures ReadPacked(pre, EncPacked(xs) + c, |EncPacked(xs)|) == Some((pre + xs, |EncPacked(xs)|))
    decreases |xs|
  {
    hide Raw, Dec, Enc, U64, I64;
    if xs == [] {
      assert pre + xs == pre;
    } else {
      PackedFront(xs);
      var x, rest := xs[0], xs[1..];
      var tail := EncPacked(rest);
      assert EncPacked(xs) + c == Enc(U64(x)) + (tail + c);
      U64Back(x);
      DecEnc(U64(x), tail + c);
      assert (Enc(U64(x)) + (tail + c))[|Enc(U64(x))|..] == tail + c;
      PackedDecodes(pre + [x], rest, c);
      assert pre + [x] + rest == pre + xs;
    }
  }

  lemma PackedLast(xs: seq<int>, x: int)
    ensures EncPacked(xs + [x]) == EncPacked(xs) + Enc(U64(x))
  {
    assert (xs + [x])[..|xs|] == xs;
  }

  lemma {:induction false} PackedFront(xs: seq<int>)
    requires xs != []
    ensures EncPacked(xs) == Enc(U64(xs[0])) + EncPacked(xs[1..])
    decreases |xs|
  {
    hide Enc, U64, EncPacked;
    var front, x := xs[..|xs| - 1], xs[|xs| - 1];
    assert xs == front + [x];
    PackedLast(front, x);
    if front == [] {
      assert xs[1..] == [];
      PackedLast([], x);
      PackedNone();
    } else {
      PackedFront(front);
      assert xs[1..] == front[1..] + [x];
      PackedLast(front[1..], x);
    }
  }

  lemma PackedNone()
    ensures EncPacked([]) == []
  {
  }

  /** The packed field 6 appends the durations; so does each unpacked occurrence. */
  lemma DurationsDecode(m: Message, xs: seq<int>)
    requires m.OfReputation? && |EncPacked(xs)| < TWO_TO_63
    requires forall i :: 0 <= i < |xs| ==> IsI64(xs[i])
    ensures Decode(m, Record(6, EncPacked(xs))) == Some(WithDurations(m, m.reputation.renderDurations + xs))
  {
    hide Raw, Enc, EncPacked, ReadPacked;
    var p := EncPacked(xs);
    var b, l := Record(6, p), Enc(|p|);
    assert b == [Tag(6, 2)] + (l + p);
    TagDecodes(6, 2, l + p);
    assert b[1..] == l + p;
    DecEnc(|p|, p);
    assert b[1 + |l|..] == p + [];
    PackedDecodes(m.reputation.renderDurations, xs, []);
    assert b[|b|..] == [];
  }

  /** Each unpacked occurrence of field 6 appends its one duration, as if it had been packed. */
  lemma UnpackedDuration(m: Message, x: int)
    requires m.OfReputation? && IsI64(x)
    ensures Decode(m, [Tag(6, 0)] + Enc(U64(x))) == Some(WithDurations(m, m.reputation.renderDurations + [x]))
  {
    hide Raw, Enc;
    U64Back(x);
    var b, e := [Tag(6, 0)] + Enc(U64(x)), Enc(U64(x));
    TagDecodes(6, 0, e);
    assert b[1..] == e + [];
    DecEnc(U64(x), []);
    assert b[|b|..] == [];
  }

  lemma ReputationHead(q: RawReputation, r: RawReputation)
    requires Fits(OfReputation(r))
    ensures Decode(OfReputation(q),
        (match r.staked case None => [] case Some(c) => Record(1, c))
          + EncInt(2, r.points) + EncInt(3, r.validations) + EncInt(4, r.solutions))
      == Some(OfReputation(q.(
        staked := (if r.staked.None? then q.staked
                   else Some((if q.staked.Some? then q.staked.value else []) + r.staked.value)),
        points := LaterInt(q.points, r.points), validations := LaterInt(q.validations, r.validations),
        solutions := LaterInt(q.solutions, r.solutions))))
  {
    hide Decode, EncInt, Record;
    var head := match r.staked case None => [] case Some(c) => Record(1, c);
    var m0 := OfReputation(q);
    var m1 := OfReputation(q.(staked :=
      if r.staked.None? then q.staked else Some((if q.staked.Some? then q.staked.value else []) + r.staked.value)));
    var m2 := OfReputation(m1.reputation.(points := LaterInt(q.points, r.points)));
    var m3 := OfReputation(m2.reputation.(validations := LaterInt(q.validations, r.validations)));
    var m4 := OfReputation(m3.reputation.(solutions := LaterInt(q.solutions, r.solutions)));
    Nothing(m0);
    if r.staked.Some? { RecordDecodes(m0, 1, r.staked.value); }
    U64Back(r.points);
    U64Back(r.validations);
    U64Back(r.solutions);
    IntDecodes(m1, 2, r.points);
    IntDecodes(m2, 3, r.validations);
    IntDecodes(m3, 4, r.solutions);
    Then(m0, head, m1, EncInt(2, r.points), m2);
    Then(m0, head + EncInt(2, r.points), m2, EncInt(3, r.validations), m3);
    Then(m0, head + EncInt(2, r.points) + EncInt(3, r.validations), m3, EncInt(4, r.solutions), m4);
  }

  lemma ReputationMerges(q: RawReputation, r: RawReputation)
    requires Fits(OfReputation(r))
    ensures Decode(OfReputation(q), EncReputation(r)) == Some(Merge(OfReputation(q), OfReputation(r)))
  {
    hide Decode, EncInt, Record, EncPacked;
    var head := (match r.staked case None => [] case Some(c) => Record(1, c))
      + EncInt(2, r.points) + EncInt(3, r.validations) + EncInt(4, r.solutions);
    var m0 := OfReputation(q);
    ReputationHead(q, r);
    var m4 := Decode(m0, head).value;
    var m5 := OfReputation(m4.reputation.(winnings := q.winnings + r.winnings));
    RecordDecodes(m4, 5, r.winnings);
    Then(m0, head, m4, Record(5, r.winnings), m5);
    var m6 := Merge(m0, OfReputation(r));
    if r.renderDurations == [] {
      Nothing(m5);
      assert q.renderDurations + r.renderDurations == q.renderDurations;
      Then(m0, head + Record(5, r.winnings), m5, [], m6);
    } else {
      PackedSize(r.renderDurations);
      DurationsDecode(m5, r.renderDurations);
      Then(m0, head + Record(5, r.winnings), m5, Record(6, EncPacked(r.renderDurations)), m6);
    }
  }

  // ---------- the laws ----------

  predicate SameKind(m: Message, n: Message) {
    && (m.OfFrame? <==> n.OfFrame?) && (m.OfValidation? <==> n.OfValidation?) && (m.OfSolution? <==> n.OfSolution?)
  }

  /** Decoding an encoded message onto any message of its kind merges the two. */
  lemma EncodingMerges(m: Message, n: Message)
    requires SameKind(m, n) && Fits(n)
    ensures Decode(m, Encode(n)) == Some(Merge(m, n))
  {
    match n
    case OfFrame(g) => FrameMerges(m.frame, g);
    case OfValidation(v) => ValidationMerges(m.validation, v);
    case OfSolution(s) => SolutionMerges(m.solution, s);
    case OfReputation(r) => ReputationMerges(m.reputation, r);
  }

  function Empty(m: Message): Message {
    match m
    case OfFrame(_) => OfFrame(EMPTY_FRAME)
    case OfValidation(_) => OfValidation(EMPTY_VALIDATION)
    case OfSolution(_) => OfSolution(EMPTY_SOLUTION)
    case OfReputation(_) => OfReputation(EMPTY_REPUTATION)
  }

  lemma MergeEmpty(m: Message)
    ensures Merge(Empty(m), m) == m
  {
    match m
    case OfFrame(_) =>
    case OfValidation(v) => assert [] + v.frames == v.frames;
    case OfSolution(s) => assert [] + s.frames == s.frames;
    case OfReputation(r) =>
      assert [] + r.winnings == r.winnings && [] + r.renderDurations == r.renderDurations;
      if r.staked.Some? { assert [] + r.staked.value == r.staked.value; }
  }

  /** Round trip: Unmarshal of a marshalled message into an empty one returns the message. */
  lemma RoundTrip(m: Message)
    requires Fits(m)
    ensures Decode(Empty(m), Encode(m)) == Some(m)
  {
    EncodingMerges(Empty(m), m);
    MergeEmpty(m);
  }

  /** The encoding determines the message. */
  lemma EncodingInjective(m: Message, n: Message)
    requires Fits(m) && Fits(n) && SameKind(m, n) && Encode(m) == Encode(n)
    ensures m == n
  {
    RoundTrip(m);
    RoundTrip(n);
    match m
    case OfFrame(_) =>
    case OfValidation(_) =>
    case OfSolution(_) =>
    case OfReputation(_) =>
  }
}
