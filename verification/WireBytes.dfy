/** The wire format byte by byte: field numbers and layouts, what a varint is worth, how unknown records of
    every wire type are passed over, and what is rejected. */
module WireBytes {
  import opened Basics
  import opened Protocol
  import opened Varint
  import opened Wire
  import opened WireProofs

  // ---------- varints ----------

  /** The value seven bits at a time, the least significant first. */
  function Worth(s: seq<byte>): nat {
    if s == [] then 0 else s[0] % 128 + 128 * Worth(s[1..])
  }

  /** One varint and nothing else: all bytes but the last have the high bit. */
  predicate IsVarint(s: seq<byte>) {
    s != [] && s[|s| - 1] < 128 && forall i :: 0 <= i < |s| - 1 ==> s[i] >= 128
  }

  /** The encoder writes a varint worth the value. */
  lemma {:induction false} EncWorth(v: nat)
    ensures IsVarint(Enc(v)) && Worth(Enc(v)) == v
  {
    if v >= 128 {
      var s := Enc(v);
      EncWorth(v / 128);
      assert s[0] == v % 128 + 128 && s[1..] == Enc(v / 128);
      LowSeven(v);
      VarintTail(s);
    } else {
      assert Enc(v)[1..] == [];
    }
  }

  lemma LowSeven(v: nat)
    ensures (v % 128 + 128) % 128 + 128 * (v / 128) == v
  {
  }

  lemma {:induction false} RawMeans(b: seq<byte>, k: nat)
    requires k <= 10
    ensures Raw(b, k).Some? ==>
      var (v, n) := Raw(b, k).value;
      k + n <= 10 && IsVarint(b[..n]) && v == Worth(b[..n])
    ensures Raw(b, k).None? ==> forall n :: 1 <= n <= |b| && k + n <= 10 ==> !IsVarint(b[..n])
    decreases |b|
  {
    if k < 10 && b != [] {
      if b[0] < 128 {
        assert b[..1][1..] == [];
      } else {
        RawMeans(b[1..], k + 1);
        forall n | 1 <= n <= |b| ensures b[..n][1..] == b[1..][..n - 1] { }
        forall n | 1 < n <= |b| ensures IsVarint(b[..n]) <==> IsVarint(b[1..][..n - 1]) { VarintTail(b[..n]); }
      }
    }
  }

  lemma VarintTail(s: seq<byte>)
    requires |s| > 1 && s[0] >= 128
    ensures IsVarint(s) <==> IsVarint(s[1..])
  {
    var t := s[1..];
    assert t[|t| - 1] == s[|s| - 1];
    assert forall i :: 0 <= i < |t| ==> t[i] == s[i + 1];
    assert forall i :: 1 <= i < |s| ==> s[i] == t[i - 1];
  }

  /** The decoding loop reads a varint of at most ten bytes, if the input starts with one, and keeps the low
      64 bits of its worth. */
  lemma DecMeans(b: seq<byte>)
    ensures Dec(b).Some? ==>
      var (v, n) := Dec(b).value;
      n <= 10 && IsVarint(b[..n]) && v == Worth(b[..n]) % TWO_TO_64
    ensures Dec(b).None? ==> forall n :: 1 <= n <= |b| && n <= 10 ==> !IsVarint(b[..n])
  {
    RawMeans(b, 0);
  }

  /** Minus one takes ten bytes. */
  lemma MinusOne()
    ensures Enc(U64(-1)) == [255, 255, 255, 255, 255, 255, 255, 255, 255, 1]
  {
    var m := TWO_TO_64 - 1;
    assert U64(-1) == m;
    AllOnes(m, 9);
    assert Ones(0) == [] && Ones(9) == [255, 255, 255, 255, 255, 255, 255, 255, 255];
  }

  function Ones(k: nat): seq<byte> { if k == 0 then [] else [255] + Ones(k - 1) }

  lemma {:induction false} AllOnes(m: nat, k: nat)
    requires m == 2 * Pow128(k) - 1
    ensures Enc(m) == Ones(k) + [1]
  {
    if k > 0 {
      assert m % 128 == 127 && m / 128 == 2 * Pow128(k - 1) - 1;
      AllOnes(m / 128, k - 1);
    }
  }

  // ---------- layouts ----------

  /** A string field; empty ones are left out. */
  function Text(tag: byte, s: seq<byte>): seq<byte> { if s == [] then [] else Field(tag, s) }

  /** An integer field in two's complement; zero is left out. */
  function Number(tag: byte, x: int): seq<byte> { if x == 0 then [] else [tag] + Enc(x % TWO_TO_64) }

  function Flag(tag: byte, b: bool): seq<byte> { if b then [tag, 1] else [] }

  function Field(tag: byte, payload: seq<byte>): seq<byte> { [tag] + Enc(|payload|) + payload }

  /** Records of the same tag, one after the other. */
  function Records(tag: byte, payloads: seq<seq<byte>>): seq<byte> {
    if payloads == [] then []
    else Records(tag, payloads[..|payloads| - 1]) + Field(tag, payloads[|payloads| - 1])
  }

  lemma FrameLayout(f: Frame)
    ensures Encode(OfFrame(f)) ==
      Text(0x0a, f.filename) + Text(0x12, f.signature) + Text(0x1a, f.cid) + Text(0x22, f.hash)
        + Number(0x28, f.validCount) + Number(0x30, f.invalidCount)
  {
  }

  function Payloads(fs: seq<Frame>): seq<seq<byte>> {
    seq(|fs|, i requires 0 <= i < |fs| => Encode(OfFrame(fs[i])))
  }

  lemma NoPayloads()
    ensures Payloads([]) == []
  {
  }

  lemma LastPayload(fs: seq<Frame>)
    requires fs != []
    ensures var n := |fs| - 1;
      |Payloads(fs)| == n + 1 && Payloads(fs)[..n] == Payloads(fs[..n]) && Payloads(fs)[n] == EncFrame(fs[n])
  {
  }

  lemma {:induction false} FramesLayout(fs: seq<Frame>)
    ensures EncFrames(fs) == Records(0x12, Payloads(fs))
  {
    hide Enc, Encode, EncFrame, Payloads;
    if fs == [] {
      assert |Payloads(fs)| == 0 by { NoPayloads(); }
    } else {
      var n := |fs| - 1;
      FramesLayout(fs[..n]);
      LastPayload(fs);
      assert Tag(2, 2) == 0x12;
    }
  }

  lemma ValidationLayout(v: Validation)
    ensures Encode(OfValidation(v)) ==
      Text(0x0a, v.validator) + Records(0x12, Payloads(v.frames)) + Text(0x1a, v.publicKey) + Flag(0x20, v.isReverse)
  {
    FramesLayout(v.frames);
  }

  lemma SolutionLayout(s: Solution)
    ensures Encode(OfSolution(s)) ==
      Text(0x0a, s.proposedBy) + Records(0x12, Payloads(s.frames)) + Text(0x1a, s.publicKey) + Text(0x22, s.dir)
        + Flag(0x28, s.accepted)
  {
    FramesLayout(s.frames);
  }

  /** The durations, one varint after the other. */
  function Durations(xs: seq<int>): seq<byte> {
    if xs == [] then [] else Durations(xs[..|xs| - 1]) + Enc(xs[|xs| - 1] % TWO_TO_64)
  }

  lemma {:induction false} PackedLayout(xs: seq<int>)
    ensures EncPacked(xs) == Durations(xs)
  {
    if xs != [] { PackedLayout(xs[..|xs| - 1]); }
  }

  lemma ReputationLayout(r: RawReputation)
    ensures Encode(OfReputation(r)) ==
      (if r.staked.Some? then Field(0x0a, r.staked.value) else [])
        + Number(0x10, r.points) + Number(0x18, r.validations) + Number(0x20, r.solutions)
        + Field(0x2a, r.winnings)
        + (if r.renderDurations == [] then [] else Field(0x32, Durations(r.renderDurations)))
  {
    PackedLayout(r.renderDurations);
  }

  // ---------- scalars ----------

  /** A tag byte and a varint are one scalar field. */
  lemma ScalarField(m: Message, num: nat, u: nat)
    requires 1 <= num <= 15 && KindOf(m, num) == Scalar && u < TWO_TO_64
    ensures Decode(m, [(num * 8) as byte] + Enc(u)) == Some(SetScalar(m, num, u))
  {
    hide SetScalar, Dec, Enc, Skip, ReadPacked, Decode;
    var b := [num * 8] + Enc(u);
    assert Tag(num, 0) == num * 8;
    TagDecodes(num, 0, Enc(u));
    assert b[1..] == Enc(u) + [];
    DecEnc(u, []);
    OneField(m, b, SetScalar(m, num, u));
  }

  /** What the scalar fields become: counters are two's complement of 64 bits, or of the low 32 bits for
      int32 fields, and any non-zero varint is true. */
  lemma ScalarValues(u: nat)
    requires u < TWO_TO_64
    ensures var x := if u < TWO_TO_63 then u else u - TWO_TO_64;
      var y := if u % TWO_TO_32 < TWO_TO_31 then u % TWO_TO_32 else u % TWO_TO_32 - TWO_TO_32;
      && (forall f :: Decode(OfFrame(f), [0x28] + Enc(u)) == Some(OfFrame(f.(validCount := x))))
      && (forall f :: Decode(OfFrame(f), [0x30] + Enc(u)) == Some(OfFrame(f.(invalidCount := x))))
      && (forall v :: Decode(OfValidation(v), [0x20] + Enc(u)) == Some(OfValidation(v.(isReverse := u != 0))))
      && (forall s :: Decode(OfSolution(s), [0x28] + Enc(u)) == Some(OfSolution(s.(accepted := u != 0))))
      && (forall r :: Decode(OfReputation(r), [0x10] + Enc(u)) == Some(OfReputation(r.(points := x))))
      && (forall r :: Decode(OfReputation(r), [0x18] + Enc(u)) == Some(OfReputation(r.(validations := y))))
      && (forall r :: Decode(OfReputation(r), [0x20] + Enc(u)) == Some(OfReputation(r.(solutions := y))))
  {
    hide Decode, Enc;
    forall f ensures Decode(OfFrame(f), [0x28] + Enc(u)) == Some(SetScalar(OfFrame(f), 5, u))
    { ScalarField(OfFrame(f), 5, u); }
    forall f ensures Decode(OfFrame(f), [0x30] + Enc(u)) == Some(SetScalar(OfFrame(f), 6, u))
    { ScalarField(OfFrame(f), 6, u); }
    forall v ensures Decode(OfValidation(v), [0x20] + Enc(u)) == Some(SetScalar(OfValidation(v), 4, u))
    { ScalarField(OfValidation(v), 4, u); }
    forall s ensures Decode(OfSolution(s), [0x28] + Enc(u)) == Some(SetScalar(OfSolution(s), 5, u))
    { ScalarField(OfSolution(s), 5, u); }
    forall r ensures Decode(OfReputation(r), [0x10] + Enc(u)) == Some(SetScalar(OfReputation(r), 2, u))
    { ScalarField(OfReputation(r), 2, u); }
    forall r ensures Decode(OfReputation(r), [0x18] + Enc(u)) == Some(SetScalar(OfReputation(r), 3, u))
    { ScalarField(OfReputation(r), 3, u); }
    forall r ensures Decode(OfReputation(r), [0x20] + Enc(u)) == Some(SetScalar(OfReputation(r), 4, u))
    { ScalarField(OfReputation(r), 4, u); }
  }

  // ---------- unknown records ----------

  /** A record of any wire type. The end of a group need not repeat its number. */
  datatype Record =
    | VarintRecord(num: nat, value: nat)
    | Fixed64(num: nat, bytes: seq<byte>)
    | Bytes(num: nat, payload: seq<byte>)
    | Fixed32(num: nat, bytes: seq<byte>)
    | Group(num: nat, fields: seq<Record>, end: nat)

  const MAX_FIELD: int := 0x2000_0000

  predicate WellFormed(r: Record) {
    && 1 <= r.num < MAX_FIELD
    && match r
       case VarintRecord(_, value) => value < TWO_TO_64
       case Fixed64(_, bytes) => |bytes| == 8
       case Bytes(_, payload) => |payload| < TWO_TO_63
       case Fixed32(_, bytes) => |bytes| == 4
       case Group(_, fields, end) => end < MAX_FIELD && forall i :: 0 <= i < |fields| ==> WellFormed(fields[i])
  }

  /** Its bytes: the tag is eight times the number plus the wire type. */
  function Written(r: Record): seq<byte> {
    match r
    case VarintRecord(num, value) => Enc(8 * num) + Enc(value)
    case Fixed64(num, bytes) => Enc(8 * num + 1) + bytes
    case Bytes(num, payload) => Enc(8 * num + 2) + Enc(|payload|) + payload
    case Group(num, fields, end) => Enc(8 * num + 3) + WrittenAll(r, fields) + Enc(8 * end + 4)
    case Fixed32(num, bytes) => Enc(8 * num + 5) + bytes
  }

  function WrittenAll(ghost r: Record, fields: seq<Record>): seq<byte>
    requires forall i :: 0 <= i < |fields| ==> fields[i] < r
    decreases r, 0, |fields|
  {
    if fields == [] then [] else Written(fields[0]) + WrittenAll(r, fields[1..])
  }

  /** n bytes more than a count, if there is one. */
  function Plus(n: nat, count: Option<nat>): Option<nat> {
    if count.None? then None else Some(n + count.value)
  }

  /** One tag with its value, followed by anything. */
  lemma SkipTag(num: nat, w: nat, body: seq<byte>, rest: seq<byte>, depth: nat)
    requires num < MAX_FIELD && w < 6 && ValueSize(w, body + rest) == Some(|body|)
    ensures var n := |Enc(8 * num + w)| + |body|;
      var open := if w == 3 then depth + 1 else if w == 4 then depth - 1 else depth;
      Skip(Enc(8 * num + w) + body + rest, depth) ==
        if open < 0 then None else if open == 0 then Some(n) else Plus(n, Skip(rest, open))
  {
    hide Dec, Enc, ValueSize, Skip;
    var t := Enc(8 * num + w);
    var b := t + body + rest;
    assert b == t + (body + rest);
    DecEnc(8 * num + w, body + rest);
    assert b[|t|..] == body + rest;
    assert b[|t| + |body|..] == rest;
    FieldNumber(num, w);
    SkipUnfolds(b, depth, w, 8 * num + w, |t|, |body|);
  }

  lemma SkipUnfolds(b: seq<byte>, depth: nat, w: nat, wire: nat, n: nat, k: nat)
    requires Dec(b) == Some((wire, n)) && wire % 8 == w && ValueSize(w, b[n..]) == Some(k) && n + k <= |b|
    ensures var open := if w == 3 then depth + 1 else if w == 4 then depth - 1 else depth;
      Skip(b, depth) ==
        if open < 0 then None else if open == 0 then Some(n + k) else Plus(n + k, Skip(b[n + k..], open))
  {
    hide Dec, ValueSize;
  }

  /** A well-formed record is passed over, at any depth of open groups. */
  lemma {:induction false} SkipWritten(r: Record, rest: seq<byte>, depth: nat)
    requires WellFormed(r)
    ensures var n := |Written(r)|;
      Skip(Written(r) + rest, depth) == if depth == 0 then Some(n) else Plus(n, Skip(rest, depth))
    decreases r, 1
  {
    hide Skip, Enc, Dec, Raw, ValueSize;
    match r
    case VarintRecord(num, value) =>
      VarintSize(value, rest);
      SkipTag(num, 0, Enc(value), rest, depth);
    case Fixed64(num, bytes) =>
      FixedSizes(bytes + rest);
      SkipTag(num, 1, bytes, rest, depth);
    case Bytes(num, payload) =>
      LengthSize(payload, rest);
      SkipTag(num, 2, Enc(|payload|) + payload, rest, depth);
      assert Written(r) == Enc(8 * num + 2) + (Enc(|payload|) + payload);
    case Group(num, fields, end) => SkipGroup(r, rest, depth);
    case Fixed32(num, bytes) =>
      FixedSizes(bytes + rest);
      SkipTag(num, 5, bytes, rest, depth);
  }

  lemma {:induction false} SkipGroup(r: Record, rest: seq<byte>, depth: nat)
    requires r.Group? && WellFormed(r)
    ensures var n := |Written(r)|;
      Skip(Written(r) + rest, depth) == if depth == 0 then Some(n) else Plus(n, Skip(rest, depth))
    decreases r, 0
  {
    hide Skip, Enc, Dec, Raw, ValueSize, Written, WrittenAll;
    var start, inner, close := Enc(8 * r.num + 3), WrittenAll(r, r.fields), Enc(8 * r.end + 4);
    OpenTag(r.num, inner + (close + rest), depth);
    SkipAll(r, r.fields, close + rest, depth + 1);
    CloseTag(r.end, rest, depth);
    assert Written(r) == start + inner + close by { GroupBytes(r); }
    assert start + (inner + (close + rest)) == start + inner + close + rest;
  }

  lemma GroupBytes(r: Record)
    requires r.Group?
    ensures Written(r) == Enc(8 * r.num + 3) + WrittenAll(r, r.fields) + Enc(8 * r.end + 4)
  {
  }

  lemma OpenTag(num: nat, rest: seq<byte>, depth: nat)
    requires num < MAX_FIELD
    ensures Skip(Enc(8 * num + 3) + rest, depth) == Plus(|Enc(8 * num + 3)|, Skip(rest, depth + 1))
  {
    hide Skip, Enc, ValueSize;
    FixedSizes([] + rest);
    SkipTag(num, 3, [], rest, depth);
    assert Enc(8 * num + 3) + [] == Enc(8 * num + 3);
  }

  lemma CloseTag(num: nat, rest: seq<byte>, depth: nat)
    requires num < MAX_FIELD
    ensures var n := |Enc(8 * num + 4)|;
      Skip(Enc(8 * num + 4) + rest, depth + 1) == if depth == 0 then Some(n) else Plus(n, Skip(rest, depth))
  {
    hide Skip, Enc, ValueSize;
    FixedSizes([] + rest);
    SkipTag(num, 4, [], rest, depth + 1);
    assert Enc(8 * num + 4) + [] == Enc(8 * num + 4);
  }

  lemma FixedSizes(b: seq<byte>)
    ensures ValueSize(1, b) == Some(8) && ValueSize(5, b) == Some(4)
    ensures ValueSize(3, b) == Some(0) && ValueSize(4, b) == Some(0)
  {
  }

  lemma LengthSize(payload: seq<byte>, rest: seq<byte>)
    requires |payload| < TWO_TO_63
    ensures ValueSize(2, Enc(|payload|) + payload + rest) == Some(|Enc(|payload|) + payload|)
  {
    hide Enc, Dec;
    assert Enc(|payload|) + payload + rest == Enc(|payload|) + (payload + rest);
    DecEnc(|payload|, payload + rest);
  }

  lemma VarintSize(value: nat, rest: seq<byte>)
    requires value < TWO_TO_64
    ensures ValueSize(0, Enc(value) + rest) == Some(|Enc(value)|)
  {
    hide Enc;
    EncTen(value);
    RawEnc(value, 0, rest);
  }

  lemma {:induction false} SkipAll(r: Record, fields: seq<Record>, rest: seq<byte>, depth: nat)
    requires depth > 0
    requires forall i :: 0 <= i < |fields| ==> fields[i] < r && WellFormed(fields[i])
    ensures Skip(WrittenAll(r, fields) + rest, depth) == Plus(|WrittenAll(r, fields)|, Skip(rest, depth))
    decreases r, 0, |fields|
  {
    hide Skip;
    if fields == [] {
      assert WrittenAll(r, fields) + rest == rest;
    } else {
      var head, tail := Written(fields[0]), WrittenAll(r, fields[1..]);
      SkipWritten(fields[0], tail + rest, depth);
      SkipAll(r, fields[1..], rest, depth);
      assert head + (tail + rest) == WrittenAll(r, fields) + rest;
    }
  }

  /** The largest field number of each message. */
  function LastField(m: Message): nat {
    match m case OfFrame(_) => 6 case OfValidation(_) => 4 case OfSolution(_) => 5 case OfReputation(_) => 6
  }

  /** A well-formed record with a number the message does not know changes nothing, whatever its wire type
      and however its groups are nested. */
  lemma UnknownRecordIgnored(m: Message, r: Record, rest: seq<byte>)
    requires WellFormed(r) && r.num > LastField(m)
    ensures Decode(m, Written(r) + rest) == Decode(m, rest)
  {
    hide Skip, Dec, Enc, Decode;
    var field := Written(r);
    assert field + [] == field;
    SkipWritten(r, [], 0);
    var w := TagOf(r);
    FieldNumber(r.num, w);
    UnknownSkipped(m, field, rest);
  }

  /** A written record starts with its tag; returns the wire type. */
  lemma TagOf(r: Record) returns (w: nat)
    requires WellFormed(r)
    ensures w < 6 && w != 4 && Dec(Written(r)) == Some((8 * r.num + w, |Enc(8 * r.num + w)|))
  {
    hide Enc, Dec;
    w := match r case VarintRecord(_, _) => 0 case Fixed64(_, _) => 1 case Bytes(_, _) => 2
                 case Group(_, _, _) => 3 case Fixed32(_, _) => 5;
    var t := Enc(8 * r.num + w);
    assert Written(r) == t + Written(r)[|t|..];
    DecEnc(8 * r.num + w, Written(r)[|t|..]);
  }

  lemma FieldNumber(num: nat, w: nat)
    requires num < MAX_FIELD && w < 8
    ensures FieldNum(8 * num + w) == num && (8 * num + w) % 8 == w
  {
    assert (8 * num + w) / 8 == num;
  }

  // ---------- what is rejected ----------

  /** The end of a group that is not open, and field number zero. */
  lemma StrayTagsFail(m: Message, num: nat, w: nat, rest: seq<byte>)
    requires num < MAX_FIELD && w < 8 && (w == 4 || num == 0)
    ensures Decode(m, Enc(8 * num + w) + rest) == None
  {
    hide Skip, Enc, Dec;
    FieldNumber(num, w);
    DecEnc(8 * num + w, rest);
  }

  /** A known field with another wire type: strings and frames take 2, numbers and flags 0, durations both. */
  lemma WrongTypeFails(m: Message, num: nat, w: nat, rest: seq<byte>)
    requires 1 <= num <= LastField(m) && w < 8
    requires match m
      case OfFrame(_) => w != (if num <= 4 then 2 else 0)
      case OfValidation(_) => w != (if num <= 3 then 2 else 0)
      case OfSolution(_) => w != (if num <= 4 then 2 else 0)
      case OfReputation(_) => if num == 6 then w != 0 && w != 2 else w != (if num == 1 || num == 5 then 2 else 0)
    ensures Decode(m, Enc(8 * num + w) + rest) == None
  {
    hide Skip, Enc, Dec, ReadPacked, SetBytes, SetScalar;
    FieldNumber(num, w);
    DecEnc(8 * num + w, rest);
  }

  /** A string, a frame or packed durations that announce more bytes than follow. */
  lemma CutOffFails(m: Message, num: nat, length: nat, rest: seq<byte>)
    requires 1 <= num <= LastField(m) && length < TWO_TO_64 && |rest| < length
    ensures Decode(m, Enc(8 * num + 2) + Enc(length) + rest) == None
  {
    hide Skip, Enc, Dec, ReadPacked, SetBytes, SetScalar;
    var t, l := Enc(8 * num + 2), Enc(length);
    FieldNumber(num, 2);
    DecEnc(8 * num + 2, l + rest);
    var b := t + l + rest;
    assert b == t + (l + rest);
    assert b[|t|..] == l + rest;
    DecEnc(length, rest);
  }
}
