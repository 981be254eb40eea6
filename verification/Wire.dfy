/** The wire format of Frame, Validation, Solution and Reputation (types.pb.go): what the generated
    marshal and unmarshal code computes. It is the Protocol Buffers encoding. */
module Wire {
  import opened Basics
  import opened Protocol
  import opened Varint

  /** Worker_Reputation with its two Coin fields kept as the bytes received for them, because the Coin
      codec is not part of this model; several occurrences of the field add up. */
  datatype RawReputation = RawReputation(
    staked: Option<seq<byte>>, points: int, validations: int, solutions: int, winnings: seq<byte>,
    renderDurations: seq<int>)

  datatype Message =
    | OfFrame(frame: Frame)
    | OfValidation(validation: Validation)
    | OfSolution(solution: Solution)
    | OfReputation(reputation: RawReputation)

  const EMPTY_FRAME := Frame([], [], [], [], 0, 0)
  const EMPTY_VALIDATION := Validation([], [], [], false)
  const EMPTY_SOLUTION := Solution([], [], [], [], false)
  const EMPTY_REPUTATION := RawReputation(None, 0, 0, 0, [], [])

  // ---------- encoding ----------

  function Tag(num: nat, wireType: nat): byte
    requires 1 <= num <= 15 && wireType < 8
  {
    num * 8 + wireType
  }

  /** A length-delimited record. */
  function Record(num: nat, payload: seq<byte>): seq<byte>
    requires 1 <= num <= 15
  {
    [Tag(num, 2)] + Enc(|payload|) + payload
  }

  /** A string field; empty ones are left out. */
  function EncBytes(num: nat, s: Str): seq<byte>
    requires 1 <= num <= 15
  {
    if s == [] then [] else Record(num, s)
  }

  /** An int64 or int32 field; zero is left out. */
  function EncInt(num: nat, x: int): seq<byte>
    requires 1 <= num <= 15
  {
    if x == 0 then [] else [Tag(num, 0)] + Enc(U64(x))
  }

  function EncBool(num: nat, b: bool): seq<byte>
    requires 1 <= num <= 15
  {
    if b then [Tag(num, 0), 1] else []
  }

  function EncFrame(f: Frame): seq<byte> {
    EncBytes(1, f.filename) + EncBytes(2, f.signature) + EncBytes(3, f.cid) + EncBytes(4, f.hash)
      + EncInt(5, f.validCount) + EncInt(6, f.invalidCount)
  }

  /** The repeated frames, field 2 of Validation and Solution. */
  function EncFrames(fs: seq<Frame>): seq<byte> {
    if fs == [] then [] else EncFrames(fs[..|fs| - 1]) + Record(2, EncFrame(fs[|fs| - 1]))
  }

  function EncValidation(v: Validation): seq<byte> {
    EncBytes(1, v.validator) + EncFrames(v.frames) + EncBytes(3, v.publicKey) + EncBool(4, v.isReverse)
  }

  function EncSolution(s: Solution): seq<byte> {
    EncBytes(1, s.proposedBy) + EncFrames(s.frames) + EncBytes(3, s.publicKey) + EncBytes(4, s.dir)
      + EncBool(5, s.accepted)
  }

  function EncPacked(xs: seq<int>): seq<byte> {
    if xs == [] then [] else EncPacked(xs[..|xs| - 1]) + Enc(U64(xs[|xs| - 1]))
  }

  function EncReputation(r: RawReputation): seq<byte> {
    (match r.staked case None => [] case Some(c) => Record(1, c))
      + EncInt(2, r.points) + EncInt(3, r.validations) + EncInt(4, r.solutions)
      + Record(5, r.winnings)
      + (if r.renderDurations == [] then [] else Record(6, EncPacked(r.renderDurations)))
  }

  function Encode(m: Message): seq<byte> {
    match m
    case OfFrame(f) => EncFrame(f)
    case OfValidation(v) => EncValidation(v)
    case OfSolution(s) => EncSolution(s)
    case OfReputation(r) => EncReputation(r)
  }

  // ---------- Size ----------

  function SizeBytes(s: Str): nat { if |s| > 0 then 1 + |s| + Sov(|s|) else 0 }
  function SizeInt(x: int): nat { if x != 0 then 1 + Sov(U64(x)) else 0 }
  function SizeBool(b: bool): nat { if b then 2 else 0 }

  function SizeFrame(f: Frame): nat {
    SizeBytes(f.filename) + SizeBytes(f.signature) + SizeBytes(f.cid) + SizeBytes(f.hash)
      + SizeInt(f.validCount) + SizeInt(f.invalidCount)
  }

  function SizeFrames(fs: seq<Frame>): nat {
    if fs == [] then 0
    else
      var l := SizeFrame(fs[|fs| - 1]);
      SizeFrames(fs[..|fs| - 1]) + 1 + l + Sov(l)
  }

  function SizePacked(xs: seq<int>): nat {
    if xs == [] then 0 else SizePacked(xs[..|xs| - 1]) + Sov(U64(xs[|xs| - 1]))
  }

  function Size(m: Message): nat {
    match m
    case OfFrame(f) => SizeFrame(f)
    case OfValidation(v) =>
      SizeBytes(v.validator) + SizeFrames(v.frames) + SizeBytes(v.publicKey) + SizeBool(v.isReverse)
    case OfSolution(s) =>
      SizeBytes(s.proposedBy) + SizeFrames(s.frames) + SizeBytes(s.publicKey) + SizeBytes(s.dir) + SizeBool(s.accepted)
    case OfReputation(r) =>
      (match r.staked case None => 0 case Some(c) => 1 + |c| + Sov(|c|))
        + SizeInt(r.points) + SizeInt(r.validations) + SizeInt(r.solutions)
        + 1 + |r.winnings| + Sov(|r.winnings|)
        + (if r.renderDurations == [] then 0
           else 1 + Sov(SizePacked(r.renderDurations)) + SizePacked(r.renderDurations))
  }

  // ---------- skipping unknown fields ----------

  /** Bytes of one record's value after its tag, by wire type; groups are handled by Skip. */
  function ValueSize(wireType: nat, b: seq<byte>): Option<nat> {
    match wireType
    case 0 => (match Raw(b, 0) case None => None case Some((_, k)) => Some(k))
    case 1 => Some(8)
    case 2 => (match Dec(b) case None => None case Some((u, k)) => if u < TWO_TO_63 then Some(k + u) else None)
    case 3 => Some(0)
    case 4 => Some(0)
    case 5 => Some(4)
    case _ => None
  }

  /** The number of open groups after a tag of the wire type. */
  function OpenAfter(wireType: nat, depth: nat): int {
    if wireType == 3 then depth + 1 else if wireType == 4 then depth - 1 else depth
  }

  /** skipTypes with the given number of open groups: the bytes up to the end of the field. A field that
      would end outside the buffer is rejected, here or by the caller. */
  function Skip(b: seq<byte>, depth: nat): (r: Option<nat>)
    ensures r.Some? ==> 1 <= r.value <= |b|
    decreases |b|
  {
    match Dec(b)
    case None => None
    case Some((wire, n)) =>
      match ValueSize(wire % 8, b[n..])
      case None => None
      case Some(k) =>
        var open := OpenAfter(wire % 8, depth);
        if n + k > |b| || open < 0 then None
        else if open == 0 then Some(n + k)
        else match Skip(b[n + k..], open)
          case None => None
          case Some(rest) => Some(n + k + rest)
  }

  // ---------- decoding ----------

  datatype FieldKind = Length | Scalar | Packed | Unknown

  function KindOf(m: Message, num: int): FieldKind {
    match m
    case OfFrame(_) => if 1 <= num <= 4 then Length else if num == 5 || num == 6 then Scalar else Unknown
    case OfValidation(_) => if 1 <= num <= 3 then Length else if num == 4 then Scalar else Unknown
    case OfSolution(_) => if 1 <= num <= 4 then Length else if num == 5 then Scalar else Unknown
    case OfReputation(_) =>
      if num == 1 || num == 5 then Length else if 2 <= num <= 4 then Scalar
      else if num == 6 then Packed else Unknown
  }

  /** int32(wire >> 3). */
  function FieldNum(wire: nat): int { I32(wire / 8) }

  /** A varint field; every occurrence replaces the value. */
  function SetScalar(m: Message, num: int, u: nat): Message
    requires KindOf(m, num) == Scalar
  {
    match m
    case OfFrame(f) => OfFrame(if num == 5 then f.(validCount := I64(u)) else f.(invalidCount := I64(u)))
    case OfValidation(v) => OfValidation(v.(isReverse := I64(u) != 0))
    case OfSolution(s) => OfSolution(s.(accepted := I64(u) != 0))
    case OfReputation(r) =>
      OfReputation(if num == 2 then r.(points := I64(u)) else if num == 3 then r.(validations := I32(u))
                   else r.(solutions := I32(u)))
  }

  /** A string field, which replaces the value, or a frame, which is appended. */
  function SetBytes(m: Message, num: int, p: seq<byte>): (r: Option<Message>)
    requires KindOf(m, num) == Length
    decreases |p|, 2
  {
    match m
    case OfFrame(f) =>
      Some(OfFrame(if num == 1 then f.(filename := p) else if num == 2 then f.(signature := p)
                   else if num == 3 then f.(cid := p) else f.(hash := p)))
    case OfValidation(v) =>
      if num == 1 then Some(OfValidation(v.(validator := p)))
      else if num == 3 then Some(OfValidation(v.(publicKey := p)))
      else (match Decode(OfFrame(EMPTY_FRAME), p)
        case Some(OfFrame(f)) => Some(OfValidation(v.(frames := v.frames + [f])))
        case _ => None)
    case OfSolution(s) =>
      if num == 1 then Some(OfSolution(s.(proposedBy := p)))
      else if num == 3 then Some(OfSolution(s.(publicKey := p)))
      else if num == 4 then Some(OfSolution(s.(dir := p)))
      else (match Decode(OfFrame(EMPTY_FRAME), p)
        case Some(OfFrame(f)) => Some(OfSolution(s.(frames := s.frames + [f])))
        case _ => None)
    case OfReputation(r) =>
      Some(OfReputation(if num == 1 then r.(staked := Some((if r.staked.Some? then r.staked.value else []) + p))
                        else r.(winnings := r.winnings + p)))
  }

  /** The packed loop: reads varints until len bytes are used up. The last one may run past len; the
      source checks it against the end of the buffer only. */
  function ReadPacked(xs: seq<int>, b: seq<byte>, len: int): (r: Option<(seq<int>, nat)>)
    ensures r.Some? ==> r.value.1 <= |b| && len <= r.value.1
    decreases |b|
  {
    if len <= 0 then Some((xs, 0))
    else match Dec(b)
      case None => None
      case Some((u, n)) =>
        match ReadPacked(xs + [I64(u)], b[n..], len - n)
        case None => None
        case Some((ys, k)) => Some((ys, n + k))
  }

  /** One field: the message after it and the bytes it took. */
  function Parse(m: Message, b: seq<byte>): (r: Option<(Message, nat)>)
    ensures r.Some? ==> 1 <= r.value.1 <= |b|
    decreases |b|, 0
  {
    match Dec(b)
    case None => None
    case Some((wire, n)) =>
      var num, wireType := FieldNum(wire), wire % 8;
      if wireType == 4 || num <= 0 then None
      else match KindOf(m, num)
        case Unknown => (match Skip(b, 0) case None => None case Some(k) => Some((m, k)))
        case Scalar =>
          if wireType != 0 then None
          else (match Dec(b[n..])
            case None => None
            case Some((u, k)) => Some((SetScalar(m, num, u), n + k)))
        case Length =>
          if wireType != 2 then None
          else (match Dec(b[n..])
            case None => None
            case Some((u, k)) =>
              if n + k + u > |b| then None
              else (match SetBytes(m, num, b[n + k..n + k + u])
                case None => None
                case Some(m') => Some((m', n + k + u))))
        case Packed =>
          if wireType == 0 then (match Dec(b[n..])
            case None => None
            case Some((u, k)) => Some((WithDurations(m, m.reputation.renderDurations + [I64(u)]), n + k)))
          else if wireType == 2 then (match Dec(b[n..])
            case None => None
            case Some((u, k)) =>
              if n + k + u > |b| then None
              else (match ReadPacked(m.reputation.renderDurations, b[n + k..], u)
                case None => None
                case Some((xs, used)) => Some((WithDurations(m, xs), n + k + used))))
          else None
  }

  function WithDurations(m: Message, xs: seq<int>): Message
    requires m.OfReputation?
  {
    OfReputation(m.reputation.(renderDurations := xs))
  }

  /** Unmarshal of the bytes into m. */
  function Decode(m: Message, b: seq<byte>): (r: Option<Message>)
    decreases |b|, 1
  {
    if b == [] then Some(m)
    else match Parse(m, b)
      case None => None
      case Some((m', n)) => Decode(m', b[n..])
  }
}
