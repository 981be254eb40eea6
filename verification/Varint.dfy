/** Base 128 varints and two's complement, as types.pb.go uses them. */
module Varint {
  import opened Basics

  const TWO_TO_31: int := 0x8000_0000
  const TWO_TO_32: int := 0x1_0000_0000
  const TWO_TO_63: int := 0x8000_0000_0000_0000
  const TWO_TO_64: int := 0x1_0000_0000_0000_0000

  // ---------- machine integers ----------

  /** uint64(x) of an int64. */
  function U64(x: int): nat { x % TWO_TO_64 }

  /** int64(u), also int(u). */
  function I64(u: int): int {
    if u % TWO_TO_64 < TWO_TO_63 then u % TWO_TO_64 else u % TWO_TO_64 - TWO_TO_64
  }

  /** int32(u). */
  function I32(u: int): int {
    if u % TWO_TO_32 < TWO_TO_31 then u % TWO_TO_32 else u % TWO_TO_32 - TWO_TO_32
  }

  predicate IsI64(x: int) { -TWO_TO_63 <= x < TWO_TO_63 }
  predicate IsI32(x: int) { -TWO_TO_31 <= x < TWO_TO_31 }

  lemma U64Back(x: int)
    requires IsI64(x)
    ensures 0 <= U64(x) < TWO_TO_64 && I64(U64(x)) == x
    ensures U64(x) == 0 <==> x == 0
    ensures IsI32(x) ==> I32(U64(x)) == x
  {
    if x < 0 { assert U64(x) == x + TWO_TO_64; }
    if IsI32(x) && x < 0 {
      assert U64(x) == (TWO_TO_32 - 1) * TWO_TO_32 + (x + TWO_TO_32);
      assert U64(x) % TWO_TO_32 == x + TWO_TO_32;
    }
  }

  // ---------- encoding ----------

  /** The least significant seven bits first, each byte but the last with the high bit set. */
  function Enc(v: nat): (s: seq<byte>)
    ensures |s| >= 1
  {
    if v < 128 then [v] else [v % 128 + 128] + Enc(v / 128)
  }

  /** math/bits.Len64. */
  function BitLen(v: nat): nat { if v == 0 then 0 else 1 + BitLen(v / 2) }

  /** v | 1. */
  function OrOne(v: nat): nat { if v % 2 == 0 then v + 1 else v }

  /** sovTypes. */
  function Sov(v: nat): nat { (BitLen(OrOne(v)) + 6) / 7 }

  lemma BitLenShift(v: nat)
    requires v >= 128
    ensures BitLen(v) == 7 + BitLen(v / 128)
  {
    var a := v / 2;
    var b := a / 2;
    var c := b / 2;
    var d := c / 2;
    var e := d / 2;
    var f := e / 2;
    assert f / 2 == v / 128 && f >= 2;
    assert BitLen(v) == 1 + BitLen(a) == 2 + BitLen(b) == 3 + BitLen(c);
    assert BitLen(c) == 1 + BitLen(d) == 2 + BitLen(e) == 3 + BitLen(f) == 4 + BitLen(f / 2);
  }

  lemma BitLenOrOne(v: nat)
    requires v >= 1
    ensures BitLen(OrOne(v)) == BitLen(v)
  {
    assert OrOne(v) / 2 == v / 2;
  }

  lemma SmallBitLen(v: nat)
    requires v < 128
    ensures 1 <= BitLen(OrOne(v)) <= 7
  {
    Bounded(OrOne(v), 7, 128);
  }

  lemma {:induction false} Bounded(v: nat, k: nat, p: nat)
    requires p == TwoTo(k) && v < p
    ensures BitLen(v) <= k
    decreases k
  {
    if v > 0 && k > 0 { Bounded(v / 2, k - 1, p / 2); }
  }

  function TwoTo(k: nat): nat { if k == 0 then 1 else 2 * TwoTo(k - 1) }

  /** The exact number of bytes: what Size adds up is what the encoder writes. */
  lemma {:induction false} EncSize(v: nat)
    ensures |Enc(v)| == Sov(v)
  {
    if v < 128 {
      SmallBitLen(v);
    } else {
      EncSize(v / 128);
      BitLenShift(v);
      BitLenOrOne(v);
      BitLenOrOne(v / 128);
    }
  }

  /** A 64-bit value takes at most ten bytes. */
  lemma {:induction false} EncShort(v: nat, k: nat, p: nat)
    requires 1 <= k && p == Pow128(k) && v < p
    ensures |Enc(v)| <= k
    decreases k
  {
    if v >= 128 {
      assert k > 1;
      EncShort(v / 128, k - 1, p / 128);
    }
  }

  function Pow128(k: nat): nat { if k == 0 then 1 else 128 * Pow128(k - 1) }

  lemma EncTen(v: nat)
    requires v < TWO_TO_64
    ensures |Enc(v)| <= 10
  {
    assert Pow128(4) == 0x1000_0000;
    assert Pow128(8) == 0x100_0000_0000_0000;
    assert Pow128(10) == 0x40_0000_0000_0000_0000;
    EncShort(v, 10, Pow128(10));
  }

  // ---------- decoding ----------

  /** The value without truncation and the number of bytes read, after k bytes of the same varint: at
      most ten bytes are read, and the input may not end early. */
  function Raw(b: seq<byte>, k: nat): (r: Option<(nat, nat)>)
    ensures r.Some? ==> 1 <= r.value.1 <= |b|
  {
    if k >= 10 || b == [] then None
    else if b[0] < 128 then Some((b[0], 1))
    else match Raw(b[1..], k + 1)
      case None => None
      case Some((v, n)) => Some((b[0] - 128 + 128 * v, n + 1))
  }

  /** The value the decoding loop leaves in a uint64. */
  function Dec(b: seq<byte>): (r: Option<(nat, nat)>)
    ensures r.Some? ==> 1 <= r.value.1 <= |b| && r.value.0 < TWO_TO_64
  {
    match Raw(b, 0)
    case None => None
    case Some((v, n)) => Some((v % TWO_TO_64, n))
  }

  lemma {:induction false} RawPrefix(b: seq<byte>, k: nat, c: seq<byte>)
    requires Raw(b, k).Some?
    ensures Raw(b + c, k) == Raw(b, k)
  {
    assert (b + c)[0] == b[0];
    if b[0] >= 128 {
      assert (b + c)[1..] == b[1..] + c;
      RawPrefix(b[1..], k + 1, c);
    }
  }

  /** What follows a complete varint does not matter. */
  lemma DecPrefix(b: seq<byte>, c: seq<byte>)
    requires Dec(b).Some?
    ensures Dec(b + c) == Dec(b)
  {
    RawPrefix(b, 0, c);
  }

  lemma {:induction false} RawEnc(v: nat, k: nat, c: seq<byte>)
    requires k + |Enc(v)| <= 10
    ensures Raw(Enc(v) + c, k) == Some((v, |Enc(v)|))
  {
    var b := Enc(v) + c;
    if v >= 128 {
      assert b[0] == v % 128 + 128;
      assert b[1..] == Enc(v / 128) + c;
      RawEnc(v / 128, k + 1, c);
    }
  }

  /** Round trip of a varint in front of anything. */
  lemma DecEnc(v: nat, c: seq<byte>)
    requires v < TWO_TO_64
    ensures Dec(Enc(v) + c) == Some((v, |Enc(v)|))
  {
    EncTen(v);
    RawEnc(v, 0, c);
  }

  /** A single byte below 128. */
  lemma DecByte(t: byte, c: seq<byte>)
    requires t < 128
    ensures Dec([t] + c) == Some((t, 1))
  {
    assert ([t] + c)[0] == t;
  }

  // ---------- the loops ----------

  /** encodeVarintTypes: writes v so that it ends at offset. */
  method EncodeVarint(dAtA: array<byte>, end: nat, v: nat) returns (base: nat)
    requires v < TWO_TO_64 && Sov(v) <= end <= dAtA.Length
    modifies dAtA
    ensures base == end - Sov(v)
    ensures dAtA[base..end] == Enc(v)
    ensures dAtA[..base] == old(dAtA[..base]) && dAtA[end..] == old(dAtA[end..])
  {
    hide Sov;
    EncSize(v);
    var offset := end - Sov(v);
    base := offset;
    var left: nat := v;
    while left >= 128
      invariant base <= offset && left < TWO_TO_64 && offset + |Enc(left)| == end
      invariant dAtA[base..offset] + Enc(left) == Enc(v)
      invariant dAtA[..base] == old(dAtA[..base]) && dAtA[end..] == old(dAtA[end..])
    {
      ghost var done := dAtA[base..offset];
      assert Enc(left) == [left % 128 + 128] + Enc(left / 128);
      dAtA[offset] := left % 128 + 128;
      assert dAtA[base..offset + 1] == done + [left % 128 + 128];
      assert done + Enc(left) == dAtA[base..offset + 1] + Enc(left / 128);
      left := left / 128;
      offset := offset + 1;
    }
    ghost var done := dAtA[base..offset];
    dAtA[offset] := left;
    assert dAtA[base..end] == done + [left];
  }

  lemma ModStep(a: int, x: int, b: int)
    ensures (a % TWO_TO_64 + b) % TWO_TO_64 == (a + b) % TWO_TO_64
  {
    var q := a / TWO_TO_64;
    assert a + b == q * TWO_TO_64 + (a % TWO_TO_64 + b);
  }

  /** The loop over the bytes of a varint: the accumulator wraps at 64 bits. */
  method ReadVarint(dAtA: seq<byte>, start: nat) returns (ok: bool, v: nat, next: nat)
    requires start <= |dAtA|
    ensures ok <==> Dec(dAtA[start..]).Some?
    ensures ok ==> Dec(dAtA[start..]) == Some((v, next - start)) && start < next <= |dAtA|
  {
    v, next := 0, start;
    var shift: nat, weight: nat := 0, 1;
    while true
      invariant start <= next <= |dAtA| && shift == 7 * (next - start) && v < TWO_TO_64
      invariant weight == Pow128(next - start)
      invariant Pending(dAtA, start, next, v, weight)
      decreases |dAtA| - next
    {
      if shift >= 64 {
        return false, v, next;
      }
      if next >= |dAtA| {
        return false, v, next;
      }
      var b: int := dAtA[next];
      PendingStep(dAtA, start, next, v, weight);
      v := (v + b % 128 * weight) % TWO_TO_64;
      next := next + 1;
      shift := shift + 7;
      weight := 128 * weight;
      if b < 128 {
        return true, v, next;
      }
    }
  }

  /** The varint at start is the accumulated value plus what the remaining bytes contribute. */
  ghost predicate Pending(dAtA: seq<byte>, start: nat, next: nat, v: nat, weight: nat)
    requires start <= next <= |dAtA|
  {
    match Raw(dAtA[next..], next - start)
    case None => Raw(dAtA[start..], 0).None?
    case Some((u, n)) =>
      && Raw(dAtA[start..], 0).Some?
      && Raw(dAtA[start..], 0).value.1 == next - start + n
      && Raw(dAtA[start..], 0).value.0 % TWO_TO_64 == (v + weight * u) % TWO_TO_64
  }

  lemma PendingStep(dAtA: seq<byte>, start: nat, next: nat, v: nat, weight: nat)
    requires start <= next < |dAtA| && next - start < 10 && Pending(dAtA, start, next, v, weight)
    ensures var v' := (v + dAtA[next] as int % 128 * weight) % TWO_TO_64;
      if dAtA[next] < 128 then Dec(dAtA[start..]) == Some((v', next + 1 - start))
      else Pending(dAtA, start, next + 1, v', 128 * weight)
  {
    hide Raw;
    var b, k := dAtA[next], next - start;
    var rest := dAtA[next + 1..];
    assert dAtA[next..] == [b] + rest;
    RawCons(b, rest, k);
    if b < 128 {
      Commute(weight, b % 128);
    } else if Raw(rest, k + 1).Some? {
      Weigh(v, b % 128, weight, Raw(rest, k + 1).value.0);
    }
  }

  lemma RawCons(b: byte, rest: seq<byte>, k: nat)
    requires k < 10
    ensures Raw([b] + rest, k) ==
      if b < 128 then Some((b % 128, 1))
      else match Raw(rest, k + 1)
        case None => None
        case Some((v, n)) => Some((b as int % 128 + 128 * v, n + 1))
  {
    assert ([b] + rest)[1..] == rest;
  }

  lemma Commute(a: int, b: int)
    ensures a * b == b * a
  {
  }

  lemma Weigh(v: nat, d: nat, weight: nat, u: nat)
    ensures ((v + d * weight) % TWO_TO_64 + 128 * weight * u) % TWO_TO_64
      == (v + weight * (d + 128 * u)) % TWO_TO_64
  {
    ModStep(v + d * weight, 0, 128 * weight * u);
    assert v + d * weight + 128 * weight * u == v + weight * (d + 128 * u);
  }
}
