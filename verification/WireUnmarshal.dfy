/** Unmarshal and skipTypes: forward loops over the input, with Go's wrapping int arithmetic on lengths. */
module WireUnmarshal {
  import opened Basics
  import opened Varint
  import opened Wire

  /** skipTypes on dAtA[start:]. It may report more bytes than there are; its caller checks that. */
  method SkipTypes(dAtA: seq<byte>, start: nat) returns (ok: bool, n: nat)
    requires start <= |dAtA| < TWO_TO_63
    ensures Skip(dAtA[start..], 0) == if ok && start + n <= |dAtA| then Some(n) else None
    ensures ok ==> n < TWO_TO_63
  {
    hide Skip, SkipsOn, Raw, Dec;
    var l := |dAtA| - start;
    var iNdEx: int := 0;
    var depth: nat := 0;
    ghost var b := dAtA[start..];
    SkipStarts(b);
    while iNdEx < l
      invariant 0 <= iNdEx < TWO_TO_63
      invariant SkipsOn(b, iNdEx, depth)
      decreases l - iNdEx
    {
      ghost var before, nested := iNdEx, depth;
      var read, wire, next := ReadVarint(dAtA, start + iNdEx);
      assert b[iNdEx..] == dAtA[start + iNdEx..];
      if !read {
        SkipHalts(b, iNdEx, depth);
        return false, 0;
      }
      iNdEx := next - start;
      assert b[iNdEx..] == dAtA[next..] && b[before..][iNdEx - before..] == b[iNdEx..];
      var wireType := wire % 8;
      if wireType == 3 {
        depth := depth + 1;
      } else if wireType == 4 {
        if depth == 0 {
          SkipStep(b, before, 0, wire, next - start - before, 0);
          return false, 0;
        }
        depth := depth - 1;
      }
      var sized;
      sized, iNdEx := SkipValue(dAtA, start, iNdEx, wireType);
      if !sized {
        SkipHalts(b, before, nested);
        return false, 0;
      }
      SkipStep(b, before, nested, wire, next - start - before, ValueSize(wireType, dAtA[next..]).value);
      if iNdEx < 0 {
        return false, 0;
      }
      if depth == 0 {
        return true, iNdEx;
      }
      if iNdEx > l { SkipPast(b, iNdEx, depth); }
    }
    SkipEnds(b, iNdEx, depth);
    return false, 0;
  }

  /** The switch over the wire type: how far the value moves the index, in wrapping arithmetic. */
  method SkipValue(dAtA: seq<byte>, start: nat, from: nat, wireType: nat) returns (ok: bool, iNdEx: int)
    requires start + from <= |dAtA| < TWO_TO_63 && wireType < 8
    ensures ok <==> ValueSize(wireType, dAtA[start + from..]).Some?
    ensures ok ==> iNdEx < TWO_TO_63
    ensures ok ==> (var x := from + ValueSize(wireType, dAtA[start + from..]).value;
      if x < TWO_TO_63 then iNdEx == x else iNdEx < 0)
  {
    hide Raw, Dec, I64;
    iNdEx := from;
    SmallIndex(iNdEx, 8);
    SmallIndex(iNdEx, 4);
    if wireType == 0 {
      var end;
      ok, end := SkipVarint(dAtA, start + from);
      if !ok {
        return;
      }
      iNdEx := end - start;
    } else if wireType == 1 {
      iNdEx := I64(iNdEx + 8);
    } else if wireType == 2 {
      var u, end;
      ok, u, end := ReadVarint(dAtA, start + from);
      if !ok {
        return;
      }
      var length := I64(u);
      SignedLength(u);
      if length < 0 {
        return false, iNdEx;
      }
      SmallIndex(end - start, length);
      iNdEx := I64(end - start + length);
    } else if wireType == 5 {
      iNdEx := I64(iNdEx + 4);
    } else if wireType != 3 && wireType != 4 {
      return false, iNdEx;
    }
    return true, iNdEx;
  }

  /** Go's int addition: a sum that leaves the range turns negative. */
  lemma SmallIndex(a: nat, b: nat)
    requires a < TWO_TO_63 && b < TWO_TO_63
    ensures if a + b < TWO_TO_63 then I64(a + b) == a + b else I64(a + b) < 0
  {
  }

  lemma SignedLength(u: nat)
    requires u < TWO_TO_64
    ensures if u < TWO_TO_63 then I64(u) == u else I64(u) < 0
  {
  }

  /** What Skip still has to do after i bytes with some groups open. */
  ghost predicate SkipsOn(b: seq<byte>, i: nat, depth: nat) {
    Skip(b, 0) ==
      if i > |b| then None else After(i, Skip(b[i..], depth))
  }

  /** n bytes more than a count, if there is one. */
  function After(n: nat, count: Option<nat>): Option<nat> {
    if count.None? then None else Some(n + count.value)
  }

  lemma SkipStarts(b: seq<byte>)
    ensures SkipsOn(b, 0, 0)
  {
    assert b[0..] == b;
  }

  lemma SkipOnce(s: seq<byte>, depth: nat, wire: nat, n: nat, k: nat)
    requires Dec(s) == Some((wire, n)) && ValueSize(wire % 8, s[n..]) == Some(k)
    ensures Skip(s, depth) ==
      if n + k > |s| || OpenAfter(wire % 8, depth) < 0 then None
      else if OpenAfter(wire % 8, depth) == 0 then Some(n + k)
      else After(n + k, Skip(s[n + k..], OpenAfter(wire % 8, depth)))
  {
    hide Raw, Dec, ValueSize, OpenAfter;
  }

  lemma SkipStops(s: seq<byte>, depth: nat)
    requires Dec(s).Some? ==> ValueSize(Dec(s).value.0 % 8, s[Dec(s).value.1..]).None?
    ensures Skip(s, depth).None?
  {
  }

  /** One record further: i bytes, then a tag of n bytes and a value of k bytes. */
  lemma SkipStep(b: seq<byte>, i: nat, depth: nat, wire: nat, n: nat, k: nat)
    requires i <= |b| && SkipsOn(b, i, depth)
    requires Dec(b[i..]) == Some((wire, n)) && ValueSize(wire % 8, b[i..][n..]) == Some(k)
    ensures if i + n + k > |b| || OpenAfter(wire % 8, depth) < 0 then Skip(b, 0).None?
      else if OpenAfter(wire % 8, depth) == 0 then Skip(b, 0) == Some(i + n + k)
      else SkipsOn(b, i + n + k, OpenAfter(wire % 8, depth))
  {
    hide Raw, Dec, ValueSize, OpenAfter, Skip;
    SkipOnce(b[i..], depth, wire, n, k);
    if i + n + k <= |b| {
      assert b[i..][n + k..] == b[i + n + k..];
    }
  }

  lemma SkipHalts(b: seq<byte>, i: nat, depth: nat)
    requires i <= |b| && SkipsOn(b, i, depth)
    requires Dec(b[i..]).Some? ==> ValueSize(Dec(b[i..]).value.0 % 8, b[i..][Dec(b[i..]).value.1..]).None?
    ensures Skip(b, 0).None?
  {
    hide Raw, Dec, ValueSize, Skip;
    SkipStops(b[i..], depth);
  }

  lemma SkipPast(b: seq<byte>, i: nat, depth: nat)
    requires i > |b| && Skip(b, 0).None?
    ensures SkipsOn(b, i, depth)
  {
  }

  lemma SkipEnds(b: seq<byte>, i: nat, depth: nat)
    requires i >= |b| && SkipsOn(b, i, depth)
    ensures Skip(b, 0).None?
  {
    if i == |b| { assert b[i..] == []; }
  }

  /** The value of a varint is skipped without being kept. */
  method SkipVarint(dAtA: seq<byte>, start: nat) returns (ok: bool, next: nat)
    requires start <= |dAtA|
    ensures ok <==> Raw(dAtA[start..], 0).Some?
    ensures ok ==> next <= |dAtA| && next - start == Raw(dAtA[start..], 0).value.1
  {
    var v;
    ok, v, next := ReadVarint(dAtA, start);
  }

  /** A message that Unmarshal updates in place. */
  class MessageObject {
    var value: Message

    constructor (m: Message)
      ensures value == m
    {
      value := m;
    }

    /** Unmarshal; what a failed call leaves in the object is not described. */
    method Unmarshal(dAtA: seq<byte>) returns (ok: bool)
      requires |dAtA| < TWO_TO_63
      modifies this
      ensures ok <==> Decode(old(value), dAtA).Some?
      ensures ok ==> Decode(old(value), dAtA) == Some(value)
      decreases |dAtA|, 2
    {
      hide Parse;
      var iNdEx := 0;
      assert dAtA[0..] == dAtA;
      while iNdEx < |dAtA|
        invariant 0 <= iNdEx <= |dAtA|
        invariant Decode(old(value), dAtA) == Decode(value, dAtA[iNdEx..])
        decreases |dAtA| - iNdEx
      {
        ghost var rest := dAtA[iNdEx..];
        var read, next := UnmarshalField(dAtA, iNdEx);
        if !read {
          return false;
        }
        assert rest[next - iNdEx..] == dAtA[next..];
        iNdEx := next;
      }
      assert dAtA[iNdEx..] == [];
      return true;
    }

    /** The body of the loop: one tag and the field it announces. */
    method UnmarshalField(dAtA: seq<byte>, preIndex: nat) returns (ok: bool, iNdEx: nat)
      requires preIndex < |dAtA| < TWO_TO_63
      modifies this
      ensures ok <==> Parse(old(value), dAtA[preIndex..]).Some?
      ensures ok ==> preIndex < iNdEx <= |dAtA|
      ensures ok ==> Parse(old(value), dAtA[preIndex..]) == Some((value, iNdEx - preIndex))
      decreases |dAtA|, 1
    {
      hide Skip, ReadPacked, Raw, Dec, SetBytes, SetScalar, I64;
      iNdEx := preIndex;
      var read, wire, next := ReadVarint(dAtA, preIndex);
      if !read {
        return false, iNdEx;
      }
      var fieldNum := I32(wire / 8);
      var wireType := wire % 8;
      if wireType == 4 {
        return false, iNdEx;
      }
      if fieldNum <= 0 {
        return false, iNdEx;
      }
      assert dAtA[preIndex..][next - preIndex..] == dAtA[next..];
      match KindOf(value, fieldNum) {
        case Scalar =>
          if wireType != 0 {
            return false, iNdEx;
          }
          var done, u, end := ReadVarint(dAtA, next);
          if !done {
            return false, iNdEx;
          }
          value := SetScalar(value, fieldNum, u);
          return true, end;
        case Length =>
          if wireType != 2 {
            return false, iNdEx;
          }
          var start, end;
          ok, start, end := ReadLength(dAtA, next);
          if !ok {
            return false, iNdEx;
          }
          assert dAtA[preIndex..][start - preIndex..end - preIndex] == dAtA[start..end];
          ok := Assign(fieldNum, dAtA[start..end]);
          return ok, end;
        case Packed =>
          if wireType == 0 {
            var done, u, end := ReadVarint(dAtA, next);
            if !done {
              return false, iNdEx;
            }
            value := WithDurations(value, value.reputation.renderDurations + [I64(u)]);
            return true, end;
          } else if wireType == 2 {
            var start, end;
            ok, start, end := ReadLength(dAtA, next);
            if !ok {
              return false, iNdEx;
            }
            assert dAtA[preIndex..][start - preIndex..] == dAtA[start..];
            ok, end := UnpackDurations(dAtA, start, end);
            return ok, end;
          } else {
            return false, iNdEx;
          }
        case Unknown =>
          var done, skippy := SkipTypes(dAtA, preIndex);
          if !done {
            return false, iNdEx;
          }
          SmallIndex(preIndex, skippy);
          if skippy < 0 || I64(preIndex + skippy) < 0 {
            return false, iNdEx;
          }
          if I64(preIndex + skippy) > |dAtA| {
            return false, iNdEx;
          }
          return true, preIndex + skippy;
      }
    }

    /** A length and the check that so many bytes follow; start and end delimit them. */
    static method ReadLength(dAtA: seq<byte>, from: nat) returns (ok: bool, start: nat, end: nat)
      requires from <= |dAtA| < TWO_TO_63
      ensures ok <==>
        (Dec(dAtA[from..]).Some? && from + Dec(dAtA[from..]).value.1 + Dec(dAtA[from..]).value.0 <= |dAtA|)
      ensures ok ==> from < start <= end <= |dAtA| && Dec(dAtA[from..]) == Some((end - start, start - from))
    {
      hide Raw, Dec, I64;
      end := from;
      var u;
      ok, u, start := ReadVarint(dAtA, from);
      if !ok {
        return;
      }
      var length := I64(u);
      SignedLength(u);
      if length < 0 {
        ok := false;
        return;
      }
      SmallIndex(start, length);
      var postIndex := I64(start + length);
      if postIndex < 0 {
        ok := false;
        return;
      }
      if postIndex > |dAtA| {
        ok := false;
        return;
      }
      end := postIndex;
    }

    /** A string field, or a nested frame that is decoded from its own slice. */
    method Assign(fieldNum: int, p: seq<byte>) returns (ok: bool)
      requires KindOf(value, fieldNum) == Length && |p| < TWO_TO_63
      modifies this
      ensures ok <==> SetBytes(old(value), fieldNum, p).Some?
      ensures ok ==> SetBytes(old(value), fieldNum, p) == Some(value)
      decreases |p|, 3
    {
      hide Decode;
      if (value.OfValidation? || value.OfSolution?) && fieldNum == 2 {
        var frame := new MessageObject(OfFrame(EMPTY_FRAME));
        DecodeKeepsKind(frame.value, p);
        ok := frame.Unmarshal(p);
        if !ok {
          return;
        }
        if value.OfValidation? {
          value := OfValidation(value.validation.(frames := value.validation.frames + [frame.value.frame]));
        } else {
          value := OfSolution(value.solution.(frames := value.solution.frames + [frame.value.frame]));
        }
        return true;
      }
      value := SetBytes(value, fieldNum, p).value;
      return true;
    }

    /** The packed loop; the inner check is against the end of the whole buffer. */
    method UnpackDurations(dAtA: seq<byte>, start: nat, postIndex: nat) returns (ok: bool, iNdEx: nat)
      requires start <= postIndex <= |dAtA| && value.OfReputation?
      modifies this
      ensures ok <==> ReadPacked(old(value).reputation.renderDurations, dAtA[start..], postIndex - start).Some?
      ensures ok ==> start <= iNdEx <= |dAtA| && value.OfReputation?
      ensures ok ==> value == WithDurations(old(value), value.reputation.renderDurations)
      ensures ok ==>
        ReadPacked(old(value).reputation.renderDurations, dAtA[start..], postIndex - start)
          == Some((value.reputation.renderDurations, iNdEx - start))
    {
      hide Raw, Dec;
      iNdEx := start;
      ghost var pre := value.reputation.renderDurations;
      while iNdEx < postIndex
        invariant start <= iNdEx <= |dAtA| && value.OfReputation?
        invariant value == WithDurations(old(value), value.reputation.renderDurations)
        invariant ReadPacked(pre, dAtA[start..], postIndex - start) ==
          match ReadPacked(value.reputation.renderDurations, dAtA[iNdEx..], postIndex - iNdEx)
          case None => None
          case Some((xs, k)) => Some((xs, iNdEx - start + k))
        decreases |dAtA| - iNdEx
      {
        var read, u, next := ReadVarint(dAtA, iNdEx);
        if !read {
          return false, iNdEx;
        }
        assert dAtA[iNdEx..][next - iNdEx..] == dAtA[next..];
        value := WithDurations(value, value.reputation.renderDurations + [I64(u)]);
        iNdEx := next;
      }
      return true, iNdEx;
    }
  }

  lemma ParseKeepsKind(m: Message, b: seq<byte>)
    requires m.OfFrame? && Parse(m, b).Some?
    ensures Parse(m, b).value.0.OfFrame?
  {
    hide Skip, ReadPacked, Raw, Dec;
  }

  /** Decoding never turns a frame into another message. */
  lemma {:induction false} DecodeKeepsKind(m: Message, b: seq<byte>)
    requires m.OfFrame?
    ensures Decode(m, b).Some? ==> Decode(m, b).value.OfFrame?
    decreases |b|
  {
    hide Parse;
    if b != [] && Parse(m, b).Some? {
      ParseKeepsKind(m, b);
      var (m', n) := Parse(m, b).value;
      DecodeKeepsKind(m', b[n..]);
    }
  }
}
