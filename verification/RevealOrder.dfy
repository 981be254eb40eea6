/** RevealSolution walks a Go map, whose order is open: the outcome is the same for every order. */
module RevealOrder {
  import opened Basics
  import opened Protocol
  import opened Verification
  import opened CliCodec
  import opened Handlers

  /** The entries applied one after the other, as the loop does for the order it happens to take; None
      is the error for an unknown file. */
  function InOrder(frames: seq<Frame>, m: map<Str, Frame>, order: seq<Str>): Option<seq<Frame>>
    requires forall k | k in order :: k in m
  {
    if order == [] then Some(frames)
    else
      assert forall k | k in order[..|order| - 1] :: k in order;
      match InOrder(frames, m, order[..|order| - 1])
      case None => None
      case Some(fs) =>
        var e := m[order[|order| - 1]];
        var idx := FirstNamed(fs, order[|order| - 1]);
        if idx < 0 then None else Some(fs[idx := fs[idx].(cid := e.cid, hash := e.hash)])
  }

  /** The order-free description of the frames after the entries of order. */
  predicate Applied(frames: seq<Frame>, m: map<Str, Frame>, order: seq<Str>, fs: seq<Frame>)
    requires forall k | k in order :: k in m
  {
    && |fs| == |frames|
    && forall i :: 0 <= i < |frames| ==>
         fs[i] == if frames[i].filename in order then Revealed(frames, m, i) else frames[i]
  }

  lemma AppliedNames(frames: seq<Frame>, m: map<Str, Frame>, order: seq<Str>, fs: seq<Frame>, k: Str)
    requires (forall k | k in order :: k in m) && Applied(frames, m, order, fs)
    ensures FirstNamed(fs, k) == FirstNamed(frames, k)
  {
    assert forall i :: 0 <= i < |frames| ==> fs[i].filename == frames[i].filename;
  }

  lemma {:induction false} InOrderApplies(frames: seq<Frame>, m: map<Str, Frame>, order: seq<Str>)
    requires Distinct(order) && forall k | k in order :: k in m
    ensures InOrder(frames, m, order).None? <==> exists k | k in order :: FirstNamed(frames, k) < 0
    ensures InOrder(frames, m, order).Some? ==> Applied(frames, m, order, InOrder(frames, m, order).value)
  {
    if order != [] {
      var front, k := order[..|order| - 1], order[|order| - 1];
      assert order == front + [k];
      assert forall x | x in front :: x in order;
      InOrderApplies(frames, m, front);
      if InOrder(frames, m, front).Some? {
        AppliedNames(frames, m, front, InOrder(frames, m, front).value, k);
      }
    }
  }

  /** For every message and every order in which its entries may be visited, the loop accepts exactly
      when all files are known, and then leaves the frames of the order-free description. */
  lemma AnyOrder(frames: seq<Frame>, entries: seq<Str>, order: seq<Str>)
    requires Distinct(order) && forall k :: k in order <==> k in FramesOf(entries)
    ensures InOrder(frames, FramesOf(entries), order) ==
      if AllKnown(frames, FramesOf(entries)) then Some(RevealedFrames(frames, FramesOf(entries))) else None
  {
    var m := FramesOf(entries);
    InOrderApplies(frames, m, order);
    if AllKnown(frames, m) {
      var fs := InOrder(frames, m, order).value;
      assert fs == RevealedFrames(frames, m);
    } else {
      var k :| k in m && FirstNamed(frames, k) < 0;
      assert k in order;
    }
  }

  /** Two nodes that walk the same map in different orders agree. */
  lemma OrdersAgree(frames: seq<Frame>, entries: seq<Str>, order: seq<Str>, other: seq<Str>)
    requires Distinct(order) && forall k :: k in order <==> k in FramesOf(entries)
    requires Distinct(other) && forall k :: k in other <==> k in FramesOf(entries)
    ensures InOrder(frames, FramesOf(entries), order) == InOrder(frames, FramesOf(entries), other)
  {
    AnyOrder(frames, entries, order);
    AnyOrder(frames, entries, other);
  }
}
