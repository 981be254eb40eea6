/** What the entries of a message say, and what is stored for them: signature entries name=signature, and
    reveal entries filename=cid:hash. */
module Entries {
  import opened Basics
  import opened Protocol
  import opened Verification
  import opened CliCodec
  import opened Handlers

  // ---------- name=signature ----------

  /** The entry has the form name=value; only the first separator counts. */
  predicate Says(entry: Str, name: Str, value: Str) {
    entry == name + [EQUALS] + value && EQUALS !in name
  }

  /** A frame as a proposal or a validation stores it. */
  predicate Plain(f: Frame, name: Str, signature: Str) {
    && f.filename == name && f.signature == signature
    && f.cid == [] && f.hash == [] && f.validCount == 0 && f.invalidCount == 0
  }

  lemma SignedSays(entry: Str, name: Str, value: Str)
    requires Says(entry, name, value)
    ensures EQUALS in entry && Plain(SignedFrame(entry), name, value)
  {
    CutAt(name, EQUALS, value);
  }

  /** Frames as the entries say: one for each, in order, with its name and its signature. */
  ghost predicate AsSigned(frames: seq<Frame>, signatures: seq<Str>) {
    && |frames| == |signatures|
    && forall i, name, value :: 0 <= i < |frames| && Says(signatures[i], name, value) ==> Plain(frames[i], name, value)
  }

  lemma SignedSay(signatures: seq<Str>)
    requires Parses(signatures)
    ensures AsSigned(SignedFrames(signatures), signatures)
  {
    var frames := SignedFrames(signatures);
    forall i, name, value | 0 <= i < |frames| && Says(signatures[i], name, value)
      ensures Plain(frames[i], name, value)
    {
      SignedSays(signatures[i], name, value);
    }
  }

  /** What the client prints for a map of signatures is accepted entry by entry, and frames stored as the
      entries say are exactly its pairs, in the order printed. */
  lemma PrintedIsStored(m: map<Str, Str>, order: seq<Str>, entries: seq<Str>, frames: seq<Frame>)
    requires (forall k | k in m :: EQUALS !in k) && Emission(m, KeyValue, order, entries) && AsSigned(frames, entries)
    ensures forall i :: 0 <= i < |entries| ==> EQUALS in entries[i]
    ensures |frames| == |order| && forall k :: k in order <==> k in m
    ensures forall i :: 0 <= i < |order| ==> Plain(frames[i], order[i], m[order[i]])
  {
    forall i | 0 <= i < |order|
      ensures EQUALS in entries[i] && Plain(frames[i], order[i], m[order[i]])
    {
      assert entries[i][|order[i]|] == EQUALS;
      assert Says(entries[i], order[i], m[order[i]]);
    }
  }

  // ---------- maps of entries ----------

  /** TransformSliceToMap fails exactly on an item without a separator; otherwise the last item for a key
      gives its value, and there are no other keys. */
  lemma {:induction false} MapOfMeans(input: seq<Str>)
    ensures MapOf(input).Some? <==> forall i :: 0 <= i < |input| ==> EQUALS in input[i]
    ensures MapOf(input).Some? ==> forall k, v ::
      (k in MapOf(input).value && MapOf(input).value[k] == v <==> LastItem(input, k, v))
  {
    if input != [] {
      var n := |input| - 1;
      var front := input[..n];
      MapOfMeans(front);
      assert forall i :: 0 <= i < n ==> front[i] == input[i];
      if EQUALS in input[n] {
        var parts := SplitN2(input[n], EQUALS);
        assert Says(input[n], parts[0], parts[1]);
        if MapOf(front).Some? {
          forall k, v
            ensures k in MapOf(input).value && MapOf(input).value[k] == v <==> LastItem(input, k, v)
          {
            SaysOnce(input[n], parts[0], parts[1]);
            LastItemStep(input, k, v, parts[0], parts[1]);
          }
        }
      }
    } else {
      assert forall k, v :: !LastItem(input, k, v);
    }
  }

  /** Some item gives the key the value, and no later one gives it any. */
  ghost predicate LastItem(input: seq<Str>, k: Str, v: Str) {
    exists i :: 0 <= i < |input| && Says(input[i], k, v) && forall j, w :: i < j < |input| ==> !Says(input[j], k, w)
  }

  lemma SaysOnce(entry: Str, name: Str, value: Str)
    requires Says(entry, name, value)
    ensures forall k, v :: Says(entry, k, v) ==> k == name && v == value
  {
    CutAt(name, EQUALS, value);
    forall k, v | Says(entry, k, v) ensures k == name && v == value { CutAt(k, EQUALS, v); }
  }

  lemma LastItemStep(input: seq<Str>, k: Str, v: Str, name: Str, value: Str)
    requires input != [] && Says(input[|input| - 1], name, value)
    ensures LastItem(input, k, v) <==> if k == name then v == value else LastItem(input[..|input| - 1], k, v)
  {
    hide Says;
    var n := |input| - 1;
    var front := input[..n];
    SaysOnce(input[n], name, value);
    if k == name {
      if v == value { assert Says(input[n], k, v); }
    } else {
      if LastItem(front, k, v) {
        var i :| 0 <= i < n && Says(front[i], k, v) && forall j, w :: i < j < n ==> !Says(front[j], k, w);
        forall j, w | i < j < |input| ensures !Says(input[j], k, w) {
          if j < n { assert front[j] == input[j]; }
        }
        assert Says(input[i], k, v);
      }
      if LastItem(input, k, v) {
        var i :| 0 <= i <= n && Says(input[i], k, v) && forall j, w :: i < j <= n ==> !Says(input[j], k, w);
        assert i < n && Says(front[i], k, v);
        forall j, w | i < j < n ensures !Says(front[j], k, w) { assert front[j] == input[j]; }
      }
    }
  }

  // ---------- filename=cid:hash ----------

  lemma {:induction false} FramesOfKeeps(entries: seq<Str>, j: nat)
    requires j < |entries| && ParseEntry(entries[j]).Some?
    requires forall i :: j < i < |entries| && ParseEntry(entries[i]).Some? ==>
      ParseEntry(entries[i]).value.filename != ParseEntry(entries[j]).value.filename
    ensures var f := ParseEntry(entries[j]).value;
      f.filename in FramesOf(entries) && FramesOf(entries)[f.filename] == f
    decreases |entries|
  {
    hide ParseEntry;
    if j < |entries| - 1 {
      var front := entries[..|entries| - 1];
      assert forall i :: 0 <= i < |front| ==> front[i] == entries[i];
      FramesOfKeeps(front, j);
    }
  }

  lemma {:induction false} FramesOfFrom(entries: seq<Str>, k: Str)
    requires k in FramesOf(entries)
    ensures exists j :: 0 <= j < |entries| && ParseEntry(entries[j]) == Some(FramesOf(entries)[k])
  {
    hide ParseEntry;
    var n := |entries| - 1;
    if ParseEntry(entries[n]).Some? && ParseEntry(entries[n]).value.filename == k {
      assert ParseEntry(entries[n]) == Some(FramesOf(entries)[k]);
    } else {
      var front := entries[..n];
      FramesOfFrom(front, k);
      var j :| 0 <= j < n && ParseEntry(front[j]) == Some(FramesOf(front)[k]);
      assert front[j] == entries[j];
    }
  }

  // ---------- a reveal in any order ----------

  function Below(n: nat): (s: set<nat>)
    ensures |s| == n && forall y: nat :: y in s <==> y < n
  {
    if n == 0 then {} else Below(n - 1) + {n - 1}
  }

  function Members(s: seq<nat>): (r: set<nat>)
    ensures forall y :: y in r <==> y in s
    ensures Distinct(s) ==> |r| == |s|
  {
    if s == [] then {}
    else
      assert forall i :: 0 <= i < |s| - 1 ==> s[..|s| - 1][i] == s[i];
      assert s == s[..|s| - 1] + [s[|s| - 1]];
      Members(s[..|s| - 1]) + {s[|s| - 1]}
  }

  /** A sequence of distinct numbers below its length is a permutation. */
  lemma DistinctCovers(s: seq<nat>, x: nat)
    requires Distinct(s) && (forall i :: 0 <= i < |s| ==> s[i] < |s|) && x < |s|
    ensures x in s
  {
    if x !in s {
      assert Members(s) <= Below(|s|) - {x};
      SmallerCard(Members(s), Below(|s|) - {x});
    }
  }

  lemma {:induction false} SmallerCard(a: set<nat>, b: set<nat>)
    requires a <= b
    ensures |a| <= |b|
    decreases |a|
  {
    if a != {} {
      var x :| x in a;
      SmallerCard(a - {x}, b - {x});
    }
  }

  /** The entries, each of which spells a frame of its own: entry j that of frame owner[j]. */
  predicate Owned(frames: seq<Frame>, entries: seq<Str>, owner: seq<nat>, cids: seq<Str>, hashes: seq<Str>) {
    && |entries| == |owner| == |cids| == |hashes| == |frames| && Distinct(owner)
    && forall j :: 0 <= j < |entries| ==>
         && owner[j] < |frames|
         && Spells(entries[j], frames[owner[j]].filename, cids[owner[j]], hashes[owner[j]])
  }

  /** Frames with distinct names, and one entry for each of them in any order, with non-empty values: the
      reveal is complete, and every frame carries the CID and the hash that its own entry spells. */
  lemma RevealSpelled(frames: seq<Frame>, entries: seq<Str>, owner: seq<nat>, cids: seq<Str>, hashes: seq<Str>)
    requires Owned(frames, entries, owner, cids, hashes)
    requires forall i, j :: 0 <= i < j < |frames| ==> frames[i].filename != frames[j].filename
    requires forall i :: 0 <= i < |frames| ==> cids[i] != [] && hashes[i] != []
    ensures RevealOf(frames, entries).Some?
    ensures var r := RevealOf(frames, entries).value;
      && |r| == |frames|
      && forall i :: 0 <= i < |frames| ==>
           && r[i].cid == cids[i] && r[i].hash == hashes[i]
           && r[i].filename == frames[i].filename && r[i].signature == frames[i].signature
           && r[i].validCount == frames[i].validCount && r[i].invalidCount == frames[i].invalidCount
  {
    hide FramesOf, FirstNamed, Spells, ParseEntry;
    var m := FramesOf(entries);
    forall j | 0 <= j < |entries|
      ensures ParseEntry(entries[j]).Some?
      ensures var f := ParseEntry(entries[j]).value;
        f.filename == frames[owner[j]].filename && f.cid == cids[owner[j]] && f.hash == hashes[owner[j]]
    {
      ParseSpelled(entries[j], frames[owner[j]].filename, cids[owner[j]], hashes[owner[j]]);
    }
    forall i | 0 <= i < |frames|
      ensures frames[i].filename in m && m[frames[i].filename].cid == cids[i] && m[frames[i].filename].hash == hashes[i]
      ensures FirstNamed(frames, frames[i].filename) == i
    {
      DistinctCovers(owner, i);
      var j :| 0 <= j < |owner| && owner[j] == i;
      FramesOfKeeps(entries, j);
    }
    forall k | k in m ensures FirstNamed(frames, k) >= 0 {
      FramesOfFrom(entries, k);
      var j :| 0 <= j < |entries| && ParseEntry(entries[j]) == Some(m[k]);
      assert frames[owner[j]].filename == k;
    }
    assert forall i :: 0 <= i < |frames| ==> RevealedFrames(frames, m)[i] == Revealed(frames, m, i);
  }

  // ---------- any reveal ----------

  /** Entry j spells the name, and no later entry does. */
  predicate LastFor(entries: seq<Str>, name: Str, j: nat) {
    && j < |entries| && ParseEntry(entries[j]).Some? && ParseEntry(entries[j]).value.filename == name
    && forall i :: j < i < |entries| && ParseEntry(entries[i]).Some? ==> ParseEntry(entries[i]).value.filename != name
  }

  predicate FirstOfItsName(frames: seq<Frame>, i: nat)
    requires i < |frames|
  {
    forall h :: 0 <= h < i ==> frames[h].filename != frames[i].filename
  }

  /** What the entries make of frame i: the first frame of a name takes the CID and the hash of the last entry
      for it, if there is one; all else stays. */
  ghost predicate TakesFrom(frames: seq<Frame>, entries: seq<Str>, i: nat, now: Frame)
    requires i < |frames|
  {
    && (forall j: nat :: LastFor(entries, frames[i].filename, j) && FirstOfItsName(frames, i) ==>
          now == frames[i].(cid := ParseEntry(entries[j]).value.cid, hash := ParseEntry(entries[j]).value.hash))
    && ((forall j: nat :: j < |entries| ==> !LastFor(entries, frames[i].filename, j)) || !FirstOfItsName(frames, i) ==>
          now == frames[i])
  }

  /** Any reveal, also of frames that were revealed before: it goes through exactly when there are as many
      entries as frames, every entry that can be read names a frame, and no frame is left without a CID or
      a hash. */
  lemma RevealMeans(frames: seq<Frame>, entries: seq<Str>)
    ensures RevealOf(frames, entries).Some? <==>
      && |entries| == |frames|
      && (forall j :: 0 <= j < |entries| && ParseEntry(entries[j]).Some? ==>
            exists i :: 0 <= i < |frames| && frames[i].filename == ParseEntry(entries[j]).value.filename)
      && forall i, now :: 0 <= i < |frames| && TakesFrom(frames, entries, i, now) ==> now.cid != [] && now.hash != []
    ensures RevealOf(frames, entries).Some? ==>
      |RevealOf(frames, entries).value| == |frames|
      && forall i :: 0 <= i < |frames| ==> TakesFrom(frames, entries, i, RevealOf(frames, entries).value[i])
  {
    hide FramesOf, FirstNamed, ParseEntry, TakesFrom;
    var m := FramesOf(entries);
    forall i | 0 <= i < |frames| ensures TakesFrom(frames, entries, i, Revealed(frames, m, i)) {
      RevealedTakes(frames, entries, i);
    }
    forall i, now | 0 <= i < |frames| && TakesFrom(frames, entries, i, now) ensures now == Revealed(frames, m, i) {
      TakesOnce(frames, entries, i, now, Revealed(frames, m, i));
    }
    KnownMeans(frames, entries);
    assert forall i :: 0 <= i < |frames| ==> RevealedFrames(frames, m)[i] == Revealed(frames, m, i);
  }

  lemma {:induction false} LastExists(entries: seq<Str>, j: nat) returns (l: nat)
    requires j < |entries| && ParseEntry(entries[j]).Some?
    ensures LastFor(entries, ParseEntry(entries[j]).value.filename, l)
    decreases |entries| - j
  {
    hide ParseEntry;
    var name := ParseEntry(entries[j]).value.filename;
    if LastFor(entries, name, j) {
      l := j;
    } else {
      var i :| j < i < |entries| && ParseEntry(entries[i]).Some? && ParseEntry(entries[i]).value.filename == name;
      l := LastExists(entries, i);
    }
  }

  lemma RevealedTakes(frames: seq<Frame>, entries: seq<Str>, i: nat)
    requires i < |frames|
    ensures TakesFrom(frames, entries, i, Revealed(frames, FramesOf(entries), i))
  {
    hide FramesOf, FirstNamed, ParseEntry;
    var m, name := FramesOf(entries), frames[i].filename;
    forall j: nat | LastFor(entries, name, j) ensures name in m && m[name] == ParseEntry(entries[j]).value {
      FramesOfKeeps(entries, j);
    }
    if name in m {
      FramesOfFrom(entries, name);
      var j :| 0 <= j < |entries| && ParseEntry(entries[j]) == Some(m[name]);
      var l := LastExists(entries, j);
    }
    assert FirstOfItsName(frames, i) <==> FirstNamed(frames, name) == i;
  }

  lemma TakesOnce(frames: seq<Frame>, entries: seq<Str>, i: nat, a: Frame, b: Frame)
    requires i < |frames| && TakesFrom(frames, entries, i, a) && TakesFrom(frames, entries, i, b)
    ensures a == b
  {
    hide ParseEntry;
    if FirstOfItsName(frames, i) && exists j: nat :: j < |entries| && LastFor(entries, frames[i].filename, j) {
      var j: nat :| j < |entries| && LastFor(entries, frames[i].filename, j);
    }
  }

  lemma KnownMeans(frames: seq<Frame>, entries: seq<Str>)
    ensures AllKnown(frames, FramesOf(entries)) <==>
      forall j :: 0 <= j < |entries| && ParseEntry(entries[j]).Some? ==>
        exists i :: 0 <= i < |frames| && frames[i].filename == ParseEntry(entries[j]).value.filename
  {
    hide FramesOf, FirstNamed, ParseEntry;
    var m := FramesOf(entries);
    forall j | 0 <= j < |entries| && ParseEntry(entries[j]).Some?
      ensures ParseEntry(entries[j]).value.filename in m
    {
      var l := LastExists(entries, j);
      FramesOfKeeps(entries, l);
    }
    forall k | k in m
      ensures exists j ::
        0 <= j < |entries| && ParseEntry(entries[j]).Some? && ParseEntry(entries[j]).value.filename == k
    {
      FramesOfFrom(entries, k);
      var j :| 0 <= j < |entries| && ParseEntry(entries[j]) == Some(m[k]);
    }
    if AllKnown(frames, m) {
      forall j | 0 <= j < |entries| && ParseEntry(entries[j]).Some?
        ensures exists i :: 0 <= i < |frames| && frames[i].filename == ParseEntry(entries[j]).value.filename
      {
        var i := FirstNamed(frames, ParseEntry(entries[j]).value.filename);
        assert frames[i].filename == ParseEntry(entries[j]).value.filename;
      }
    }
  }
}
