/** utils.go: the command-line form of a set of frames and of a string map. */
module CliCodec {
  import opened Basics
  import opened Protocol

  // ---------- strings.Split and strings.SplitN ----------

  /** The text before and after the first separator. */
  function Cut(s: Str, c: byte): (r: Option<(Str, Str)>)
    ensures r.None? <==> c !in s
    ensures r.Some? ==> c !in r.value.0 && s == r.value.0 + [c] + r.value.1
  {
    if s == [] then None
    else if s[0] == c then Some(([], s[1..]))
    else
      match Cut(s[1..], c)
      case None => None
      case Some((a, b)) => Some(([s[0]] + a, b))
  }

  lemma {:induction false} CutAt(a: Str, c: byte, b: Str)
    requires c !in a
    ensures Cut(a + [c] + b, c) == Some((a, b))
  {
    var s := a + [c] + b;
    if a == [] {
      assert s[0] == c && s[1..] == b;
    } else {
      assert s[0] == a[0] && s[1..] == a[1..] + [c] + b;
      CutAt(a[1..], c, b);
      assert [a[0]] + a[1..] == a;
    }
  }

  /** strings.Split with a one-byte separator. */
  function Split(s: Str, c: byte): (parts: seq<Str>)
    ensures |parts| >= 1
    decreases |s|
  {
    match Cut(s, c)
    case None => [s]
    case Some((a, b)) => [a] + Split(b, c)
  }

  lemma SplitPair(a: Str, c: byte, b: Str)
    requires c !in a && c !in b
    ensures Split(a + [c] + b, c) == [a, b]
  {
    CutAt(a, c, b);
  }

  /** strings.SplitN(s, c, 2): two parts when the separator occurs, else one. */
  function SplitN2(s: Str, c: byte): (parts: seq<Str>)
    ensures 1 <= |parts| <= 2
  {
    match Cut(s, c)
    case None => [s]
    case Some((a, b)) => [a, b]
  }

  // ---------- revealed frames: filename=cid:hash ----------

  function RevealedFrame(filename: Str, cid: Str, hash: Str): Frame { Frame(filename, [], cid, hash, 0, 0) }

  /** One entry of FromCliToFrames; malformed entries are skipped. */
  function ParseEntry(entry: Str): Option<Frame> {
    var parts := Split(entry, EQUALS);
    if |parts| != 2 then None
    else
      var cidAndHash := Split(parts[1], COLON);
      if |cidAndHash| != 2 then None
      else Some(RevealedFrame(parts[0], cidAndHash[0], cidAndHash[1]))
  }

  /** All entries in order: a later entry for a filename replaces an earlier one. */
  function FramesOf(entries: seq<Str>): (m: map<Str, Frame>)
    ensures forall k | k in m :: m[k].filename == k
  {
    if entries == [] then map[]
    else
      var m := FramesOf(entries[..|entries| - 1]);
      match ParseEntry(entries[|entries| - 1])
      case None => m
      case Some(f) => m[f.filename := f]
  }

  method FromCliToFrames(entries: seq<Str>) returns (result: map<Str, Frame>)
    ensures result == FramesOf(entries)
  {
    result := map[];
    for i := 0 to |entries|
      invariant result == FramesOf(entries[..i])
    {
      assert entries[..i + 1][..i] == entries[..i];
      var parts := Split(entries[i], EQUALS);
      if |parts| != 2 {
        continue;
      }
      var filename := parts[0];
      var cidAndHash := Split(parts[1], COLON);
      if |cidAndHash| != 2 {
        continue;
      }
      var frame := RevealedFrame(filename, cidAndHash[0], cidAndHash[1]);
      result := result[filename := frame];
    }
    assert entries[..|entries|] == entries;
  }

  function Entry(filename: Str, frame: Frame): Str {
    filename + [EQUALS] + frame.cid + [COLON] + frame.hash
  }

  /** The entries of a map in some order of its keys, which Go leaves open. */
  ghost predicate Emission<V>(m: map<Str, V>, show: (Str, V) -> Str, order: seq<Str>, entries: seq<Str>) {
    && Distinct(order)
    && (forall k :: k in order <==> k in m)
    && |entries| == |order|
    && (forall i :: 0 <= i < |order| ==> order[i] in m && entries[i] == show(order[i], m[order[i]]))
  }

  /** The part of a map whose keys are among the first n of an order. */
  ghost function Upto<V>(m: map<Str, V>, order: seq<Str>, n: nat): map<Str, V>
    requires n <= |order|
  {
    map k | k in m && k in order[..n] :: m[k]
  }

  lemma UptoNone<V>(m: map<Str, V>, order: seq<Str>)
    ensures Upto(m, order, 0) == map[]
  {
  }

  lemma UptoStep<V>(m: map<Str, V>, order: seq<Str>, n: nat)
    requires n < |order| && order[n] in m
    ensures Upto(m, order, n + 1) == Upto(m, order, n)[order[n] := m[order[n]]]
  {
    assert order[..n + 1] == order[..n] + [order[n]];
  }

  lemma UptoAll<V>(m: map<Str, V>, order: seq<Str>)
    requires forall k :: k in m ==> k in order
    ensures Upto(m, order, |order|) == m
  {
    assert order[..|order|] == order;
  }

  /** FromFramesToCli, for whatever order the map is walked in. */
  method FromFramesToCli(frames: map<Str, Frame>) returns (result: seq<Str>, ghost order: seq<Str>)
    ensures Emission(frames, Entry, order, result)
  {
    result := [];
    order := [];
    var left := frames.Keys;
    while left != {}
      invariant left <= frames.Keys
      invariant Distinct(order)
      invariant forall k :: k in order <==> k in frames && k !in left
      invariant |result| == |order|
      invariant forall i :: 0 <= i < |order| ==> order[i] in frames && result[i] == Entry(order[i], frames[order[i]])
      decreases left
    {
      var filename :| filename in left;
      result := result + [Entry(filename, frames[filename])];
      order := order + [filename];
      left := left - {filename};
    }
  }

  /** A map FromFramesToCli can be asked to print: keyed by filename, only Cid and Hash set, and no
      separator inside the parts. */
  predicate Printable(m: map<Str, Frame>) {
    forall k | k in m ::
      && m[k].filename == k && m[k].signature == [] && m[k].validCount == 0 && m[k].invalidCount == 0
      && EQUALS !in k
      && EQUALS !in m[k].cid && COLON !in m[k].cid
      && EQUALS !in m[k].hash && COLON !in m[k].hash
  }

  /** The entry has the form filename=cid:hash. */
  predicate Spells(entry: Str, filename: Str, cid: Str, hash: Str) {
    && entry == filename + [EQUALS] + cid + [COLON] + hash
    && EQUALS !in filename && EQUALS !in cid && COLON !in cid && EQUALS !in hash && COLON !in hash
  }

  /** An entry is read as what it spells. */
  lemma ParseSpelled(entry: Str, filename: Str, cid: Str, hash: Str)
    requires Spells(entry, filename, cid, hash)
    ensures ParseEntry(entry).Some?
    ensures var f := ParseEntry(entry).value;
      && f.filename == filename && f.cid == cid && f.hash == hash
      && f.signature == [] && f.validCount == 0 && f.invalidCount == 0
  {
    var tail := cid + [COLON] + hash;
    assert entry == filename + [EQUALS] + tail;
    SplitPair(filename, EQUALS, tail);
    SplitPair(cid, COLON, hash);
  }

  lemma SplitJoins(s: Str, c: byte)
    requires |Split(s, c)| == 2
    ensures var parts := Split(s, c);
      s == parts[0] + [c] + parts[1] && c !in parts[0] && c !in parts[1]
  {
  }

  /** Only entries of that form are read; the others are skipped. */
  lemma ParseOnlySpelled(entry: Str)
    ensures ParseEntry(entry).Some? ==>
      Spells(entry, ParseEntry(entry).value.filename, ParseEntry(entry).value.cid, ParseEntry(entry).value.hash)
    ensures ParseEntry(entry).None? <==> forall filename, cid, hash :: !Spells(entry, filename, cid, hash)
  {
    if ParseEntry(entry).Some? {
      SplitJoins(entry, EQUALS);
      var parts := Split(entry, EQUALS);
      SplitJoins(parts[1], COLON);
      var tail := Split(parts[1], COLON);
      assert entry == parts[0] + [EQUALS] + tail[0] + [COLON] + tail[1];
      assert forall x | x in tail[0] || x in tail[1] :: x in parts[1];
      assert Spells(entry, parts[0], tail[0], tail[1]);
    } else {
      forall filename, cid, hash ensures !Spells(entry, filename, cid, hash) {
        if Spells(entry, filename, cid, hash) { ParseSpelled(entry, filename, cid, hash); }
      }
    }
  }

  lemma EntrySpells(k: Str, f: Frame)
    requires EQUALS !in k && EQUALS !in f.cid && COLON !in f.cid && EQUALS !in f.hash && COLON !in f.hash
    ensures Spells(Entry(k, f), k, f.cid, f.hash)
  {
  }

  lemma {:induction false} FramesOfPrefix(m: map<Str, Frame>, order: seq<Str>, entries: seq<Str>, n: nat)
    requires Printable(m) && Emission(m, Entry, order, entries) && n <= |order|
    ensures FramesOf(entries[..n]) == Upto(m, order, n)
  {
    hide ParseEntry, Entry, Upto, Distinct;
    if n == 0 {
      UptoNone(m, order);
    } else {
      FramesOfPrefix(m, order, entries, n - 1);
      var k := order[n - 1];
      assert entries[..n][..n - 1] == entries[..n - 1];
      assert entries[..n][n - 1] == Entry(k, m[k]);
      assert Spells(entries[n - 1], k, m[k].cid, m[k].hash) by { EntrySpells(k, m[k]); }
      ParseSpelled(entries[n - 1], k, m[k].cid, m[k].hash);
      UptoStep(m, order, n - 1);
    }
  }

  /** Round trip, for every order the printer may have chosen. */
  lemma FramesRoundTrip(m: map<Str, Frame>, order: seq<Str>, entries: seq<Str>)
    requires Printable(m) && Emission(m, Entry, order, entries)
    ensures FramesOf(entries) == m
  {
    FramesOfPrefix(m, order, entries, |order|);
    UptoAll(m, order);
    assert entries[..|order|] == entries;
  }

  // ---------- key=value maps ----------

  /** TransformSliceToMap: None is the error for an item without a separator. */
  function MapOf(input: seq<Str>): Option<map<Str, Str>> {
    if input == [] then Some(map[])
    else
      match MapOf(input[..|input| - 1])
      case None => None
      case Some(m) =>
        var parts := SplitN2(input[|input| - 1], EQUALS);
        if |parts| != 2 then None else Some(m[parts[0] := parts[1]])
  }

  lemma {:induction false} MapOfFailsEarly(input: seq<Str>, n: nat)
    requires n <= |input| && MapOf(input[..n]).None?
    ensures MapOf(input).None?
    decreases |input|
  {
    if n < |input| {
      assert input[..|input| - 1][..n] == input[..n];
      MapOfFailsEarly(input[..|input| - 1], n);
    } else {
      assert input[..n] == input;
    }
  }

  method TransformSliceToMap(input: seq<Str>) returns (result: Option<map<Str, Str>>)
    ensures result == MapOf(input)
  {
    var m := map[];
    for i := 0 to |input|
      invariant MapOf(input[..i]) == Some(m)
    {
      assert input[..i + 1][..i] == input[..i];
      var parts := SplitN2(input[i], EQUALS);
      if |parts| != 2 {
        MapOfFailsEarly(input, i + 1);
        return None;
      }
      m := m[parts[0] := parts[1]];
    }
    assert input[..|input|] == input;
    return Some(m);
  }

  function KeyValue(key: Str, value: Str): Str { key + [EQUALS] + value }

  /** MapToKeyValueFormat, for whatever order the map is walked in. */
  method MapToKeyValueFormat(inputMap: map<Str, Str>) returns (parts: seq<Str>, ghost order: seq<Str>)
    ensures Emission(inputMap, KeyValue, order, parts)
  {
    parts := [];
    order := [];
    var left := inputMap.Keys;
    while left != {}
      invariant left <= inputMap.Keys
      invariant Distinct(order)
      invariant forall k :: k in order <==> k in inputMap && k !in left
      invariant |parts| == |order|
      invariant forall i :: 0 <= i < |order| ==>
        order[i] in inputMap && parts[i] == KeyValue(order[i], inputMap[order[i]])
      decreases left
    {
      var key :| key in left;
      parts := parts + [KeyValue(key, inputMap[key])];
      order := order + [key];
      left := left - {key};
    }
  }

  lemma {:induction false} MapOfPrefix(m: map<Str, Str>, order: seq<Str>, entries: seq<Str>, n: nat)
    requires (forall k | k in m :: EQUALS !in k) && Emission(m, KeyValue, order, entries) && n <= |order|
    ensures MapOf(entries[..n]) == Some(Upto(m, order, n))
  {
    if n > 0 {
      MapOfPrefix(m, order, entries, n - 1);
      var k := order[n - 1];
      assert entries[..n][..n - 1] == entries[..n - 1];
      assert SplitN2(entries[n - 1], EQUALS) == [k, m[k]] by { CutAt(k, EQUALS, m[k]); }
      UptoStep(m, order, n - 1);
    }
  }

  /** Round trip for keys without '='; values may contain '=', as base64 padding does. */
  lemma KeyValueRoundTrip(m: map<Str, Str>, order: seq<Str>, entries: seq<Str>)
    requires (forall k | k in m :: EQUALS !in k) && Emission(m, KeyValue, order, entries)
    ensures MapOf(entries) == Some(m)
  {
    MapOfPrefix(m, order, entries, |order|);
    UptoAll(m, order);
    assert entries[..|order|] == entries;
  }
}
