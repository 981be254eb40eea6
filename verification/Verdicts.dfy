/** What a validation says about a frame, in terms of its entries: only the first entry for the frame's file
    counts, and its own signature is the one that is checked. */
module Verdicts {
  import opened Protocol
  import opened Basics
  import opened Verification

  /** Entry e is the first one for the file. */
  predicate EntryFor(v: Validation, name: Str, e: int)
    requires 0 <= e < |v.frames|
  {
    v.frames[e].filename == name && forall j :: 0 <= j < e ==> v.frames[j].filename != name
  }

  /** The key, the message and the entry's signature decode. */
  predicate Readable(env: Env, f: Frame, v: Validation, e: int)
    requires 0 <= e < |v.frames|
  {
    env.keyDecodes(v.publicKey) && env.messageBuilds(f.hash, v.validator) && env.signatureDecodes(v.frames[e].signature)
  }

  /** The validation's entry for the frame's file verifies. */
  predicate Endorses(env: Env, f: Frame, v: Validation) {
    exists e :: 0 <= e < |v.frames| && EntryFor(v, f.filename, e) && Readable(env, f, v, e)
      && env.verifies(v.publicKey, f.hash, v.validator, v.frames[e].signature)
  }

  /** It decodes and does not verify. */
  predicate Rejects(env: Env, f: Frame, v: Validation) {
    exists e :: 0 <= e < |v.frames| && EntryFor(v, f.filename, e) && Readable(env, f, v, e)
      && !env.verifies(v.publicKey, f.hash, v.validator, v.frames[e].signature)
  }

  /** It does not decode. */
  predicate Garbles(env: Env, f: Frame, v: Validation) {
    exists e :: 0 <= e < |v.frames| && EntryFor(v, f.filename, e) && !Readable(env, f, v, e)
  }

  predicate Mentions(v: Validation, name: Str) {
    exists e :: 0 <= e < |v.frames| && v.frames[e].filename == name
  }

  // ---------- the verdict ----------

  lemma EntryIsFirst(v: Validation, name: Str, e: int)
    requires 0 <= e < |v.frames| && EntryFor(v, name, e)
    ensures FirstNamed(v.frames, name) == e
  {
    hide FirstNamed;
  }

  /** The verdict by the first entry for the file. */
  lemma JudgeAt(env: Env, f: Frame, v: Validation, e: int)
    requires 0 <= e < |v.frames| && v.frames[e].filename == f.filename
    requires forall j :: 0 <= j < e ==> v.frames[j].filename != f.filename
    ensures var decodes := env.keyDecodes(v.publicKey) && env.messageBuilds(f.hash, v.validator)
        && env.signatureDecodes(v.frames[e].signature);
      var verifies := env.verifies(v.publicKey, f.hash, v.validator, v.frames[e].signature);
      && (Judge(env, f, v) == Undecodable <==> !decodes)
      && (Judge(env, f, v) == Good <==> decodes && verifies)
      && (Judge(env, f, v) == Bad <==> decodes && !verifies)
  {
    hide FirstNamed;
    EntryIsFirst(v, f.filename, e);
  }

  /** Every verdict, and when it is given. */
  lemma JudgeMeans(env: Env, f: Frame, v: Validation)
    ensures Judge(env, f, v) == Good <==> Endorses(env, f, v)
    ensures Judge(env, f, v) == Bad <==> Rejects(env, f, v)
    ensures Judge(env, f, v) == Undecodable <==> Garbles(env, f, v)
    ensures Judge(env, f, v) == Absent <==> !Mentions(v, f.filename)
  {
    hide FirstNamed;
    var e := FirstNamed(v.frames, f.filename);
    if e >= 0 {
      JudgeAt(env, f, v, e);
      assert EntryFor(v, f.filename, e) && Mentions(v, f.filename);
      forall d | 0 <= d < |v.frames| && EntryFor(v, f.filename, d) ensures d == e { }
    }
  }

  /** An entry for another file can be deleted. */
  lemma OtherEntriesDoNotMatter(env: Env, f: Frame, v: Validation, p: nat)
    requires p < |v.frames| && v.frames[p].filename != f.filename
    ensures Judge(env, f, v) == Judge(env, f, v.(frames := v.frames[..p] + v.frames[p + 1..]))
  {
    hide Judge;
    var w := v.(frames := v.frames[..p] + v.frames[p + 1..]);
    assert forall j :: 0 <= j < p ==> w.frames[j] == v.frames[j];
    assert forall j :: p <= j < |w.frames| ==> w.frames[j] == v.frames[j + 1];
    if Mentions(v, f.filename) {
      var e := FirstNamed(v.frames, f.filename);
      var d := if e < p then e else e - 1;
      assert e >= 0 && e != p && w.frames[d] == v.frames[e];
      JudgeAt(env, f, v, e);
      JudgeAt(env, f, w, d);
    } else {
      forall j | 0 <= j < |w.frames| ensures w.frames[j].filename != f.filename {
        assert w.frames[j] == v.frames[if j < p then j else j + 1];
      }
      JudgeMeans(env, f, v);
      JudgeMeans(env, f, w);
    }
  }

  // ---------- how many ----------

  function Endorsers(env: Env, f: Frame, vs: seq<Validation>): set<nat> {
    set j: nat | j < |vs| && Endorses(env, f, vs[j])
  }

  function Rejecters(env: Env, f: Frame, vs: seq<Validation>): set<nat> {
    set j: nat | j < |vs| && Rejects(env, f, vs[j])
  }

  lemma {:induction false} CountsVerdicts(env: Env, f: Frame, vs: seq<Validation>)
    ensures Count(env, f, vs, Good) == |Endorsers(env, f, vs)|
    ensures Count(env, f, vs, Bad) == |Rejecters(env, f, vs)|
  {
    hide Judge, Endorses, Rejects, Endorsers, Rejecters;
    if vs == [] {
      NoVerdicts(env, f);
    } else {
      CountsVerdicts(env, f, vs[..|vs| - 1]);
      JudgeMeans(env, f, vs[|vs| - 1]);
      OneMoreEndorser(env, f, vs);
      OneMoreRejecter(env, f, vs);
    }
  }

  lemma NoVerdicts(env: Env, f: Frame)
    ensures Endorsers(env, f, []) == {} && Rejecters(env, f, []) == {}
  {
  }

  lemma OneMoreEndorser(env: Env, f: Frame, vs: seq<Validation>)
    requires vs != []
    ensures |Endorsers(env, f, vs)| ==
      |Endorsers(env, f, vs[..|vs| - 1])| + (if Endorses(env, f, vs[|vs| - 1]) then 1 else 0)
  {
    hide Endorses;
    var n: nat, was, now := |vs| - 1, Endorsers(env, f, vs[..|vs| - 1]), Endorsers(env, f, vs);
    forall j: nat ensures j in now <==> j in was || (j == n && Endorses(env, f, vs[n])) {
      if j < n { assert vs[..n][j] == vs[j]; }
    }
    if Endorses(env, f, vs[n]) { assert now == was + {n}; } else { assert now == was; }
  }

  lemma OneMoreRejecter(env: Env, f: Frame, vs: seq<Validation>)
    requires vs != []
    ensures |Rejecters(env, f, vs)| ==
      |Rejecters(env, f, vs[..|vs| - 1])| + (if Rejects(env, f, vs[|vs| - 1]) then 1 else 0)
  {
    hide Rejects;
    var n: nat, was, now := |vs| - 1, Rejecters(env, f, vs[..|vs| - 1]), Rejecters(env, f, vs);
    forall j: nat ensures j in now <==> j in was || (j == n && Rejects(env, f, vs[n])) {
      if j < n { assert vs[..n][j] == vs[j]; }
    }
    if Rejects(env, f, vs[n]) { assert now == was + {n}; } else { assert now == was; }
  }

  /** A verdict looks at the name and the hash of the frame only. */
  lemma SameVerdicts(env: Env, f: Frame, g: Frame, vs: seq<Validation>)
    requires f.filename == g.filename && f.hash == g.hash
    ensures Endorsers(env, f, vs) == Endorsers(env, g, vs) && Rejecters(env, f, vs) == Rejecters(env, g, vs)
  {
    forall v: Validation
      ensures Endorses(env, f, v) == Endorses(env, g, v) && Rejects(env, f, v) == Rejects(env, g, v)
    {
      JudgeIgnoresCounts(env, f, g, v);
      JudgeMeans(env, f, v);
      JudgeMeans(env, g, v);
    }
  }
}
