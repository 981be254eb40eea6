/** GetValidatorReward over all workers of a thread: the validators' pot is never overspent, and
    without repeated validators it is paid out up to rounding. */
module Payout {
  import opened Basics
  import opened Protocol
  import opened Verification

  function Paid(vs: seq<Validation>, ws: seq<Str>, pot: int): int {
    if ws == [] then 0 else Paid(vs, ws[..|ws| - 1], pot) + ValidatorReward(vs, ws[|ws| - 1], pot)
  }

  function Files(vs: seq<Validation>, w: Str): nat {
    match FirstFiles(vs, w)
    case None => 0
    case Some(n) => n
  }

  /** The files counted for the workers of ws together. */
  function FilesOf(vs: seq<Validation>, ws: seq<Str>): nat {
    if ws == [] then 0 else FilesOf(vs, ws[..|ws| - 1]) + Files(vs, ws[|ws| - 1])
  }

  /** A further validation only adds its files to its own validator, and only to a new one. */
  lemma {:induction false} FilesOfStep(vs: seq<Validation>, ws: seq<Str>)
    requires vs != [] && Distinct(ws)
    ensures var front, last := vs[..|vs| - 1], vs[|vs| - 1];
      FilesOf(vs, ws) == FilesOf(front, ws)
        + (if last.validator in ws && FirstFiles(front, last.validator).None? then |last.frames| else 0)
    decreases |ws|
  {
    if ws != [] {
      FilesOfStep(vs, ws[..|ws| - 1]);
      assert forall k :: 0 <= k < |ws| - 1 ==> ws[..|ws| - 1][k] == ws[k];
    }
  }

  lemma {:induction false} FilesOfBound(vs: seq<Validation>, ws: seq<Str>)
    requires Distinct(ws)
    ensures FilesOf(vs, ws) <= TotalFiles(vs)
    decreases |vs|
  {
    if vs == [] {
      NoFiles(ws);
    } else {
      FilesOfStep(vs, ws);
      FilesOfBound(vs[..|vs| - 1], ws);
    }
  }

  lemma {:induction false} NoFiles(ws: seq<Str>)
    ensures FilesOf([], ws) == 0
  {
    if ws != [] { NoFiles(ws[..|ws| - 1]); }
  }

  lemma Rounding(pot: nat, files: nat, total: nat)
    requires total > 0
    ensures total * ValidatorPayment(files, total, pot) <= pot * files
    ensures pot * files < total * ValidatorPayment(files, total, pot) + total
    ensures ValidatorPayment(files, total, pot) >= 0
  {
    var a := pot * files;
    assert a >= 0;
    assert a == total * (a / total) + a % total;
  }

  /** Each payment rounds its share down by less than one unit. */
  lemma {:induction false} PaidShares(vs: seq<Validation>, ws: seq<Str>, pot: nat)
    requires TotalFiles(vs) > 0
    ensures TotalFiles(vs) * Paid(vs, ws, pot) <= pot * FilesOf(vs, ws)
    ensures pot * FilesOf(vs, ws) <= TotalFiles(vs) * Paid(vs, ws, pot) + TotalFiles(vs) * |ws|
    ensures ws != [] ==> pot * FilesOf(vs, ws) < TotalFiles(vs) * Paid(vs, ws, pot) + TotalFiles(vs) * |ws|
    ensures Paid(vs, ws, pot) >= 0
    decreases |ws|
  {
    if ws != [] {
      var front, w := ws[..|ws| - 1], ws[|ws| - 1];
      PaidShares(vs, front, pot);
      Rounding(pot, Files(vs, w), TotalFiles(vs));
      ZeroPayment(TotalFiles(vs), pot);
      AddShare(TotalFiles(vs), Paid(vs, front, pot), ValidatorReward(vs, w, pot), pot,
               FilesOf(vs, front), Files(vs, w), |front|);
    }
  }

  lemma ZeroPayment(total: nat, pot: nat)
    ensures ValidatorPayment(0, total, pot) == 0
  {
  }

  lemma AddShare(total: nat, paid: int, share: int, pot: nat, files: nat, more: nat, k: nat)
    requires total * paid <= pot * files <= total * paid + total * k
    requires total * share <= pot * more < total * share + total
    ensures total * (paid + share) <= pot * (files + more) < total * (paid + share) + total * (k + 1)
  {
    Distribute(total, paid, share);
    Distribute(pot, files, more);
    Distribute(total, k, 1);
  }

  lemma Distribute(c: int, a: int, b: int)
    ensures c * (a + b) == c * a + c * b
  {
  }

  lemma Scale(c: nat, a: int, b: int)
    requires a <= b
    ensures c * a <= c * b
  {
  }

  /** Whatever the validations, repeated validators included, distinct workers together never get
      more than the pot. */
  lemma PotSuffices(vs: seq<Validation>, ws: seq<Str>, pot: nat)
    requires Distinct(ws)
    ensures 0 <= Paid(vs, ws, pot) <= pot
  {
    if TotalFiles(vs) == 0 {
      NothingPaid(vs, ws, pot);
    } else {
      PaidShares(vs, ws, pot);
      FilesOfBound(vs, ws);
      Cancel(TotalFiles(vs), Paid(vs, ws, pot), FilesOf(vs, ws), pot);
    }
  }

  lemma Cancel(total: nat, paid: int, files: nat, pot: nat)
    requires total > 0 && files <= total && total * paid <= pot * files
    ensures paid <= pot
  {
    Scale(pot, files, total);
    if paid >= pot + 1 {
      Scale(total, pot + 1, paid);
      Distribute(total, pot, 1);
    }
  }

  lemma {:induction false} NothingPaid(vs: seq<Validation>, ws: seq<Str>, pot: nat)
    requires TotalFiles(vs) == 0
    ensures Paid(vs, ws, pot) == 0
    decreases |ws|
  {
    if ws != [] { NothingPaid(vs, ws[..|ws| - 1], pot); }
  }

  function Validators(vs: seq<Validation>): seq<Str> {
    seq(|vs|, i requires 0 <= i < |vs| => vs[i].validator)
  }

  lemma {:induction false} NewValidator(vs: seq<Validation>, w: Str)
    requires w !in Validators(vs)
    ensures FirstFiles(vs, w).None?
  {
    if vs != [] {
      assert Validators(vs)[|vs| - 1] == vs[|vs| - 1].validator;
      assert forall x | x in Validators(vs[..|vs| - 1]) :: x in Validators(vs) by {
        assert Validators(vs[..|vs| - 1]) == Validators(vs)[..|vs| - 1];
      }
      NewValidator(vs[..|vs| - 1], w);
    }
  }

  lemma {:induction false} FilesOfMore(vs: seq<Validation>, ws: seq<Str>, w: Str)
    ensures FilesOf(vs, ws + [w]) == FilesOf(vs, ws) + Files(vs, w)
  {
    assert (ws + [w])[..|ws|] == ws;
  }

  /** All validators together account for every file when none repeats. */
  lemma {:induction false} FilesOfAll(vs: seq<Validation>)
    requires Distinct(Validators(vs))
    ensures FilesOf(vs, Validators(vs)) == TotalFiles(vs)
  {
    if vs != [] {
      var front, w := vs[..|vs| - 1], vs[|vs| - 1].validator;
      var ws := Validators(front);
      assert Validators(vs) == ws + [w];
      assert ws == Validators(vs)[..|vs| - 1] && Validators(vs)[|vs| - 1] == w;
      assert w !in ws;
      assert Distinct(ws);
      FilesOfAll(front);
      FilesOfStep(vs, ws);
      NewValidator(front, w);
      FilesOfMore(vs, ws, w);
    }
  }

  lemma NoValidations(vs: seq<Validation>)
    requires TotalFiles(vs) > 0
    ensures vs != []
  {
  }

  /** Without repeated validators, the payments to all of them fall short of the pot by fewer units
      than there are validations - provided some file was validated. */
  lemma PotIsUsed(vs: seq<Validation>, pot: nat)
    requires Distinct(Validators(vs)) && TotalFiles(vs) > 0
    ensures pot - |vs| < Paid(vs, Validators(vs), pot) <= pot
  {
    var ws, total := Validators(vs), TotalFiles(vs);
    FilesOfAll(vs);
    PaidShares(vs, ws, pot);
    PotSuffices(vs, ws, pot);
    NoValidations(vs);
    var paid := Paid(vs, ws, pot);
    if pot >= paid + |vs| {
      Scale(total, paid + |vs|, pot);
      Distribute(total, paid, |vs|);
    }
  }

  // ---------- one worker's share ----------

  /** A worker is paid for its first validation: the pot times the files of that validation, divided by the
      files of all, rounded down. */
  lemma {:induction false} ShareOfFirst(vs: seq<Validation>, p: nat, pot: nat)
    requires p < |vs| && forall j :: 0 <= j < p ==> vs[j].validator != vs[p].validator
    ensures ValidatorReward(vs, vs[p].validator, pot) ==
      if TotalFiles(vs) == 0 then 0 else pot * |vs[p].frames| / TotalFiles(vs)
  {
    FirstFilesAt(vs, p);
    assert pot * |vs[p].frames| >= 0;
  }

  lemma {:induction false} FirstFilesAt(vs: seq<Validation>, p: nat)
    requires p < |vs| && forall j :: 0 <= j < p ==> vs[j].validator != vs[p].validator
    ensures FirstFiles(vs, vs[p].validator) == Some(|vs[p].frames|)
    decreases |vs|
  {
    var front := vs[..|vs| - 1];
    if p < |vs| - 1 {
      FirstFilesAt(front, p);
    } else {
      forall x | x in Validators(front) ensures x != vs[p].validator {
        var j :| 0 <= j < |front| && Validators(front)[j] == x;
        assert front[j] == vs[j];
      }
      NewValidator(front, vs[p].validator);
    }
  }

  /** Who validated nothing is paid nothing; and the files are those of all validations. */
  lemma NoShare(vs: seq<Validation>, w: Str, pot: nat)
    requires forall j :: 0 <= j < |vs| ==> vs[j].validator != w
    ensures ValidatorReward(vs, w, pot) == 0
  {
    NewValidator(vs, w);
  }

  lemma FilesAddUp(vs: seq<Validation>, v: Validation)
    ensures TotalFiles([]) == 0 && TotalFiles(vs + [v]) == TotalFiles(vs) + |v.frames|
  {
    assert (vs + [v])[..|vs|] == vs;
  }
}
