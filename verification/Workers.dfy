/** Worker.go: the updates a worker record goes through. */
module Workers {
  import opened Basics
  import opened Protocol

  /** The worker with no current work. */
  function Released(w: Worker): Worker { w.(currentTaskId := [], currentThreadIndex := 0) }

  /** The released worker with the win recorded. None is a panic: the record has no reputation, or
      coins of different denominations would be added. */
  function Declared(w: Worker, payment: Coin): Option<Worker> {
    match w.reputation
    case None => None
    case Some(r) =>
      if r.winnings.denom != payment.denom then None
      else Some(Released(w).(reputation := Some(r.(
        points := r.points + 1, solutions := r.solutions + 1,
        winnings := Coin(r.winnings.denom, r.winnings.amount + payment.amount)))))
  }

  /** The worker with one more render duration. */
  function Timed(w: Worker, seconds: int): Worker
    requires w.reputation.Some?
  {
    w.(reputation := Some(w.reputation.value.(renderDurations := w.reputation.value.renderDurations + [seconds])))
  }

  /** A *Worker: a copy of the stored record that the methods update in place. */
  class WorkerObject {
    var value: Worker

    constructor (w: Worker)
      ensures value == w
    {
      value := w;
    }

    method ReleaseValidator()
      modifies this
      ensures value == Released(old(value))
    {
      value := value.(currentTaskId := []);
      value := value.(currentThreadIndex := 0);
    }

    /** Panics are reported; what is left in the object is then discarded by the caller. */
    method DeclareWinner(payment: Coin) returns (panics: bool)
      modifies this
      ensures panics <==> Declared(old(value), payment).None?
      ensures !panics ==> Declared(old(value), payment) == Some(value)
    {
      value := value.(currentTaskId := []);
      value := value.(currentThreadIndex := 0);
      if value.reputation.None? {
        return true;
      }
      var r := value.reputation.value;
      r := r.(points := r.points + 1);
      r := r.(solutions := r.solutions + 1);
      if r.winnings.denom != payment.denom {
        return true;
      }
      r := r.(winnings := Coin(r.winnings.denom, r.winnings.amount + payment.amount));
      value := value.(reputation := Some(r));
      return false;
    }

    /** The appended duration in SubmitSolution. */
    method AppendDuration(seconds: int)
      requires value.reputation.Some?
      modifies this
      ensures value == Timed(old(value), seconds)
    {
      var r := value.reputation.value;
      value := value.(reputation := Some(r.(renderDurations := r.renderDurations + [seconds])));
    }
  }
}
