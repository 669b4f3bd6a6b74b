/** Publishing with confirms: a message the broker returns is recognised by its id, which arrives before the confirm. */
module OrderPlacedPublisher {
  /**
   What broker and connection do with one message: take it and confirm, return it and confirm, or fail to confirm, in
   which case the message may have been taken, or returned, all the same.
   */
  datatype Answer = Accepted | Bounced | Unconfirmed(taken: bool, bounced: bool)

  /**
   What `publish` tells its caller: success, an unroutable message, or another error. `taken` is what it does not tell:
   whether the broker has the message.
   */
  datatype Fate = Confirms | Returns(taken: bool) | Breaks(taken: bool)

  predicate IsTaken(answer: Answer) {
    answer.Accepted? || (answer.Unconfirmed? && answer.taken)
  }

  /** An id left behind by an earlier publish makes an accepted message look returned. */
  function FateOf(returned: set<nat>, id: nat, answer: Answer): Fate {
    match answer
    case Accepted => if id in returned then Returns(true) else Confirms
    case Bounced => Returns(false)
    case Unconfirmed(taken, _) => Breaks(taken)
  }

  function ReturnedAfter(returned: set<nat>, id: nat, answer: Answer): set<nat> {
    match answer
    case Accepted => returned - {id}
    case Bounced => returned - {id}
    case Unconfirmed(_, bounced) => if bounced then returned + {id} else returned
  }

  class Publisher {
    var isOpen: bool
    var returned: set<nat>

    constructor ()
      ensures !isOpen && returned == {}
    {
      isOpen := false;
      returned := {};
    }

    method Open()
      modifies this
      ensures isOpen && returned == old(returned)
    {
      isOpen := true;
    }

    /** Without a channel nothing is sent. */
    method Publish(id: nat, answer: Answer) returns (fate: Fate)
      modifies this
      ensures isOpen == old(isOpen)
      ensures !isOpen ==> fate == Breaks(false) && returned == old(returned)
      ensures isOpen ==> fate == FateOf(old(returned), id, answer) && returned == ReturnedAfter(old(returned), id, answer)
      ensures fate.Confirms? <==> isOpen && answer.Accepted? && id !in old(returned)
      ensures fate.Returns? <==> isOpen && (answer.Bounced? || (answer.Accepted? && id in old(returned)))
      ensures isOpen && !fate.Confirms? ==> (fate.taken <==> IsTaken(answer))
      ensures forall other | other != id :: other in returned <==> other in old(returned)
      ensures isOpen ==> (id in returned <==> answer.Unconfirmed? && (answer.bounced || id in old(returned)))
    {
      if !isOpen {
        return Breaks(false);
      }
      if answer.Bounced? || (answer.Unconfirmed? && answer.bounced) {
        returned := returned + {id};
      }
      if answer.Unconfirmed? {
        return Breaks(answer.taken);
      }
      if id in returned {
        returned := returned - {id};
        return Returns(answer.Accepted?);
      }
      fate := Confirms;
    }
  }

  /** The answer to every publish so far of one process, with the id of its message. */
  datatype Sent = Sent(id: nat, answer: Answer)

  ghost predicate AllConfirmed(history: seq<Sent>) {
    forall i | 0 <= i < |history| :: !history[i].answer.Unconfirmed?
  }

  /** Errors are last: what came before the last publish has been confirmed. */
  ghost predicate ErrorsAreLast(history: seq<Sent>) {
    history != [] ==> AllConfirmed(history[..|history| - 1])
  }

  function ReturnedFrom(history: seq<Sent>): set<nat> {
    if history == [] then {}
    else
      var last := history[|history| - 1];
      ReturnedAfter(ReturnedFrom(history[..|history| - 1]), last.id, last.answer)
  }

  /** A publish whose bounce was not confirmed, and none of the same message was confirmed since. */
  ghost predicate LeftBehindBy(history: seq<Sent>, id: nat, i: nat) {
    && i < |history| && history[i].id == id && history[i].answer.Unconfirmed? && history[i].answer.bounced
    && forall j | i < j < |history| && history[j].id == id :: history[j].answer.Unconfirmed?
  }

  ghost predicate IsLeftBehind(history: seq<Sent>, id: nat) {
    exists i :: LeftBehindBy(history, id, i)
  }

  lemma LeftBehindStays(history: seq<Sent>, id: nat, i: nat)
    requires i < |history| - 1
    requires history[|history| - 1].id != id || history[|history| - 1].answer.Unconfirmed?
    ensures LeftBehindBy(history[..|history| - 1], id, i) <==> LeftBehindBy(history, id, i)
  {
    var front := history[..|history| - 1];
    assert forall j | 0 <= j < |front| :: front[j] == history[j];
  }

  lemma {:induction false} LeftBehindIffUnconfirmedBounce(history: seq<Sent>, id: nat)
    ensures id in ReturnedFrom(history) <==> IsLeftBehind(history, id)
  {
    if history != [] {
      var n := |history| - 1;
      var front, last := history[..n], history[n];
      LeftBehindIffUnconfirmedBounce(front, id);
      if last.id == id && last.answer.Unconfirmed? && last.answer.bounced {
        assert LeftBehindBy(history, id, n);
      } else if last.id != id || last.answer.Unconfirmed? {
        assert !LeftBehindBy(history, id, n);
        if i :| LeftBehindBy(front, id, i) {
          LeftBehindStays(history, id, i);
        }
        if i :| LeftBehindBy(history, id, i) {
          LeftBehindStays(history, id, i);
        }
      }
    }
  }

  /** A message is reported as unroutable although it was sent exactly if its id had been left behind. */
  lemma MisreportedIffLeftBehind(history: seq<Sent>, id: nat, answer: Answer)
    ensures FateOf(ReturnedFrom(history), id, answer) == Returns(true)
       <==> answer.Accepted? && IsLeftBehind(history, id)
  {
    LeftBehindIffUnconfirmedBounce(history, id);
  }
}
