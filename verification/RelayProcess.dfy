/**
 The relay process: it opens its publisher once and relays batch after batch, until it is stopped or an error ends it.
 Its errors are therefore last, and what the broker has taken is marked, but for the last message.
 */
module RelayProcess {
  import opened Options
  import opened OrderPlacedPublisher
  import opened OutboxRelay

  const RELAY_BATCH_SIZE: int := 100
  const OUTBOX_CLEANUP_BATCH: nat := 1000

  /**
   What one round of the loop meets with: the time of its cleanup, if that is due, the rows that others hold, what the
   broker answers, and the time of each try.
   */
  datatype Round = Round(cleanupAt: Option<int>, locked: Locks, answers: nat -> Answer, clock: nat -> int)

  /** The publishes of a batch. */
  ghost function SendsOf(tried: seq<nat>, answers: nat -> Answer): seq<Sent> {
    if tried == [] then []
    else SendsOf(tried[..|tried| - 1], answers) + [Sent(tried[|tried| - 1], answers(tried[|tried| - 1]))]
  }

  /** How many publishes of the message have been confirmed. */
  ghost function Tries(history: seq<Sent>, id: nat): nat {
    if history == [] then 0
    else
      var last := history[|history| - 1];
      Tries(history[..|history| - 1], id) + if last.id == id && !last.answer.Unconfirmed? then 1 else 0
  }

  /** The ids of the messages that the broker took. */
  ghost function TakenIn(history: seq<Sent>): seq<nat> {
    if history == [] then []
    else
      var last := history[|history| - 1];
      TakenIn(history[..|history| - 1]) + if IsTaken(last.answer) then [last.id] else []
  }

  // ----- a process whose publishes have all been confirmed -----

  lemma ConfirmedNext(history: seq<Sent>, sent: Sent)
    ensures AllConfirmed(history + [sent]) <==> AllConfirmed(history) && !sent.answer.Unconfirmed?
  {
    var longer := history + [sent];
    assert longer[|history|] == sent;
    assert forall i | 0 <= i < |history| :: longer[i] == history[i];
  }

  lemma {:induction false} SendsConfirmedIffUnbroken(tried: seq<nat>, answers: nat -> Answer)
    ensures AllConfirmed(SendsOf(tried, answers)) <==> Unbroken(tried, Fates(true, {}, answers))
  {
    if tried != [] {
      var front, last := tried[..|tried| - 1], tried[|tried| - 1];
      SendsConfirmedIffUnbroken(front, answers);
      ConfirmedNext(SendsOf(front, answers), Sent(last, answers(last)));
      assert Fates(true, {}, answers)(last).Breaks? <==> answers(last).Unconfirmed?;
    }
  }

  /** It remembers nothing. */
  lemma {:induction false} NothingRemembered(tried: seq<nat>, answers: nat -> Answer)
    requires Unbroken(tried, Fates(true, {}, answers))
    ensures RememberedAfter(true, {}, tried, answers) == {}
  {
    if tried != [] {
      NothingRemembered(tried[..|tried| - 1], answers);
    }
  }

  lemma TakenNext(history: seq<Sent>, sent: Sent)
    ensures TakenIn(history + [sent]) == TakenIn(history) + if IsTaken(sent.answer) then [sent.id] else []
  {
    assert (history + [sent])[..|history|] == history;
  }

  lemma {:induction false} SentIsTaken(history: seq<Sent>, tried: seq<nat>, answers: nat -> Answer)
    ensures TakenIn(history + SendsOf(tried, answers)) == TakenIn(history) + SentAmong(tried, Fates(true, {}, answers))
  {
    if tried == [] {
      assert history + [] == history;
    } else {
      var front, last := tried[..|tried| - 1], tried[|tried| - 1];
      SentIsTaken(history, front, answers);
      TakenNext(history + SendsOf(front, answers), Sent(last, answers(last)));
      assert history + SendsOf(tried, answers) == history + SendsOf(front, answers) + [Sent(last, answers(last))];
      assert SentOf(last, Fates(true, {}, answers)(last)) == if IsTaken(answers(last)) then [last] else [];
    }
  }

  // ----- the rows and the publishes -----

  /** Each confirmed publish of a row is one of its attempts, and a row is marked exactly if one of them was accepted. */
  ghost predicate RowMatches(before: Row, history: seq<Sent>, r: nat, after: Row) {
    && after.attempts == before.attempts + Tries(history, r)
    && (after.publishedAt.Some? <==> before.publishedAt.Some? || Sent(r, Accepted) in history)
  }

  ghost predicate RowsMatch(before: map<nat, Row>, history: seq<Sent>, after: map<nat, Row>) {
    && after.Keys <= before.Keys
    && (forall r | r in after :: RowMatches(before[r], history, r, after[r]))
    && (forall r | r in before && r !in after :: before[r].publishedAt.Some? || Sent(r, Accepted) in history)
  }

  lemma OneSendMatches(before: Row, history: seq<Sent>, r: nat, row: Row, answer: Answer, now: int)
    requires RowMatches(before, history, r, row)
    ensures RowMatches(before, history + [Sent(r, answer)], r, TriedRow(row, FateOf({}, r, answer), now))
  {
    var longer := history + [Sent(r, answer)];
    assert longer[..|history|] == history;
    assert Sent(r, Accepted) in longer <==> Sent(r, Accepted) in history || answer.Accepted?;
  }

  lemma OtherSendMatches(before: Row, history: seq<Sent>, r: nat, row: Row, other: nat, answer: Answer)
    requires RowMatches(before, history, r, row) && other != r
    ensures RowMatches(before, history + [Sent(other, answer)], r, row)
  {
    var longer := history + [Sent(other, answer)];
    assert longer[..|history|] == history;
    assert Sent(r, Accepted) in longer <==> Sent(r, Accepted) in history;
  }

  lemma SendKeepsMatch(before: map<nat, Row>, history: seq<Sent>, rows: map<nat, Row>, row: nat, answer: Answer, now: int)
    requires RowsMatch(before, history, rows)
    ensures var after := if row in rows then rows[row := TriedRow(rows[row], FateOf({}, row, answer), now)] else rows;
            RowsMatch(before, history + [Sent(row, answer)], after)
  {
    var after := if row in rows then rows[row := TriedRow(rows[row], FateOf({}, row, answer), now)] else rows;
    forall r | r in after
      ensures RowMatches(before[r], history + [Sent(row, answer)], r, after[r])
    {
      if r == row {
        OneSendMatches(before[r], history, r, rows[r], answer, now);
      } else {
        OtherSendMatches(before[r], history, r, rows[r], row, answer);
      }
    }
  }

  lemma {:induction false} BatchKeepsMatch(before: map<nat, Row>, history: seq<Sent>, rows: map<nat, Row>, tried: seq<nat>,
                                           answers: nat -> Answer, clock: nat -> int)
    requires RowsMatch(before, history, rows)
    ensures RowsMatch(before, history + SendsOf(tried, answers), RowsAfter(rows, tried, Fates(true, {}, answers), clock))
  {
    if tried == [] {
      assert history + [] == history;
    } else {
      var front, last := tried[..|tried| - 1], tried[|tried| - 1];
      BatchKeepsMatch(before, history, rows, front, answers, clock);
      SendKeepsMatch(before, history + SendsOf(front, answers), RowsAfter(rows, front, Fates(true, {}, answers), clock), last,
                     answers(last), clock(|front|));
      assert history + SendsOf(tried, answers) == history + SendsOf(front, answers) + [Sent(last, answers(last))];
    }
  }

  lemma CleanupKeepsMatch(before: map<nat, Row>, history: seq<Sent>, rows: map<nat, Row>, now: int)
    requires RowsMatch(before, history, rows)
    ensures RowsMatch(before, history, rows - Outdated(rows, now, OUTBOX_RETENTION_DAYS))
  {
  }

  lemma ConfirmedAndMore(history: seq<Sent>, more: seq<Sent>)
    requires AllConfirmed(history)
    ensures AllConfirmed(history + more) <==> AllConfirmed(more)
    ensures ErrorsAreLast(more) ==> ErrorsAreLast(history + more)
  {
    var all := history + more;
    assert forall i | 0 <= i < |more| :: all[|history| + i] == more[i];
    if more == [] {
      assert all == history;
    } else {
      assert all[..|all| - 1] == history + more[..|more| - 1];
    }
  }

  /** Whatever a batch does, its errors are last. */
  lemma BatchErrorIsLast(tried: seq<nat>, answers: nat -> Answer)
    requires tried != [] ==> Unbroken(tried[..|tried| - 1], Fates(true, {}, answers))
    ensures ErrorsAreLast(SendsOf(tried, answers))
  {
    if tried != [] {
      SendsConfirmedIffUnbroken(tried[..|tried| - 1], answers);
      assert SendsOf(tried, answers)[..|SendsOf(tried, answers)| - 1] == SendsOf(tried[..|tried| - 1], answers);
    }
  }

  /** What the process has done so far, and what the table and the broker have of it. */
  ghost predicate Relayed(before: map<nat, Row>, sentBefore: seq<nat>, history: seq<Sent>, rows: map<nat, Row>, sent: seq<nat>) {
    RowsMatch(before, history, rows) && sent == sentBefore + TakenIn(history)
  }

  /** One more batch. */
  lemma BatchIsRelayed(before: map<nat, Row>, sentBefore: seq<nat>, history: seq<Sent>, rows: map<nat, Row>, sent: seq<nat>,
                       tried: seq<nat>, answers: nat -> Answer, clock: nat -> int)
    requires Relayed(before, sentBefore, history, rows, sent)
    ensures var longer, fate := history + SendsOf(tried, answers), Fates(true, {}, answers);
            Relayed(before, sentBefore, longer, RowsAfter(rows, tried, fate, clock), sent + SentAmong(tried, fate))
  {
    BatchKeepsMatch(before, history, rows, tried, answers, clock);
    SentIsTaken(history, tried, answers);
    calc {
      sent + SentAmong(tried, Fates(true, {}, answers));
      sentBefore + TakenIn(history) + SentAmong(tried, Fates(true, {}, answers));
      sentBefore + (TakenIn(history) + SentAmong(tried, Fates(true, {}, answers)));
    }
  }

  /** Its error, if there is one, is the last publish; otherwise the publisher still remembers nothing. */
  lemma BatchErrorIsTheLast(history: seq<Sent>, tried: seq<nat>, answers: nat -> Answer)
    requires AllConfirmed(history)
    requires tried != [] ==> Unbroken(tried[..|tried| - 1], Fates(true, {}, answers))
    ensures var longer, unbroken := history + SendsOf(tried, answers), Unbroken(tried, Fates(true, {}, answers));
            && ErrorsAreLast(longer) && (AllConfirmed(longer) <==> unbroken)
            && (unbroken ==> RememberedAfter(true, {}, tried, answers) == {})
  {
    SendsConfirmedIffUnbroken(tried, answers);
    BatchErrorIsLast(tried, answers);
    ConfirmedAndMore(history, SendsOf(tried, answers));
    if Unbroken(tried, Fates(true, {}, answers)) {
      NothingRemembered(tried, answers);
    }
  }

  /**
   The loop, for as many rounds as come before the process is told to stop. It ends early at its first publish error. Every
   message that the broker accepted is marked, or has been since and is cleaned up, and every confirmed publish is an
   attempt of its row.
   */
  method Relay(outbox: Outbox, rounds: seq<Round>) returns (stopped: bool, ghost history: seq<Sent>)
    modifies outbox
    ensures ErrorsAreLast(history) && (stopped <==> AllConfirmed(history))
    ensures Relayed(old(outbox.rows), old(outbox.sent), history, outbox.rows, outbox.sent)
  {
    var publisher := new Publisher();
    publisher.Open();
    history := [];
    for k := 0 to |rounds|
      invariant publisher.isOpen && publisher.returned == {} && AllConfirmed(history)
      invariant Relayed(old(outbox.rows), old(outbox.sent), history, outbox.rows, outbox.sent)
    {
      var round := rounds[k];
      if round.cleanupAt.Some? {
        CleanupKeepsMatch(old(outbox.rows), history, outbox.rows, round.cleanupAt.value);
        var deleted := outbox.CleanupOutbox(round.cleanupAt.value, OUTBOX_RETENTION_DAYS, OUTBOX_CLEANUP_BATCH);
      }
      ghost var rows, sent := outbox.rows, outbox.sent;
      var result, tried, fate := outbox.RelayBatch(publisher, RELAY_BATCH_SIZE, round.locked, round.answers, round.clock);
      BatchIsRelayed(old(outbox.rows), old(outbox.sent), history, rows, sent, tried, round.answers, round.clock);
      BatchErrorIsTheLast(history, tried, round.answers);
      history := history + SendsOf(tried, round.answers);
      if result.Threw? {
        return false, history;
      }
    }
    stopped := true;
  }
}
