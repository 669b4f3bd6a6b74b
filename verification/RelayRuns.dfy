/** A batch of the relay, undisturbed, is a run of the pipeline: one transaction after the other. */
module RelayRuns {
  import opened Options
  import OutboxRelay
  import opened OrderPlacedPublisher
  import opened RelayBooks
  import opened OrderPipeline

  /** The rows that the other relays hold, as long as they do nothing. */
  ghost function OthersHold(b: Books): OutboxRelay.Locks {
    (_: nat) => set r | r in b.outbox && IsLocked(b, r)
  }

  /** The clock does not go back. */
  ghost predicate Ticks(now: int, clock: nat -> int) {
    now <= clock(0) && forall i, j | 0 <= i <= j :: clock(i) <= clock(j)
  }

  /** What a try does to the pipeline: to its row, to the memory of the process, and to the copies sent. */
  ghost predicate TriesRow(s: State, p: nat, row: nat, answer: Answer, now: int, t: State)
    requires row in s.books.outbox
  {
    var fate := FateOf(Remembered(s.books, p), row, answer);
    && t.books.outbox == s.books.outbox[row := OutboxRelay.TriedRow(s.books.outbox[row], fate, now)]
    && t.books.relays == s.books.relays && t.now == now && t.db == s.db && t.inbox == s.inbox
    && Remembered(t.books, p) == ReturnedAfter(Remembered(s.books, p), row, answer)
    && t.books.copies == s.books.copies + multiset(OutboxRelay.SentOf(row, fate))
  }

  /** The row is locked once the clock says so. */
  lemma RowGetsLocked(s: State, p: nat, row: nat, now: int) returns (actions: seq<Action>, t: State)
    requires Enabled(s, Select(p, row)) && s.now <= now
    ensures Executes(s, actions, t) && Locks(s.(now := now), p, row, t)
  {
    var tick, select := Tick(now - s.now), Select(p, row);
    assert Executes(s, [], s);
    RunGoesOn(s, [], s, tick);
    assert IsLocked(Next(s, tick).books, row) <==> IsLocked(s.books, row);
    RunGoesOn(s, [] + [tick], Next(s, tick), select);
    actions := [] + [tick] + [select];
    t := Next(Next(s, tick), select);
  }

  /** The state in which a process has locked the row. */
  ghost predicate Locks(s: State, p: nat, row: nat, t: State) {
    && p !in s.books.relays && row in s.books.outbox
    && t == s.(books := s.books.(relays := s.books.relays[p := Relay(row, Locked)]))
  }

  lemma LockingForgetsNothing(s: State, p: nat, row: nat, t: State)
    requires Locks(s, p, row, t)
    ensures Remembered(t.books, p) == Remembered(s.books, p) && t.books.relays - {p} == s.books.relays
  {
  }

  lemma ConfirmedRowIsMarked(s: State, p: nat, row: nat, answer: Answer, t: State)
    requires Locks(s, p, row, t) && FateOf(Remembered(s.books, p), row, answer).Confirms?
    ensures Enabled(t, Publish(p, answer)) && Enabled(Next(t, Publish(p, answer)), Mark(p))
    ensures TriesRow(s, p, row, answer, s.now, Next(Next(t, Publish(p, answer)), Mark(p)))
  {
    LockingForgetsNothing(s, p, row, t);
  }

  lemma ReturnedBooks(b: Books, p: nat, row: nat, answer: Answer)
    requires p !in b.relays && row in b.outbox && FateOf(Remembered(b, p), row, answer).Returns?
    ensures var sent := Publishes(b.(relays := b.relays[p := Relay(row, Locked)]), p, answer);
            && Holds(sent, p) && sent.relays[p].phase.Unroutable?
            && var c := CountsReturn(sent, p);
               && c.outbox == b.outbox[row := b.outbox[row].(attempts := b.outbox[row].attempts + 1)]
               && c.relays == b.relays && Remembered(c, p) == ReturnedAfter(Remembered(b, p), row, answer)
               && c.copies == b.copies + if IsTaken(answer) then multiset{row} else multiset{}
  {
    var locked := b.(relays := b.relays[p := Relay(row, Locked)]);
    assert Remembered(locked, p) == Remembered(b, p) && locked.relays - {p} == b.relays;
  }

  lemma ReturnedRowIsCounted(s: State, p: nat, row: nat, answer: Answer, t: State)
    requires Locks(s, p, row, t) && FateOf(Remembered(s.books, p), row, answer).Returns?
    ensures Enabled(t, Publish(p, answer)) && Enabled(Next(t, Publish(p, answer)), CountReturn(p))
    ensures TriesRow(s, p, row, answer, s.now, Next(Next(t, Publish(p, answer)), CountReturn(p)))
  {
    ReturnedBooks(s.books, p, row, answer);
    assert t.books == s.books.(relays := s.books.relays[p := Relay(row, Locked)]);
  }

  lemma BrokenRowIsRolledBack(s: State, p: nat, row: nat, answer: Answer, t: State)
    requires Locks(s, p, row, t) && FateOf(Remembered(s.books, p), row, answer).Breaks?
    ensures Enabled(t, Publish(p, answer)) && TriesRow(s, p, row, answer, s.now, Next(t, Publish(p, answer)))
  {
    LockingForgetsNothing(s, p, row, t);
    assert s.books.outbox[row := s.books.outbox[row]] == s.books.outbox;
  }

  /** The published row is marked, or its return counted; an error has already ended the transaction. */
  lemma PublishedRowEnds(s: State, p: nat, row: nat, answer: Answer, t: State) returns (actions: seq<Action>, u: State)
    requires Locks(s, p, row, t)
    ensures Enabled(t, Publish(p, answer)) && Executes(Next(t, Publish(p, answer)), actions, u)
    ensures TriesRow(s, p, row, answer, s.now, u)
  {
    match FateOf(Remembered(s.books, p), row, answer)
    case Confirms =>
      ConfirmedRowIsMarked(s, p, row, answer, t);
      actions, u := [Mark(p)], Next(Next(t, Publish(p, answer)), Mark(p));
      OneStepIsARun(Next(t, Publish(p, answer)), Mark(p));
    case Returns(_) =>
      ReturnedRowIsCounted(s, p, row, answer, t);
      actions, u := [CountReturn(p)], Next(Next(t, Publish(p, answer)), CountReturn(p));
      OneStepIsARun(Next(t, Publish(p, answer)), CountReturn(p));
    case Breaks(_) =>
      BrokenRowIsRolledBack(s, p, row, answer, t);
      actions, u := [], Next(t, Publish(p, answer));
  }

  /** One try of `Outbox.TryNext`: lock, publish, and mark or count a return. */
  lemma LoneTryIsARun(s: State, p: nat, row: nat, answer: Answer, now: int) returns (actions: seq<Action>, t: State)
    requires Enabled(s, Select(p, row)) && s.now <= now
    ensures Executes(s, actions, t) && TriesRow(s, p, row, answer, now, t)
  {
    var lock, locked := RowGetsLocked(s, p, row, now);
    var end, u := PublishedRowEnds(s.(now := now), p, row, answer, locked);
    RunGoesOn(s, lock, locked, Publish(p, answer));
    RunsCompose(s, lock + [Publish(p, answer)], Next(locked, Publish(p, answer)), end, u);
    actions, t := lock + [Publish(p, answer)] + end, u;
  }

  /** What a batch does to the pipeline, in the terms of `Outbox.RelayBatch`. */
  ghost predicate RelaysBatch(s: State, p: nat, tried: seq<nat>, answers: nat -> Answer, clock: nat -> int, t: State) {
    var fate := OutboxRelay.Fates(true, Remembered(s.books, p), answers);
    && t.books.outbox == OutboxRelay.RowsAfter(s.books.outbox, tried, fate, clock)
    && t.books.relays == s.books.relays && t.db == s.db && t.inbox == s.inbox
    && t.now == (if tried == [] then s.now else clock(|tried| - 1))
    && Remembered(t.books, p) == OutboxRelay.RememberedAfter(true, Remembered(s.books, p), tried, answers)
    && t.books.copies == s.books.copies + multiset(OutboxRelay.SentAmong(tried, fate))
  }

  /** The row that comes next in a batch can still be selected. */
  lemma NextRowIsFree(s: State, p: nat, front: seq<nat>, row: nat, answers: nat -> Answer, clock: nat -> int, t: State)
    requires p !in s.books.relays && OutboxRelay.InOrder(s.books.outbox, OthersHold(s.books), front + [row])
    requires OutboxRelay.Unbroken(front, OutboxRelay.Fates(true, Remembered(s.books, p), answers))
    requires RelaysBatch(s, p, front, answers, clock, t)
    ensures OutboxRelay.InOrder(s.books.outbox, OthersHold(s.books), front) && row !in front
    ensures Enabled(t, Select(p, row))
  {
    var before, held := s.books.outbox, OthersHold(s.books);
    var fate := OutboxRelay.Fates(true, Remembered(s.books, p), answers);
    assert (front + [row])[..|front|] == front;
    OutboxRelay.OpenRows(before, held, front, fate, clock, held(|front|));
    OutboxRelay.EachRowOnce(before, held, front, fate, clock);
    assert row in OutboxRelay.Candidates(before, held(|front|)) - OutboxRelay.Ids(front);
  }

  lemma OneTryMore(s: State, p: nat, front: seq<nat>, row: nat, answers: nat -> Answer, clock: nat -> int, t: State, u: State)
    requires RelaysBatch(s, p, front, answers, clock, t) && row !in front && row in t.books.outbox
    requires TriesRow(t, p, row, answers(row), clock(|front|), u)
    ensures RelaysBatch(s, p, front + [row], answers, clock, u)
  {
    assert (front + [row])[..|front|] == front;
    OutboxRelay.NextRemembered(true, Remembered(s.books, p), front, answers, row);
  }

  /**
   What `Outbox.RelayBatch` promises is what the pipeline does when the process has it to itself: the rows it tries, in
   its order, each locked, published, and marked or counted.
   */
  lemma {:induction false} LoneBatchIsARun(s: State, p: nat, tried: seq<nat>, answers: nat -> Answer, clock: nat -> int)
    returns (actions: seq<Action>, t: State)
    requires p !in s.books.relays && Ticks(s.now, clock)
    requires OutboxRelay.InOrder(s.books.outbox, OthersHold(s.books), tried)
    requires tried != [] ==>
               OutboxRelay.Unbroken(tried[..|tried| - 1], OutboxRelay.Fates(true, Remembered(s.books, p), answers))
    ensures Executes(s, actions, t) && RelaysBatch(s, p, tried, answers, clock, t)
  {
    if tried == [] {
      return [], s;
    }
    var front, row := tried[..|tried| - 1], tried[|tried| - 1];
    assert tried == front + [row];
    var first, m := LoneBatchIsARun(s, p, front, answers, clock);
    NextRowIsFree(s, p, front, row, answers, clock, m);
    var second;
    second, t := LoneTryIsARun(m, p, row, answers(row), clock(|front|));
    OneTryMore(s, p, front, row, answers, clock, m, t);
    RunsCompose(s, first, m, second, t);
    actions := first + second;
  }
}
