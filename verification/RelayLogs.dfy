/**
 Which relays keep the plain books, in which every copy of an event is marked, lost with its transaction or in hand. The
 relay process does: it ends at its first publish error. A host that lets a process go on after one may not.
 */
module RelayLogs {
  import opened Checkout
  import opened OrderPlacedPublisher
  import opened RelayBooks
  import opened OrderPipeline

  /** The plain books of a row: no copy of it was counted as a return. */
  ghost predicate PlainBalance(b: Books, r: nat) {
    b.copies[r] == (if r in b.published then 1 else 0) + b.lost[r] + (if HoldsSent(b, r) then 1 else 0)
  }

  /**
   What an observer of a run notes: the publishes of each process since it was started, and the rows of which a process
   counted a return after it had gone on.
   */
  datatype Log = Log(sent: map<nat, seq<Sent>>, wentOn: set<nat>)

  function SentBy(log: Log, process: nat): seq<Sent> {
    if process in log.sent then log.sent[process] else []
  }

  /** The last publish went through, after an earlier one of the same message bounced and was not confirmed. */
  ghost predicate GoesOn(history: seq<Sent>) {
    history != []
    && var last := history[|history| - 1];
       last.answer.Accepted? && IsLeftBehind(history[..|history| - 1], last.id)
  }

  ghost function Logged(s: State, log: Log, a: Action): Log
    requires Enabled(s, a)
  {
    match a
    case Publish(p, answer) => log.(sent := log.sent[p := SentBy(log, p) + [Sent(s.books.relays[p].row, answer)]])
    case Crash(p) => log.(sent := log.sent - {p})
    case CountReturn(p) =>
      if GoesOn(SentBy(log, p)) then log.(wentOn := log.wentOn + {s.books.relays[p].row}) else log
    case _ => log
  }

  /** A run from s to t during which the log grows from `before` to `after`. */
  ghost predicate Records(s: State, before: Log, actions: seq<Action>, t: State, after: Log)
    decreases |actions|
  {
    if actions == [] then s == t && before == after
    else Enabled(s, actions[0]) && Records(Next(s, actions[0]), Logged(s, before, actions[0]), actions[1..], t, after)
  }

  lemma {:induction false} EveryRunHasALog(s: State, before: Log, actions: seq<Action>, t: State) returns (after: Log)
    requires Executes(s, actions, t)
    ensures Records(s, before, actions, t, after)
    decreases |actions|
  {
    if actions == [] {
      after := before;
    } else {
      after := EveryRunHasALog(Next(s, actions[0]), Logged(s, before, actions[0]), actions[1..], t);
    }
  }

  // ----- the log and the books -----

  ghost predicate MemoryMatches(b: Books, log: Log) {
    forall p :: Remembered(b, p) == ReturnedFrom(SentBy(log, p))
  }

  ghost predicate PhaseMatches(b: Books, log: Log, p: nat)
    requires p in b.relays
  {
    var history := SentBy(log, p);
    b.relays[p].phase.Unroutable? ==>
      history != [] && history[|history| - 1].id == b.relays[p].row && (b.relays[p].phase.taken <==> GoesOn(history))
  }

  ghost predicate PhasesMatch(b: Books, log: Log) {
    forall p | p in b.relays :: PhaseMatches(b, log, p)
  }

  ghost predicate ReturnsMatch(b: Books, log: Log) {
    forall r :: r in b.misreported <==> r in log.wentOn
  }

  ghost predicate Matches(b: Books, log: Log) {
    MemoryMatches(b, log) && PhasesMatch(b, log) && ReturnsMatch(b, log)
  }

  /** What one more publish does to the memory of its process, and what the process is told. */
  lemma OneMorePublish(b: Books, p: nat, answer: Answer, history: seq<Sent>)
    requires Holds(b, p) && Remembered(b, p) == ReturnedFrom(history)
    ensures var row, c := b.relays[p].row, Publishes(b, p, answer);
            var longer := history + [Sent(row, answer)];
            && Remembered(c, p) == ReturnedFrom(longer)
            && (p in c.relays ==> c.relays[p].row == row && (c.relays[p].phase.Unroutable? ==>
                  (c.relays[p].phase.taken <==> GoesOn(longer))))
  {
    var row := b.relays[p].row;
    var longer := history + [Sent(row, answer)];
    assert longer[..|longer| - 1] == history;
    LeftBehindIffUnconfirmedBounce(history, row);
  }

  lemma PublishMatches(s: State, log: Log, a: Action)
    requires Matches(s.books, log) && Enabled(s, a) && a.Publish?
    ensures Matches(Next(s, a).books, Logged(s, log, a))
  {
    var p, b, c, after := a.relay, s.books, Next(s, a).books, Logged(s, log, a);
    OneMorePublish(b, p, a.answer, SentBy(log, p));
    PublishFrame(b, p, a.answer, c);
    assert SentBy(after, p) == SentBy(log, p) + [Sent(b.relays[p].row, a.answer)];
    forall q | q != p
      ensures Remembered(c, q) == Remembered(b, q) && SentBy(after, q) == SentBy(log, q)
      ensures q in c.relays ==> PhaseMatches(c, after, q)
    {
      OtherRelay(b, c, p, q);
      assert q in b.relays ==> PhaseMatches(b, log, q);
    }
  }

  lemma CountReturnMatches(s: State, log: Log, a: Action)
    requires Matches(s.books, log) && Enabled(s, a) && a.CountReturn?
    ensures Matches(Next(s, a).books, Logged(s, log, a))
  {
    var b, c, after := s.books, Next(s, a).books, Logged(s, log, a);
    assert PhaseMatches(b, log, a.relay);
    assert forall p :: Remembered(c, p) == Remembered(b, p) && SentBy(after, p) == SentBy(log, p);
    forall q | q in c.relays
      ensures PhaseMatches(c, after, q)
    {
      assert PhaseMatches(b, log, q);
    }
  }

  lemma CrashMatches(s: State, log: Log, a: Action)
    requires Matches(s.books, log) && Enabled(s, a) && a.Crash?
    ensures Matches(Next(s, a).books, Logged(s, log, a))
  {
    var b, c, after := s.books, Next(s, a).books, Logged(s, log, a);
    assert forall p :: Remembered(c, p) == (if p == a.process then {} else Remembered(b, p))
                    && SentBy(after, p) == if p == a.process then [] else SentBy(log, p);
    forall q | q in c.relays
      ensures PhaseMatches(c, after, q)
    {
      assert q != a.process && PhaseMatches(b, log, q);
    }
  }

  /** The other steps neither publish nor count a return; they may lock a row, or free one. */
  lemma OtherStepMatches(s: State, log: Log, a: Action)
    requires Matches(s.books, log) && Enabled(s, a) && !a.Publish? && !a.CountReturn? && !a.Crash?
    ensures Matches(Next(s, a).books, Logged(s, log, a))
  {
    var b, c := s.books, Next(s, a).books;
    assert c.returned == b.returned && c.misreported == b.misreported;
    assert forall p :: Remembered(c, p) == Remembered(b, p);
    forall q | q in c.relays
      ensures PhaseMatches(c, log, q)
    {
      assert q in b.relays ==> PhaseMatches(b, log, q);
    }
  }

  lemma StepMatches(s: State, log: Log, a: Action)
    requires Matches(s.books, log) && Enabled(s, a)
    ensures Matches(Next(s, a).books, Logged(s, log, a))
  {
    if a.Publish? {
      PublishMatches(s, log, a);
    } else if a.CountReturn? {
      CountReturnMatches(s, log, a);
    } else if a.Crash? {
      CrashMatches(s, log, a);
    } else {
      OtherStepMatches(s, log, a);
    }
  }

  lemma {:induction false} RunMatches(s: State, before: Log, actions: seq<Action>, t: State, after: Log)
    requires Matches(s.books, before) && Records(s, before, actions, t, after)
    ensures Matches(t.books, after) && Executes(s, actions, t)
    decreases |actions|
  {
    if actions != [] {
      StepMatches(s, before, actions[0]);
      RunMatches(Next(s, actions[0]), Logged(s, before, actions[0]), actions[1..], t, after);
    }
  }

  // ----- results -----

  /** A run of the whole pipeline, with its log. */
  ghost predicate Observed(db: Db, now: int, actions: seq<Action>, s: State, log: Log) {
    Starts(db) && Records(Initial(db, now), Log(map[], {}), actions, s, log)
  }

  /**
   The plain books of a row fail exactly if a process went on with it: it published the row again after an unconfirmed
   bounce, without having been started anew, and counted a return although the message went through.
   */
  lemma PlainBooksFailIffAProcessWentOn(db: Db, now: int, actions: seq<Action>, s: State, log: Log, r: nat)
    requires Observed(db, now, actions, s, log) && r in s.books.announced
    ensures PlainBalance(s.books, r) <==> r !in log.wentOn
  {
    RunMatches(Initial(db, now), Log(map[], {}), actions, s, log);
    assert Reachable(s);
    RelayAccounting(s, r);
    assert ReturnsMatch(s.books, log);
  }

  /** The process publishes only if each of its publishes so far has been confirmed. */
  ghost predicate StopsAtError(log: Log, a: Action) {
    a.Publish? ==> AllConfirmed(SentBy(log, a.relay))
  }

  ghost predicate AllStopAtErrors(s: State, log: Log, actions: seq<Action>)
    decreases |actions|
  {
    actions == []
    || (Enabled(s, actions[0]) && StopsAtError(log, actions[0])
        && AllStopAtErrors(Next(s, actions[0]), Logged(s, log, actions[0]), actions[1..]))
  }

  ghost predicate AllErrorsAreLast(log: Log) {
    forall p :: ErrorsAreLast(SentBy(log, p))
  }

  lemma StoppingStep(s: State, log: Log, a: Action)
    requires AllErrorsAreLast(log) && log.wentOn == {} && Enabled(s, a) && StopsAtError(log, a)
    ensures AllErrorsAreLast(Logged(s, log, a)) && Logged(s, log, a).wentOn == {}
  {
    var after := Logged(s, log, a);
    if a.Publish? {
      var history := SentBy(log, a.relay);
      assert SentBy(after, a.relay)[..|history|] == history;
    }
    forall p
      ensures ErrorsAreLast(SentBy(after, p))
    {
      assert (a.Publish? && p == a.relay) || SentBy(after, p) == SentBy(log, p) || SentBy(after, p) == [];
    }
    if a.CountReturn? {
      assert ErrorsAreLast(SentBy(log, a.relay));
    }
  }

  lemma {:induction false} StoppingRunGoesOnNowhere(s: State, before: Log, actions: seq<Action>, t: State, after: Log)
    requires AllErrorsAreLast(before) && before.wentOn == {}
    requires Records(s, before, actions, t, after) && AllStopAtErrors(s, before, actions)
    ensures after.wentOn == {}
    decreases |actions|
  {
    if actions != [] {
      StoppingStep(s, before, actions[0]);
      StoppingRunGoesOnNowhere(Next(s, actions[0]), Logged(s, before, actions[0]), actions[1..], t, after);
    }
  }

  /** Relay processes that end at their first publish error, as the relay does, keep the plain books of every row. */
  lemma StoppingRelaysKeepPlainBooks(db: Db, now: int, actions: seq<Action>, s: State, log: Log, r: nat)
    requires Observed(db, now, actions, s, log) && AllStopAtErrors(Initial(db, now), Log(map[], {}), actions)
    requires r in s.books.announced
    ensures PlainBalance(s.books, r)
  {
    StoppingRunGoesOnNowhere(Initial(db, now), Log(map[], {}), actions, s, log);
    PlainBooksFailIffAProcessWentOn(db, now, actions, s, log, r);
  }
}
