/**
 The outbox as its relays see it: rows, the transactions that have locked them, and the books of what was sent, marked,
 lost and returned.
 */
module RelayBooks {
  import opened Options
  import opened Checkout
  import opened OrderPlacedPublisher
  import OutboxRelay

  /**
   What the relay's transaction knows of its locked row: nothing yet, a confirm, or a return. It does not know of a
   return whether the message was sent nevertheless.
   */
  datatype Phase = Locked | Confirmed | Unroutable(taken: bool)

  datatype Relay = Relay(row: nat, phase: Phase)

  /**
   The outbox and its relays: the transactions under way, by process, and the ids their publishers remember. The last two
   lines are history that no process reads.
   */
  datatype Books = Books(
    outbox: map<nat, OutboxRelay.Row>, relays: map<nat, Relay>, returned: map<nat, set<nat>>,
    announced: map<nat, Announcement>, published: set<nat>, copies: multiset<nat>, lost: multiset<nat>,
    unrouted: multiset<nat>, misreported: multiset<nat>, leftBehind: set<nat>)

  /** FOR UPDATE SKIP LOCKED leaves a locked row to the transaction that holds it. */
  ghost predicate IsLocked(b: Books, row: nat) {
    exists p :: p in b.relays && b.relays[p].row == row
  }

  predicate Holds(b: Books, relay: nat) {
    relay in b.relays && b.relays[relay].row in b.outbox
  }

  /** The message of the locked row has been sent. */
  predicate IsSent(phase: Phase) {
    phase.Confirmed? || (phase.Unroutable? && phase.taken)
  }

  function Remembered(b: Books, process: nat): set<nat> {
    if process in b.returned then b.returned[process] else {}
  }

  function Announced(b: Books, rowId: nat, event: Announcement, now: int): Books {
    b.(outbox := b.outbox[rowId := OutboxRelay.Row(event, now, None, 0)], announced := b.announced[rowId := event])
  }

  /** A relay's transaction ends: the row changes and the lock goes. */
  function RelayEnds(b: Books, relay: nat, row: OutboxRelay.Row): Books
    requires relay in b.relays
  {
    b.(outbox := b.outbox[b.relays[relay].row := row], relays := b.relays - {relay})
  }

  /** What the publisher remembers after one publish, and what the broker has. */
  function Sends(b: Books, relay: nat, answer: Answer): Books
    requires Holds(b, relay)
  {
    var row := b.relays[relay].row;
    b.(copies := if IsTaken(answer) then b.copies + multiset{row} else b.copies,
       returned := b.returned[relay := ReturnedAfter(Remembered(b, relay), row, answer)],
       leftBehind := if answer.Unconfirmed? && answer.bounced then b.leftBehind + {row} else b.leftBehind)
  }

  /** The relay learns the fate of its message; an error ends its transaction. */
  function Publishes(b: Books, relay: nat, answer: Answer): Books
    requires Holds(b, relay)
  {
    var row, sent := b.relays[relay].row, Sends(b, relay, answer);
    match FateOf(Remembered(b, relay), row, answer)
    case Confirms => sent.(relays := b.relays[relay := Relay(row, Confirmed)])
    case Returns(taken) => sent.(relays := b.relays[relay := Relay(row, Unroutable(taken))])
    case Breaks(taken) =>
      sent.(relays := b.relays - {relay}, lost := if taken then b.lost + multiset{row} else b.lost)
  }

  function Marks(b: Books, relay: nat, now: int): Books
    requires Holds(b, relay)
  {
    var row := b.outbox[b.relays[relay].row];
    RelayEnds(b, relay, row.(publishedAt := Some(now), attempts := row.attempts + 1))
    .(published := b.published + {b.relays[relay].row})
  }

  function CountsReturn(b: Books, relay: nat): Books
    requires Holds(b, relay)
  {
    var row := b.outbox[b.relays[relay].row];
    RelayEnds(b, relay, row.(attempts := row.attempts + 1))
    .(unrouted := b.unrouted + multiset{b.relays[relay].row},
      misreported := if IsSent(b.relays[relay].phase) then b.misreported + multiset{b.relays[relay].row}
                     else b.misreported)
  }

  /** The transaction is rolled back, whatever has been sent. */
  function Aborts(b: Books, relay: nat): Books
    requires relay in b.relays
  {
    b.(relays := b.relays - {relay},
       lost := if IsSent(b.relays[relay].phase) then b.lost + multiset{b.relays[relay].row} else b.lost)
  }

  /** A relay process dies and takes its transaction and its memory with it. */
  function Crashes(b: Books, process: nat): Books {
    (if process in b.relays then Aborts(b, process) else b).(returned := b.returned - {process})
  }

  // ----- what every step keeps -----

  ghost predicate HoldsSent(b: Books, r: nat) {
    exists p :: p in b.relays && b.relays[p].row == r && IsSent(b.relays[p].phase)
  }

  /** A row's own books: what it announces, whether it was marked, and how often it was tried. */
  ghost predicate RowInv(b: Books, r: nat)
    requires r in b.outbox
  {
    && r in b.announced && b.outbox[r].event == b.announced[r]
    && (b.outbox[r].publishedAt.Some? <==> r in b.published)
    && b.outbox[r].attempts == (if r in b.published then 1 else 0) + b.unrouted[r]
    && b.outbox[r].attempts <= OutboxRelay.RELAY_MAX_ATTEMPTS
  }

  ghost predicate RowsInv(b: Books) {
    && (forall r | r in b.outbox :: RowInv(b, r))
    && (forall r | r in b.announced && r !in b.outbox :: r in b.published)
    && (forall r | r in b.published || r in b.copies || r in b.lost || r in b.unrouted :: r in b.announced)
    && (forall r :: b.misreported[r] <= b.unrouted[r])
  }

  /** Relays hold different rows, all of which are still to be published. */
  ghost predicate LocksInv(b: Books) {
    && (forall p | p in b.relays :: b.relays[p].row in b.outbox && OutboxRelay.Eligible(b.outbox[b.relays[p].row]))
    && (forall p, q | p in b.relays && q in b.relays && b.relays[p].row == b.relays[q].row :: p == q)
  }

  /** Every copy of a row's event was marked, lost with its relay, misreported as unroutable, or is about to be one. */
  ghost predicate CopiesBalance(b: Books, r: nat) {
    b.copies[r] == (if r in b.published then 1 else 0) + b.lost[r] + b.misreported[r] + (if HoldsSent(b, r) then 1 else 0)
  }

  ghost predicate CopiesInv(b: Books) {
    forall r | r in b.announced :: CopiesBalance(b, r)
  }

  /** An id is remembered, and a message misreported, only where an unconfirmed bounce left the id behind. */
  ghost predicate MemoryInv(b: Books) {
    && (forall p, r | r in Remembered(b, p) :: r in b.leftBehind)
    && (forall p | p in b.relays && b.relays[p].phase == Unroutable(true) :: b.relays[p].row in b.leftBehind)
    && (forall r | r in b.misreported :: r in b.leftBehind)
  }

  ghost predicate RelayInv(b: Books) {
    RowsInv(b) && LocksInv(b) && CopiesInv(b) && MemoryInv(b)
  }

  // ----- new rows -----

  lemma NewRowKeepsRows(b: Books, c: Books, rowId: nat, event: Announcement, now: int)
    requires RowsInv(b) && rowId !in b.announced
    requires c == Announced(b, rowId, event, now)
    ensures RowsInv(c)
  {
    assert rowId !in b.outbox && rowId !in b.unrouted;
    forall r | r in c.outbox
      ensures RowInv(c, r)
    {
      assert r != rowId ==> RowInv(b, r);
    }
  }

  lemma NewRowKeepsCopies(b: Books, rowId: nat, event: Announcement, now: int)
    requires RowsInv(b) && LocksInv(b) && CopiesInv(b) && rowId !in b.announced
    ensures CopiesInv(Announced(b, rowId, event, now))
  {
    var c := Announced(b, rowId, event, now);
    assert rowId !in b.outbox && !HoldsSent(b, rowId);
    forall r | r in c.announced
      ensures CopiesBalance(c, r)
    {
      assert HoldsSent(c, r) <==> HoldsSent(b, r);
      assert r != rowId ==> CopiesBalance(b, r);
    }
  }

  lemma NewRowKeepsRelays(b: Books, c: Books, rowId: nat, event: Announcement, now: int)
    requires RelayInv(b) && rowId !in b.announced && c == Announced(b, rowId, event, now)
    ensures RelayInv(c)
  {
    NewRowKeepsRows(b, c, rowId, event, now);
    NewRowKeepsCopies(b, rowId, event, now);
    NewRowKeepsMemory(b, c);
    assert rowId !in b.outbox;
  }

  lemma NewRowKeepsMemory(b: Books, c: Books)
    requires MemoryInv(b) && c.relays == b.relays && c.returned == b.returned
    requires c.leftBehind == b.leftBehind && c.misreported == b.misreported
    ensures MemoryInv(c)
  {
    assert forall p :: Remembered(c, p) == Remembered(b, p);
  }

  lemma OtherRelay(b: Books, c: Books, relay: nat, p: nat)
    requires b.relays - {relay} == c.relays - {relay} && p != relay
    ensures p in b.relays <==> p in c.relays
    ensures p in b.relays ==> c.relays[p] == b.relays[p]
  {
    assert p in b.relays <==> p in b.relays - {relay};
    assert p in c.relays <==> p in c.relays - {relay};
    if p in b.relays {
      assert (b.relays - {relay})[p] == (c.relays - {relay})[p];
    }
  }

  /** A step of one relay does not change which other rows are sent and not yet accounted for. */
  lemma OthersStaySent(b: Books, c: Books, relay: nat, r: nat)
    requires relay in b.relays ==> b.relays[relay].row != r || !IsSent(b.relays[relay].phase)
    requires relay in c.relays ==> c.relays[relay].row != r || !IsSent(c.relays[relay].phase)
    requires b.relays - {relay} == c.relays - {relay}
    ensures HoldsSent(c, r) <==> HoldsSent(b, r)
  {
    if HoldsSent(b, r) {
      var p :| p in b.relays && b.relays[p].row == r && IsSent(b.relays[p].phase);
      OtherRelay(b, c, relay, p);
    }
    if HoldsSent(c, r) {
      var p :| p in c.relays && c.relays[p].row == r && IsSent(c.relays[p].phase);
      OtherRelay(b, c, relay, p);
    }
  }

  /** The holder of a row alone decides whether it is sent. */
  lemma OnlyHolderSends(b: Books, relay: nat)
    requires LocksInv(b) && relay in b.relays
    ensures HoldsSent(b, b.relays[relay].row) <==> IsSent(b.relays[relay].phase)
  {
  }

  // ----- selecting -----

  /** A step that concerns one row leaves the books of every other row alone. */
  ghost predicate Frame(b: Books, row: nat, c: Books) {
    && c.announced == b.announced && c.outbox.Keys == b.outbox.Keys
    && (forall r | r in b.outbox && r != row :: c.outbox[r] == b.outbox[r])
    && (forall r | r != row ::
          && (r in c.published <==> r in b.published)
          && c.copies[r] == b.copies[r] && c.lost[r] == b.lost[r]
          && c.unrouted[r] == b.unrouted[r] && c.misreported[r] == b.misreported[r])
  }

  lemma FrameKeepsRows(b: Books, row: nat, c: Books)
    requires RowsInv(b) && Frame(b, row, c) && row in c.outbox && RowInv(c, row) && c.misreported[row] <= c.unrouted[row]
    ensures RowsInv(c)
  {
    forall r | r in c.outbox
      ensures RowInv(c, r)
    {
      assert r != row ==> RowInv(b, r);
    }
  }

  lemma FrameKeepsCopies(b: Books, relay: nat, row: nat, c: Books)
    requires CopiesInv(b) && Frame(b, row, c) && CopiesBalance(c, row)
    requires relay in b.relays ==> b.relays[relay].row == row
    requires relay in c.relays ==> c.relays[relay].row == row
    requires b.relays - {relay} == c.relays - {relay}
    ensures CopiesInv(c)
  {
    forall r | r in c.announced && r != row
      ensures CopiesBalance(c, r)
    {
      OthersStaySent(b, c, relay, r);
      assert CopiesBalance(b, r);
    }
  }

  lemma SelectKeepsLocks(b: Books, relay: nat, row: nat, c: Books)
    requires LocksInv(b) && relay !in b.relays && row in b.outbox && OutboxRelay.Eligible(b.outbox[row]) && !IsLocked(b, row)
    requires c == b.(relays := b.relays[relay := Relay(row, Locked)])
    ensures LocksInv(c)
  {
    assert forall p | p in b.relays :: b.relays[p].row != row;
  }

  lemma SelectKeepsMemory(b: Books, relay: nat, row: nat, c: Books)
    requires MemoryInv(b) && c == b.(relays := b.relays[relay := Relay(row, Locked)])
    ensures MemoryInv(c)
  {
    assert forall p :: Remembered(c, p) == Remembered(b, p);
  }

  lemma SelectKeepsRelays(b: Books, relay: nat, row: nat, c: Books)
    requires RelayInv(b) && relay !in b.relays && row in b.outbox && OutboxRelay.Eligible(b.outbox[row]) && !IsLocked(b, row)
    requires c == b.(relays := b.relays[relay := Relay(row, Locked)])
    ensures RelayInv(c)
  {
    assert b.relays - {relay} == c.relays - {relay};
    assert RowInv(b, row) && CopiesBalance(b, row);
    SelectKeepsLocks(b, relay, row, c);
    OnlyHolderSends(c, relay);
    assert !HoldsSent(b, row);
    FrameKeepsRows(b, row, c);
    FrameKeepsCopies(b, relay, row, c);
    SelectKeepsMemory(b, relay, row, c);
  }

  // ----- publishing -----

  lemma SendsFrame(b: Books, relay: nat, answer: Answer)
    requires Holds(b, relay)
    ensures Frame(b, b.relays[relay].row, Sends(b, relay, answer))
  {
  }

  lemma PublishFrame(b: Books, relay: nat, answer: Answer, c: Books)
    requires Holds(b, relay) && c == Publishes(b, relay, answer)
    ensures Frame(b, b.relays[relay].row, c) && b.relays - {relay} == c.relays - {relay}
    ensures relay in c.relays ==> c.relays[relay].row == b.relays[relay].row
    ensures c == Sends(b, relay, answer).(relays := c.relays, lost := c.lost)
  {
    SendsFrame(b, relay, answer);
  }

  lemma PublishKeepsLocks(b: Books, relay: nat, answer: Answer, c: Books)
    requires LocksInv(b) && Holds(b, relay) && c == Publishes(b, relay, answer)
    ensures LocksInv(c)
  {
    PublishFrame(b, relay, answer, c);
    forall p | p in c.relays
      ensures p in b.relays && c.relays[p].row == b.relays[p].row
    {
      if p != relay {
        OtherRelay(b, c, relay, p);
      }
    }
  }

  lemma PublishKeepsMemory(b: Books, relay: nat, answer: Answer, c: Books)
    requires MemoryInv(b) && Holds(b, relay) && c == Publishes(b, relay, answer)
    ensures MemoryInv(c)
  {
    var row := b.relays[relay].row;
    forall p, r | r in Remembered(c, p)
      ensures r in c.leftBehind
    {
      assert r in Remembered(b, p) || (p == relay && r == row && row in c.leftBehind);
    }
    assert FateOf(Remembered(b, relay), row, answer) == Returns(true) ==> row in Remembered(b, relay);
  }

  lemma PublishBalancesOwnRow(b: Books, relay: nat, answer: Answer, c: Books)
    requires LocksInv(b) && LocksInv(c) && Holds(b, relay) && b.relays[relay].phase.Locked?
    requires c == Publishes(b, relay, answer) && CopiesBalance(b, b.relays[relay].row)
    ensures CopiesBalance(c, b.relays[relay].row)
  {
    OnlyHolderSends(b, relay);
    if relay in c.relays {
      OnlyHolderSends(c, relay);
    } else {
      assert !HoldsSent(c, b.relays[relay].row);
    }
  }

  lemma PublishKeepsRelays(b: Books, relay: nat, answer: Answer, c: Books)
    requires RelayInv(b) && Holds(b, relay) && b.relays[relay].phase.Locked? && c == Publishes(b, relay, answer)
    ensures RelayInv(c)
  {
    var row := b.relays[relay].row;
    assert RowInv(b, row) && CopiesBalance(b, row);
    PublishFrame(b, relay, answer, c);
    FrameKeepsRows(b, row, c);
    PublishKeepsLocks(b, relay, answer, c);
    PublishBalancesOwnRow(b, relay, answer, c);
    FrameKeepsCopies(b, relay, row, c);
    PublishKeepsMemory(b, relay, answer, c);
  }

  // ----- the end of a relay's transaction -----

  /** The ways in which a relay's transaction ends once its message has met its fate. */
  ghost predicate Ends(b: Books, relay: nat, c: Books) {
    && relay in b.relays
    && ((Holds(b, relay) && b.relays[relay].phase.Confirmed? && exists now :: c == Marks(b, relay, now))
        || (Holds(b, relay) && b.relays[relay].phase.Unroutable? && c == CountsReturn(b, relay))
        || c == Aborts(b, relay))
  }

  lemma EndFrame(b: Books, relay: nat, c: Books)
    requires Ends(b, relay, c) && Holds(b, relay)
    ensures Frame(b, b.relays[relay].row, c) && c.relays == b.relays - {relay}
    ensures c.returned == b.returned && c.leftBehind == b.leftBehind
  {
  }

  lemma EndKeepsOwnRow(b: Books, relay: nat, c: Books)
    requires Ends(b, relay, c) && Holds(b, relay) && OutboxRelay.Eligible(b.outbox[b.relays[relay].row])
    requires RowInv(b, b.relays[relay].row) && b.misreported[b.relays[relay].row] <= b.unrouted[b.relays[relay].row]
    ensures var row := b.relays[relay].row;
            row in c.outbox && RowInv(c, row) && c.misreported[row] <= c.unrouted[row]
  {
  }

  lemma EndKeepsLocks(b: Books, relay: nat, c: Books)
    requires LocksInv(b) && Ends(b, relay, c) && Holds(b, relay)
    ensures LocksInv(c)
  {
    EndFrame(b, relay, c);
  }

  lemma EndKeepsMemory(b: Books, relay: nat, c: Books)
    requires MemoryInv(b) && Ends(b, relay, c)
    ensures MemoryInv(c)
  {
    assert forall p :: Remembered(c, p) == Remembered(b, p);
  }

  lemma EndBalancesOwnRow(b: Books, relay: nat, c: Books)
    requires LocksInv(b) && Ends(b, relay, c) && Holds(b, relay)
    requires RowInv(b, b.relays[relay].row) && CopiesBalance(b, b.relays[relay].row)
    ensures CopiesBalance(c, b.relays[relay].row)
  {
    OnlyHolderSends(b, relay);
    assert !HoldsSent(c, b.relays[relay].row);
  }

  lemma EndKeepsRelays(b: Books, relay: nat, c: Books)
    requires RelayInv(b) && Ends(b, relay, c)
    ensures RelayInv(c)
  {
    var row := b.relays[relay].row;
    assert RowInv(b, row) && CopiesBalance(b, row);
    EndFrame(b, relay, c);
    EndKeepsOwnRow(b, relay, c);
    FrameKeepsRows(b, row, c);
    EndKeepsLocks(b, relay, c);
    EndBalancesOwnRow(b, relay, c);
    assert b.relays - {relay} == c.relays - {relay};
    FrameKeepsCopies(b, relay, row, c);
    EndKeepsMemory(b, relay, c);
  }

  /** Forgetting what a publisher remembered changes no books. */
  lemma ForgettingKeepsRelays(b: Books, process: nat, c: Books)
    requires RelayInv(b) && c == b.(returned := b.returned - {process})
    ensures RelayInv(c)
  {
    forall r | r in c.outbox
      ensures RowInv(c, r)
    {
      assert RowInv(b, r);
    }
    forall r | r in c.announced
      ensures CopiesBalance(c, r)
    {
      assert CopiesBalance(b, r);
      assert HoldsSent(c, r) <==> HoldsSent(b, r);
    }
    assert forall p :: Remembered(c, p) == if p == process then {} else Remembered(b, p);
  }

  lemma CrashKeepsRelays(b: Books, process: nat, c: Books)
    requires RelayInv(b) && c == Crashes(b, process)
    ensures RelayInv(c)
  {
    var aborted := if process in b.relays then Aborts(b, process) else b;
    if process in b.relays {
      EndKeepsRelays(b, process, aborted);
    }
    ForgettingKeepsRelays(aborted, process, c);
  }

  // ----- the other steps -----

  lemma CleanupKeepsRelays(b: Books, rows: set<nat>, c: Books)
    requires RelayInv(b) && c == b.(outbox := b.outbox - rows)
    requires forall r | r in rows :: r in b.outbox && b.outbox[r].publishedAt.Some?
    ensures RelayInv(c)
  {
    forall r | r in b.outbox
      ensures RowInv(b, r) && (r in c.outbox ==> RowInv(c, r))
    {
      assert RowInv(b, r);
    }
    forall r | r in c.announced
      ensures CopiesBalance(c, r)
    {
      assert CopiesBalance(b, r);
      assert HoldsSent(c, r) <==> HoldsSent(b, r);
    }
    NewRowKeepsMemory(b, c);
  }

  /** What an accepted message whose id was left behind does to the books: it is counted as a return. */
  lemma LeftoverIsCountedAsReturn(b: Books, relay: nat, row: nat)
    requires relay !in b.relays && row in b.outbox && row in Remembered(b, relay)
    ensures var selected := b.(relays := b.relays[relay := Relay(row, Locked)]);
            var sent := Publishes(selected, relay, Accepted);
            var counted := CountsReturn(sent, relay);
            && sent.relays[relay] == Relay(row, Unroutable(true)) && counted.relays == b.relays
            && counted.copies == b.copies + multiset{row} && counted.lost == b.lost && counted.published == b.published
            && counted.misreported == b.misreported + multiset{row} && counted.announced == b.announced
  {
    var selected := b.(relays := b.relays[relay := Relay(row, Locked)]);
    assert Remembered(selected, relay) == Remembered(b, relay);
    assert CountsReturn(Publishes(selected, relay, Accepted), relay).relays == b.relays;
  }
}
