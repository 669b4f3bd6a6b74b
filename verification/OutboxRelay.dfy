/** The outbox relay: row after row, publish first and mark afterwards, and the cleanup of old published rows. */
module OutboxRelay {
  import opened Options
  import opened BatchDelete
  import opened Checkout
  import opened OrderPlacedPublisher

  const RELAY_MAX_ATTEMPTS: nat := 10
  const SECONDS_PER_DAY: int := 24 * 60 * 60
  const OUTBOX_RETENTION_DAYS: int := 7

  datatype Row = Row(event: Announcement, createdAt: int, publishedAt: Option<int>, attempts: nat)

  datatype TryOutcome = Empty | Tried(row: nat, fate: Fate)

  datatype BatchResult = Finished(published: nat) | Threw

  predicate Eligible(row: Row) {
    row.publishedAt.None? && row.attempts < RELAY_MAX_ATTEMPTS
  }

  /** The rows a batch may try; `locked` are those that other transactions hold. */
  function Candidates(rows: map<nat, Row>, locked: set<nat>): set<nat> {
    set r | r in rows && Eligible(rows[r]) && r !in locked
  }

  /** ORDER BY created_at, id */
  predicate Before(rows: map<nat, Row>, a: nat, b: nat)
    requires a in rows && b in rows
  {
    rows[a].createdAt < rows[b].createdAt || (rows[a].createdAt == rows[b].createdAt && a < b)
  }

  predicate IsFirst(rows: map<nat, Row>, among: set<nat>, r: nat)
    requires among <= rows.Keys
  {
    r in among && forall q | q in among && q != r :: Before(rows, r, q)
  }

  lemma {:induction false} FirstExists(rows: map<nat, Row>, among: set<nat>)
    requires among <= rows.Keys && among != {}
    ensures exists r :: IsFirst(rows, among, r)
  {
    var x :| x in among;
    var rest := among - {x};
    assert among == rest + {x};
    if rest == {} {
      assert forall q | q in among :: q == x;
      assert IsFirst(rows, among, x);
    } else {
      FirstExists(rows, rest);
      var r :| IsFirst(rows, rest, r);
      assert IsFirst(rows, among, if Before(rows, x, r) then x else r);
    }
  }

  function TriedRow(row: Row, fate: Fate, now: int): Row {
    match fate
    case Confirms => row.(publishedAt := Some(now), attempts := row.attempts + 1)
    case Returns(_) => row.(attempts := row.attempts + 1)
    case Breaks(_) => row
  }

  function SentOf(row: nat, fate: Fate): seq<nat> {
    if fate.Confirms? || fate.taken then [row] else []
  }

  /** The ids whose messages the broker took, in the order of publishing. */
  function SentAmong(tried: seq<nat>, fate: nat -> Fate): seq<nat> {
    if tried == [] then []
    else SentAmong(tried[..|tried| - 1], fate) + SentOf(tried[|tried| - 1], fate(tried[|tried| - 1]))
  }

  /**
   What the publisher tells a batch of its rows. It tries each once, so what matters is whether the publisher remembered
   the row's message when the batch began.
   */
  function Fates(isOpen: bool, returned: set<nat>, answers: nat -> Answer): nat -> Fate {
    (row: nat) => if isOpen then FateOf(returned, row, answers(row)) else Breaks(false)
  }

  /** What the publisher remembers once the rows in `tried` have been published. */
  function RememberedAfter(isOpen: bool, returned: set<nat>, tried: seq<nat>, answers: nat -> Answer): set<nat> {
    if tried == [] || !isOpen then returned
    else
      var front, last := tried[..|tried| - 1], tried[|tried| - 1];
      ReturnedAfter(RememberedAfter(isOpen, returned, front, answers), last, answers(last))
  }

  lemma {:induction false} OthersRememberedAsBefore(isOpen: bool, returned: set<nat>, tried: seq<nat>,
                                                    answers: nat -> Answer, row: nat)
    requires row !in tried
    ensures row in RememberedAfter(isOpen, returned, tried, answers) <==> row in returned
  {
    if tried != [] {
      assert tried == tried[..|tried| - 1] + [tried[|tried| - 1]];
      OthersRememberedAsBefore(isOpen, returned, tried[..|tried| - 1], answers, row);
    }
  }

  lemma NextRemembered(isOpen: bool, returned: set<nat>, tried: seq<nat>, answers: nat -> Answer, row: nat)
    requires row !in tried
    ensures var remembered := RememberedAfter(isOpen, returned, tried, answers);
            && Fates(isOpen, remembered, answers)(row) == Fates(isOpen, returned, answers)(row)
            && RememberedAfter(isOpen, returned, tried + [row], answers)
               == if isOpen then ReturnedAfter(remembered, row, answers(row)) else remembered
  {
    OthersRememberedAsBefore(isOpen, returned, tried, answers, row);
    assert (tried + [row])[..|tried|] == tried;
  }

  function Ids(tried: seq<nat>): set<nat> {
    set r | r in tried
  }

  function NewlyPublished(before: map<nat, Row>, after: map<nat, Row>): set<nat> {
    set r | r in before && r in after && before[r].publishedAt.None? && after[r].publishedAt.Some?
  }

  /** The rows that others hold when a batch makes its i-th try. */
  type Locks = nat -> set<nat>

  function NoLocks(): Locks {
    (_: nat) => {}
  }

  /** Each row tried is the first of the candidates of that moment that were not tried before it. */
  ghost predicate InOrder(before: map<nat, Row>, locked: Locks, tried: seq<nat>) {
    tried == []
    || var front := tried[..|tried| - 1];
       InOrder(before, locked, front)
       && IsFirst(before, Candidates(before, locked(|front|)) - Ids(front), tried[|tried| - 1])
  }

  /** A batch stops at its limit, or when nothing is left that it could try. */
  ghost predicate Stops(before: map<nat, Row>, locked: Locks, tried: seq<nat>, limit: int) {
    |tried| == (if limit < 0 then 0 else limit)
    || (|tried| < limit && Candidates(before, locked(|tried|)) - Ids(tried) == {})
  }

  /** The table once the rows in `tried` have met their fates, the i-th of them at `clock(i)`. */
  function RowsAfter(before: map<nat, Row>, tried: seq<nat>, fate: nat -> Fate, clock: nat -> int): map<nat, Row> {
    if tried == [] then before
    else
      var front, last := tried[..|tried| - 1], tried[|tried| - 1];
      var rows := RowsAfter(before, front, fate, clock);
      if last in rows then rows[last := TriedRow(rows[last], fate(last), clock(|front|))] else rows
  }

  /** The list of failures of a batch. */
  function Returned(tried: seq<nat>, fate: nat -> Fate): set<nat> {
    set r | r in tried && fate(r).Returns?
  }

  function Confirmed(tried: seq<nat>, fate: nat -> Fate): nat {
    if tried == [] then 0
    else Confirmed(tried[..|tried| - 1], fate) + if fate(tried[|tried| - 1]).Confirms? then 1 else 0
  }

  ghost predicate Unbroken(tried: seq<nat>, fate: nat -> Fate) {
    tried == [] || (Unbroken(tried[..|tried| - 1], fate) && !fate(tried[|tried| - 1]).Breaks?)
  }

  class Outbox {
    var rows: map<nat, Row>
    /** The ids of the messages that the broker has taken. */
    var sent: seq<nat>

    constructor (rows: map<nat, Row>)
      ensures this.rows == rows && sent == []
    {
      this.rows := rows;
      sent := [];
    }

    /**
     Tries up to `limit` rows, each in a transaction of its own. A row that is returned is not tried again in this
     batch; an exception ends the batch and rolls back the row it hit.
     */
    method RelayBatch(publisher: Publisher, limit: int, locked: Locks, answers: nat -> Answer, clock: nat -> int)
      returns (result: BatchResult, ghost tried: seq<nat>, ghost fate: nat -> Fate)
      modifies this, publisher
      ensures fate == Fates(old(publisher.isOpen), old(publisher.returned), answers)
      ensures InOrder(old(rows), locked, tried) && rows == RowsAfter(old(rows), tried, fate, clock)
      ensures sent == old(sent) + SentAmong(tried, fate)
      ensures publisher.isOpen == old(publisher.isOpen)
      ensures publisher.returned == RememberedAfter(publisher.isOpen, old(publisher.returned), tried, answers)
      ensures result.Finished? ==> Unbroken(tried, fate)
      ensures result.Threw? ==>
                tried != [] && Unbroken(tried[..|tried| - 1], fate) && fate(tried[|tried| - 1]).Breaks?
      ensures result.Finished? ==> Stops(old(rows), locked, tried, limit)
      ensures result.Finished? ==> result.published == |NewlyPublished(old(rows), rows)|
    {
      var failed: set<nat> := {};
      var published: nat := 0;
      var index: nat := 0;
      tried := [];
      ghost var before, sentBefore, isOpen, returned := rows, sent, publisher.isOpen, publisher.returned;
      fate := Fates(isOpen, returned, answers);
      while index < limit
        invariant before == old(rows) && sentBefore == old(sent)
        invariant isOpen == old(publisher.isOpen) == publisher.isOpen && returned == old(publisher.returned)
        invariant fate == Fates(isOpen, returned, answers)
        invariant publisher.returned == RememberedAfter(isOpen, returned, tried, answers)
        invariant index == |tried| && (index == 0 || index <= limit)
        invariant InOrder(before, locked, tried) && rows == RowsAfter(before, tried, fate, clock)
        invariant Unbroken(tried, fate) && failed == Returned(tried, fate)
        invariant published == Confirmed(tried, fate)
        invariant sent == sentBefore + SentAmong(tried, fate)
      {
        var outcome := TryNext(publisher, failed, locked(index), answers, clock(index));
        if outcome.Empty? {
          NothingLeft(before, locked, tried, fate, clock, limit);
          break;
        }
        var row := outcome.row;
        NeverTriedTwice(before, locked, tried, fate, clock, row);
        NextRemembered(isOpen, returned, tried, answers, row);
        AfterTry(before, locked, tried, fate, clock, row);
        tried := tried + [row];
        if outcome.fate.Breaks? {
          return Threw, tried, fate;
        }
        if outcome.fate.Returns? {
          failed := failed + {row};
        } else {
          published := published + 1;
        }
        index := index + 1;
      }
      CountIsExact(before, locked, tried, fate, clock);
      result := Finished(published);
    }

    /** One transaction: lock the first open row, publish, then write. */
    method TryNext(publisher: Publisher, failed: set<nat>, locked: set<nat>, answers: nat -> Answer, now: int)
      returns (outcome: TryOutcome)
      modifies this, publisher
      ensures publisher.isOpen == old(publisher.isOpen)
      ensures outcome.Empty? <==> Candidates(old(rows), locked) - failed == {}
      ensures outcome.Tried? ==>
                var r := outcome.row;
                && r in old(rows) && r !in locked && r !in failed && Eligible(old(rows)[r])
                && forall q | q in old(rows) && q !in locked && q !in failed && Eligible(old(rows)[q]) && q != r ::
                     || old(rows)[r].createdAt < old(rows)[q].createdAt
                     || (old(rows)[r].createdAt == old(rows)[q].createdAt && r < q)
      ensures outcome.Empty? ==>
                rows == old(rows) && sent == old(sent) && publisher.returned == old(publisher.returned)
      ensures outcome.Tried? ==>
                var r, fate := outcome.row, outcome.fate;
                && IsFirst(old(rows), Candidates(old(rows), locked) - failed, r)
                && fate == Fates(publisher.isOpen, old(publisher.returned), answers)(r)
                && rows == old(rows)[r := TriedRow(old(rows)[r], fate, now)]
                && rows[r].publishedAt == (if fate.Confirms? then Some(now) else None)
                && rows[r].attempts == old(rows)[r].attempts + (if fate.Breaks? then 0 else 1)
                && sent == old(sent) + SentOf(r, fate)
                && publisher.returned == if publisher.isOpen then ReturnedAfter(old(publisher.returned), r, answers(r))
                                         else old(publisher.returned)
    {
      var open := Candidates(rows, locked) - failed;
      if open == {} {
        return Empty;
      }
      assert forall q :: q in open <==> q in rows && q !in locked && q !in failed && Eligible(rows[q]);
      FirstExists(rows, open);
      var row :| IsFirst(rows, open, row);
      var fate := publisher.Publish(row, answers(row));
      match fate {
        case Breaks(taken) =>
          if taken {
            sent := sent + [row];
          }
          assert rows == rows[row := rows[row]];
        case Returns(taken) =>
          if taken {
            sent := sent + [row];
          }
          rows := rows[row := rows[row].(attempts := rows[row].attempts + 1)];
        case Confirms =>
          sent := sent + [row];
          rows := rows[row := rows[row].(publishedAt := Some(now), attempts := rows[row].attempts + 1)];
      }
      outcome := Tried(row, fate);
    }

    /** Batch by batch until one comes back short. */
    method CleanupOutbox(now: int, retentionDays: int, batchSize: nat) returns (deleted: nat)
      requires batchSize >= 1
      modifies this
      ensures sent == old(sent)
      ensures rows == old(rows) - Outdated(old(rows), now, retentionDays)
      ensures deleted == |Outdated(old(rows), now, retentionDays)|
      ensures forall r | r in old(rows) ::
                var at := old(rows)[r].publishedAt;
                if at.Some? && at.value < now - retentionDays * 86_400 then r !in rows
                else r in rows && rows[r] == old(rows)[r]
    {
      deleted := 0;
      ghost var all := Outdated(rows, now, retentionDays);
      while true
        invariant sent == old(sent)
        invariant rows - Outdated(rows, now, retentionDays) == old(rows) - all
        invariant deleted + |Outdated(rows, now, retentionDays)| == |all|
        decreases |Outdated(rows, now, retentionDays)|
      {
        ghost var outdated := Outdated(rows, now, retentionDays);
        BatchExists(outdated, batchSize);
        var batch :| Batch(Outdated(rows, now, retentionDays), batchSize, batch);
        LeftAfterBatch(outdated, batchSize, batch);
        rows := rows - batch;
        assert Outdated(rows, now, retentionDays) == outdated - batch;
        var affected := |batch|;
        deleted := deleted + affected;
        if affected < batchSize {
          return;
        }
      }
    }
  }

  /** What a cleanup spares: everything unpublished, and everything published within the last seven days. */
  lemma CleanupSparesIffRecent(rows: map<nat, Row>, now: int, r: nat)
    requires r in rows
    ensures r in rows - Outdated(rows, now, OUTBOX_RETENTION_DAYS)
       <==> rows[r].publishedAt.None? || now - rows[r].publishedAt.value <= 604_800
  {
    assert r in Outdated(rows, now, OUTBOX_RETENTION_DAYS)
      <==> rows[r].publishedAt.Some? && rows[r].publishedAt.value < now - OUTBOX_RETENTION_DAYS * SECONDS_PER_DAY;
  }

  /** published_at < now() - make_interval(days => ..) */
  function Outdated(rows: map<nat, Row>, now: int, retentionDays: int): set<nat> {
    set r | r in rows && rows[r].publishedAt.Some? && rows[r].publishedAt.value < now - retentionDays * SECONDS_PER_DAY
  }

  lemma {:induction false} TriedIsDistinct(before: map<nat, Row>, locked: Locks, tried: seq<nat>)
    requires InOrder(before, locked, tried)
    ensures Ids(tried) <= Candidates(before, {}) && |Ids(tried)| == |tried|
  {
    if tried != [] {
      var front, last := tried[..|tried| - 1], tried[|tried| - 1];
      TriedIsDistinct(before, locked, front);
      IdsNext(front, last);
      assert tried == front + [last];
    }
  }

  lemma IdsNext(front: seq<nat>, last: nat)
    ensures Ids(front + [last]) == Ids(front) + {last}
  {
  }

  lemma AtMostAll(before: map<nat, Row>, locked: Locks, tried: seq<nat>)
    requires InOrder(before, locked, tried)
    ensures |tried| <= |Candidates(before, {})|
    ensures |tried| == |Candidates(before, {})| ==> Ids(tried) == Candidates(before, {})
  {
    TriedIsDistinct(before, locked, tried);
    var all := Candidates(before, {});
    assert |all| == |all - Ids(tried)| + |Ids(tried)|;
    if |tried| == |all| {
      assert all - Ids(tried) == {};
    }
  }

  /** What a batch does to each row: a row it tried met its fate once, and no other row changed. */
  lemma {:induction false} EachRowOnce(before: map<nat, Row>, locked: Locks, tried: seq<nat>, fate: nat -> Fate,
                                       clock: nat -> int)
    requires InOrder(before, locked, tried)
    ensures RowsAfter(before, tried, fate, clock).Keys == before.Keys
    ensures forall i | 0 <= i < |tried| ::
              tried[i] in before
              && RowsAfter(before, tried, fate, clock)[tried[i]] == TriedRow(before[tried[i]], fate(tried[i]), clock(i))
    ensures forall r | r in before && r !in tried :: RowsAfter(before, tried, fate, clock)[r] == before[r]
  {
    if tried != [] {
      var front, last := tried[..|tried| - 1], tried[|tried| - 1];
      EachRowOnce(before, locked, front, fate, clock);
      assert last !in front;
      assert tried == front + [last];
    }
  }

  lemma {:induction false} UnbrokenAt(tried: seq<nat>, fate: nat -> Fate)
    requires Unbroken(tried, fate)
    ensures forall r | r in tried :: !fate(r).Breaks?
  {
    if tried != [] {
      UnbrokenAt(tried[..|tried| - 1], fate);
      assert tried == tried[..|tried| - 1] + [tried[|tried| - 1]];
    }
  }

  /** A batch never meets a row again that it has tried: it is published, or on the list of failures. */
  lemma OpenRows(before: map<nat, Row>, locked: Locks, tried: seq<nat>, fate: nat -> Fate, clock: nat -> int,
                 held: set<nat>)
    requires InOrder(before, locked, tried) && Unbroken(tried, fate)
    ensures Candidates(RowsAfter(before, tried, fate, clock), held) - Returned(tried, fate)
         == Candidates(before, held) - Ids(tried)
    ensures forall r | r in Candidates(before, held) - Ids(tried) ::
              r in RowsAfter(before, tried, fate, clock) && RowsAfter(before, tried, fate, clock)[r] == before[r]
  {
    EachRowOnce(before, locked, tried, fate, clock);
    UnbrokenAt(tried, fate);
    TriedIsDistinct(before, locked, tried);
    forall r | r in tried
      ensures r !in Candidates(RowsAfter(before, tried, fate, clock), held) - Returned(tried, fate)
    {
      var i :| 0 <= i < |tried| && tried[i] == r;
    }
  }

  lemma NothingLeft(before: map<nat, Row>, locked: Locks, tried: seq<nat>, fate: nat -> Fate, clock: nat -> int,
                    limit: int)
    requires InOrder(before, locked, tried) && Unbroken(tried, fate) && |tried| < limit
    requires Candidates(RowsAfter(before, tried, fate, clock), locked(|tried|)) - Returned(tried, fate) == {}
    ensures Stops(before, locked, tried, limit)
  {
    OpenRows(before, locked, tried, fate, clock, locked(|tried|));
  }

  lemma NeverTriedTwice(before: map<nat, Row>, locked: Locks, tried: seq<nat>, fate: nat -> Fate, clock: nat -> int,
                        row: nat)
    requires InOrder(before, locked, tried) && Unbroken(tried, fate)
    requires var rows := RowsAfter(before, tried, fate, clock);
             IsFirst(rows, Candidates(rows, locked(|tried|)) - Returned(tried, fate), row)
    ensures row !in tried
  {
    OpenRows(before, locked, tried, fate, clock, locked(|tried|));
    assert row !in Ids(tried);
  }

  lemma AfterTry(before: map<nat, Row>, locked: Locks, tried: seq<nat>, fate: nat -> Fate, clock: nat -> int, row: nat)
    requires InOrder(before, locked, tried) && Unbroken(tried, fate)
    requires var rows := RowsAfter(before, tried, fate, clock);
             IsFirst(rows, Candidates(rows, locked(|tried|)) - Returned(tried, fate), row)
    ensures InOrder(before, locked, tried + [row])
    ensures var rows, after := RowsAfter(before, tried, fate, clock), RowsAfter(before, tried + [row], fate, clock);
            && row in rows && after == rows[row := TriedRow(rows[row], fate(row), clock(|tried|))]
    ensures Confirmed(tried + [row], fate) == Confirmed(tried, fate) + if fate(row).Confirms? then 1 else 0
    ensures Unbroken(tried + [row], fate) <==> !fate(row).Breaks?
    ensures (tried + [row])[..|tried|] == tried
    ensures Returned(tried + [row], fate) == Returned(tried, fate) + if fate(row).Returns? then {row} else {}
    ensures SentAmong(tried + [row], fate) == SentAmong(tried, fate) + SentOf(row, fate(row))
  {
    assert (tried + [row])[..|tried|] == tried;
    OpenRows(before, locked, tried, fate, clock, locked(|tried|));
    ReturnedNext(tried, fate, row);
  }

  lemma ReturnedNext(tried: seq<nat>, fate: nat -> Fate, row: nat)
    ensures Returned(tried + [row], fate) == Returned(tried, fate) + if fate(row).Returns? then {row} else {}
  {
  }

  lemma NextPublished(before: map<nat, Row>, rows: map<nat, Row>, row: nat, fate: Fate, now: int)
    requires row in before && row in rows && rows[row] == before[row] && before[row].publishedAt.None?
    ensures |NewlyPublished(before, rows[row := TriedRow(rows[row], fate, now)])|
         == |NewlyPublished(before, rows)| + if fate.Confirms? then 1 else 0
  {
    var after := rows[row := TriedRow(rows[row], fate, now)];
    if fate.Confirms? {
      assert NewlyPublished(before, after) == NewlyPublished(before, rows) + {row};
    } else {
      assert NewlyPublished(before, after) == NewlyPublished(before, rows);
    }
  }

  /** The number of confirmed rows is the number of rows that became published. */
  lemma {:induction false} CountIsExact(before: map<nat, Row>, locked: Locks, tried: seq<nat>, fate: nat -> Fate,
                                        clock: nat -> int)
    requires InOrder(before, locked, tried)
    ensures Confirmed(tried, fate) == |NewlyPublished(before, RowsAfter(before, tried, fate, clock))|
  {
    if tried == [] {
      assert NewlyPublished(before, before) == {};
    } else {
      var front, last := tried[..|tried| - 1], tried[|tried| - 1];
      CountIsExact(before, locked, front, fate, clock);
      EachRowOnce(before, locked, front, fate, clock);
      NextPublished(before, RowsAfter(before, front, fate, clock), last, fate(last), clock(|front|));
    }
  }

  /** Oldest first: when a row is tried, no open row that is free and untried was created before it. */
  lemma {:induction false} EachTryIsTheOldest(before: map<nat, Row>, locked: Locks, tried: seq<nat>, i: nat, q: nat)
    requires InOrder(before, locked, tried) && i < |tried|
    requires q in before && Eligible(before[q]) && q !in locked(i) && q !in tried[..i]
    ensures tried[i] in before && before[tried[i]].createdAt <= before[q].createdAt
    ensures before[tried[i]].createdAt == before[q].createdAt ==> tried[i] <= q
  {
    var front := tried[..|tried| - 1];
    if i < |front| {
      assert front[..i] == tried[..i];
      EachTryIsTheOldest(before, locked, front, i, q);
    } else {
      assert front == tried[..i];
      assert q in Candidates(before, locked(i)) - Ids(front);
    }
  }

  /**
   A lone batch goes through the outbox in the order of creation, ids ascending among rows of one moment, and what it
   leaves out at its limit is no older than anything it tried.
   */
  lemma LoneBatchTriesTheOldest(before: map<nat, Row>, tried: seq<nat>, i: nat, j: nat)
    requires InOrder(before, NoLocks(), tried) && i < |tried|
    ensures tried[i] in before
    ensures i < j < |tried| ==>
              && tried[j] in before && before[tried[i]].createdAt <= before[tried[j]].createdAt
              && (before[tried[i]].createdAt == before[tried[j]].createdAt ==> tried[i] < tried[j])
    ensures j in before && j !in tried && before[j].publishedAt.None? && before[j].attempts < 10 ==>
              before[tried[i]].createdAt <= before[j].createdAt
  {
    TriedIsOpen(before, NoLocks(), tried, i);
    if i < j < |tried| {
      TriedIsOpen(before, NoLocks(), tried, j);
      assert tried[j] !in tried[..i] by {
        assert forall k | 0 <= k < i :: tried[..i][k] == tried[..j][k];
      }
      EachTryIsTheOldest(before, NoLocks(), tried, i, tried[j]);
      assert tried[i] == tried[..j][i];
    }
    if j in before && j !in tried && Eligible(before[j]) {
      EachTryIsTheOldest(before, NoLocks(), tried, i, j);
    }
  }

  /** Only unpublished rows with fewer than ten attempts are tried, none that others hold, and none twice. */
  lemma {:induction false} TriedIsOpen(before: map<nat, Row>, locked: Locks, tried: seq<nat>, i: nat)
    requires InOrder(before, locked, tried) && i < |tried|
    ensures tried[i] in before && before[tried[i]].publishedAt.None? && before[tried[i]].attempts < 10
    ensures tried[i] !in locked(i) && tried[i] !in tried[..i]
  {
    var front := tried[..|tried| - 1];
    if i < |front| {
      TriedIsOpen(before, locked, front, i);
      assert front[..i] == tried[..i];
    } else {
      assert front == tried[..i];
    }
  }

  /** How many rows a lone batch tries: all there are, up to its limit. */
  lemma LoneBatchSize(before: map<nat, Row>, tried: seq<nat>, limit: int)
    requires InOrder(before, NoLocks(), tried) && Stops(before, NoLocks(), tried, limit)
    ensures var all := |Candidates(before, {})|;
            |tried| == if limit < 0 then 0 else if all < limit then all else limit
  {
    AtMostAll(before, NoLocks(), tried);
    if |tried| < limit {
      forall r | r in Candidates(before, {})
        ensures r in Ids(tried)
      {
        assert r !in Candidates(before, {}) - Ids(tried);
      }
      TriedIsDistinct(before, NoLocks(), tried);
      assert Candidates(before, {}) == Ids(tried);
    }
  }

  /**
   A batch that is alone, large enough and not interrupted tries every eligible row exactly once: each is counted as an
   attempt, and it is published unless it was returned. No other row changes.
   */
  lemma LoneBatchTriesEveryRow(before: map<nat, Row>, tried: seq<nat>, limit: int, fate: nat -> Fate, clock: nat -> int,
                               r: nat)
    requires InOrder(before, NoLocks(), tried) && Unbroken(tried, fate) && Stops(before, NoLocks(), tried, limit)
    requires |Candidates(before, {})| <= limit && r in before
    ensures r in RowsAfter(before, tried, fate, clock)
    ensures var after := RowsAfter(before, tried, fate, clock)[r];
            if Eligible(before[r]) then
              after.attempts == before[r].attempts + 1 && (after.publishedAt.Some? <==> fate(r).Confirms?)
            else after == before[r]
  {
    LoneBatchSize(before, tried, limit);
    AtMostAll(before, NoLocks(), tried);
    EachRowOnce(before, NoLocks(), tried, fate, clock);
    UnbrokenAt(tried, fate);
    assert r in tried <==> r in Ids(tried);
    assert r in Candidates(before, {}) <==> Eligible(before[r]);
    if r in tried {
      var i :| 0 <= i < |tried| && tried[i] == r;
    }
  }
}
