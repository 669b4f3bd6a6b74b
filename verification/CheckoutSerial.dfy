/**
 Checkouts statement by statement: each works on its own uncommitted rows, under row locks that it holds until it ends.
 Whatever the interleaving and the rollbacks, the database is what the committed checkouts would have made of it one
 after the other.
 */
module CheckoutSerial {
  import opened Options
  import opened Text
  import opened Checkout
  import opened Ledger

  /** A transaction under way: `rows` are its versions of the product rows it has locked. */
  datatype Tx = Tx(input: Input, moment: Moment, taken: nat, rows: map<nat, Product>, priced: seq<Item>, charged: bool) {
    function Lines(): seq<Line> {
      SortedLines(input.items)
    }
  }

  /** The committed database, the transactions, and the operations that have been committed, in their order. */
  datatype State = State(db: Db, txs: map<nat, Tx>, history: seq<Operation>)

  datatype Action =
    | Begin(t: nat, input: Input, moment: Moment)
    | TakeLine(t: nat)
    | ChargeUser(t: nat)
    | Commit(t: nat, orderId: nat, rowId: nat)
    | Refuse(t: nat)
    | Abort(t: nat)
    | Relabel(orderId: nat, status: Status)

  /** What the transaction sees: the committed rows, and its own versions of those it has changed. */
  function Seen(s: State, t: nat): map<nat, Product>
    requires t in s.txs
  {
    s.db.products + s.txs[t].rows
  }

  ghost predicate ProductLocked(s: State, t: nat, p: nat) {
    exists u :: u in s.txs && u != t && p in s.txs[u].rows
  }

  ghost predicate UserLocked(s: State, t: nat, user: nat) {
    exists u :: u in s.txs && u != t && s.txs[u].charged && s.txs[u].input.userId == user
  }

  /**
   Why the next statement of a transaction fails, if it does; a committed version is enough to refuse. The charge does not
   look at the indexes yet, which only the inserts after it meet.
   */
  function NextFailure(s: State, t: nat): Option<Failure>
    requires t in s.txs
  {
    var tx := s.txs[t];
    if tx.taken < |tx.Lines()| then LineFailure(Seen(s, t), tx.Lines()[tx.taken])
    else if !tx.charged then ChargeFailure(s.db.(orders := []), tx.input, Total(tx.priced), tx.moment.(interrupted := false))
    else ChargeFailure(s.db, tx.input, Total(tx.priced), tx.moment)
  }

  ghost predicate Enabled(s: State, a: Action) {
    match a
    case Begin(t, input, _) => t !in s.txs && LinesFailure(input.items).None?
    case TakeLine(t) =>
      && t in s.txs && s.txs[t].taken < |s.txs[t].Lines()| && NextFailure(s, t).None?
      && !ProductLocked(s, t, Value(s.txs[t].Lines()[s.txs[t].taken].productId))
    case ChargeUser(t) =>
      && t in s.txs && s.txs[t].taken == |s.txs[t].Lines()| && !s.txs[t].charged && NextFailure(s, t).None?
      && !UserLocked(s, t, s.txs[t].input.userId)
    case Commit(t, _, _) =>
      t in s.txs && s.txs[t].charged && s.txs[t].taken == |s.txs[t].Lines()| && NextFailure(s, t).None?
    case Refuse(t) => t in s.txs && NextFailure(s, t).Some?
    case Abort(t) => t in s.txs
    case Relabel(_, _) => true
  }

  /** One line's UPDATE. */
  function Took(s: State, t: nat): Tx
    requires t in s.txs && s.txs[t].taken < |s.txs[t].Lines()| && NextFailure(s, t).None?
  {
    var tx, line := s.txs[t], s.txs[t].Lines()[s.txs[t].taken];
    var p := Value(line.productId);
    tx.(taken := tx.taken + 1, rows := tx.rows[p := StockAfter(Seen(s, t), line)[p]],
        priced := tx.priced + [Priced(Seen(s, t), line)])
  }

  function Apply(s: State, a: Action): State
    requires Enabled(s, a)
  {
    match a
    case Begin(t, input, moment) => s.(txs := s.txs[t := Tx(input, moment, 0, map[], [], false)])
    case TakeLine(t) => s.(txs := s.txs[t := Took(s, t)])
    case ChargeUser(t) => s.(txs := s.txs[t := s.txs[t].(charged := true)])
    case Commit(t, orderId, rowId) =>
      var tx := s.txs[t];
      State(Committed(s.db, tx.input, Seen(s, t), tx.priced, Total(tx.priced), orderId, rowId, tx.moment),
            s.txs - {t}, s.history + [Buy(tx.input, orderId, rowId, tx.moment)])
    case Refuse(t) => s.(txs := s.txs - {t})
    case Abort(t) => s.(txs := s.txs - {t})
    case Relabel(orderId, status) =>
      s.(db := StatusAfter(s.db, orderId, status), history := s.history + [SetStatus(orderId, status)])
  }

  ghost predicate Executes(s: State, actions: seq<Action>, t: State)
    decreases |actions|
  {
    if actions == [] then s == t
    else Enabled(s, actions[0]) && Executes(Apply(s, actions[0]), actions[1..], t)
  }

  ghost predicate Reachable(start: Db, s: State) {
    exists actions :: Executes(State(start, map[], []), actions, s)
  }

  // ----- the invariant -----

  /** What a transaction has done so far is what the lines would do to the committed database at once. */
  ghost predicate InStep(db: Db, tx: Tx) {
    && LinesFailure(tx.input.items).None?
    && tx.taken <= |tx.Lines()| && tx.rows.Keys <= db.products.Keys
    && (forall i | 0 <= i < tx.taken :: Value(tx.Lines()[i].productId) in tx.rows)
    && Take(db.products, tx.Lines()[..tx.taken]) == Taken(db.products + tx.rows, tx.priced)
    && (tx.charged ==>
          tx.taken == |tx.Lines()| && Total(tx.priced) <= MAX_INTEGER
          && tx.input.userId in db.users && Total(tx.priced) <= db.users[tx.input.userId])
  }

  ghost predicate AllInStep(db: Db, txs: map<nat, Tx>) {
    forall t | t in txs :: InStep(db, txs[t])
  }

  lemma OneMoreInStep(db: Db, txs: map<nat, Tx>, t: nat, tx: Tx)
    requires AllInStep(db, txs) && InStep(db, tx)
    ensures AllInStep(db, txs[t := tx])
  {
  }

  ghost predicate Exclusive(s: State) {
    && (forall t, u, p | t in s.txs && u in s.txs && p in s.txs[t].rows && p in s.txs[u].rows :: t == u)
    && (forall t, u | t in s.txs && u in s.txs && s.txs[t].charged && s.txs[u].charged
          && s.txs[t].input.userId == s.txs[u].input.userId :: t == u)
  }

  ghost predicate Inv(start: Db, s: State) {
    && s.db == AppliedAll(start, s.history)
    && AllInStep(s.db, s.txs)
    && Exclusive(s)
  }

  // ----- lines and rows -----

  lemma {:induction false} TakeKeepsKeys(products: map<nat, Product>, lines: seq<Line>)
    requires Take(products, lines).Taken?
    ensures Take(products, lines).products.Keys == products.Keys
  {
    if lines != [] {
      TakeKeepsKeys(products, lines[..|lines| - 1]);
    }
  }

  /** The two databases agree on the rows that the lines take from. */
  ghost predicate AgreeOn(products: map<nat, Product>, others: map<nat, Product>, rows: set<nat>) {
    rows <= products.Keys && rows <= others.Keys && forall p | p in rows :: products[p] == others[p]
  }

  /** Lines do the same to two databases that agree on their rows, and leave the other rows of each alone. */
  lemma {:induction false} TakeOnlyReadsItsRows(products: map<nat, Product>, others: map<nat, Product>, lines: seq<Line>,
                                                rows: set<nat>)
    requires AgreeOn(products, others, rows) && Take(products, lines).Taken?
    requires forall i | 0 <= i < |lines| :: Value(lines[i].productId) in rows
    ensures var taken, same := Take(products, lines), Take(others, lines);
            && same.Taken? && same.priced == taken.priced && AgreeOn(taken.products, same.products, rows)
            && same.products.Keys == others.Keys && forall p | p in others && p !in rows :: same.products[p] == others[p]
  {
    if lines != [] {
      TakeOnlyReadsItsRows(products, others, lines[..|lines| - 1], rows);
    }
  }

  /** Another transaction's commit, of rows that this one does not hold, leaves it in step. */
  lemma StaysInStep(db: Db, after: Db, tx: Tx)
    requires InStep(db, tx) && after.products.Keys == db.products.Keys && after.users.Keys == db.users.Keys
    requires forall p | p in tx.rows :: p in db.products ==> after.products[p] == db.products[p]
    requires tx.charged ==> after.users[tx.input.userId] == db.users[tx.input.userId]
    ensures InStep(after, tx)
  {
    var lines := tx.Lines()[..tx.taken];
    TakeOnlyReadsItsRows(db.products, after.products, lines, tx.rows.Keys);
    TakeKeepsKeys(db.products, lines);
    assert Take(after.products, lines).products == after.products + tx.rows;
  }

  lemma TakeNextLine(products: map<nat, Product>, lines: seq<Line>, k: nat)
    requires k < |lines| && Take(products, lines[..k]).Taken?
    ensures var before := Take(products, lines[..k]);
            Take(products, lines[..k + 1]) ==
              match LineFailure(before.products, lines[k])
              case Some(reason) => Short(reason)
              case None => Taken(StockAfter(before.products, lines[k]),
                                 before.priced + [Priced(before.products, lines[k])])
  {
    assert lines[..k + 1][..k] == lines[..k];
  }

  lemma StockAfterOwnRows(products: map<nat, Product>, rows: map<nat, Product>, line: Line)
    requires Value(line.productId) in products + rows
    ensures var p := Value(line.productId);
            StockAfter(products + rows, line) == products + rows[p := StockAfter(products + rows, line)[p]]
  {
  }

  lemma TookCoversItsLines(s: State, t: nat)
    requires t in s.txs && InStep(s.db, s.txs[t]) && s.txs[t].taken < |s.txs[t].Lines()| && NextFailure(s, t).None?
    ensures var tx := Took(s, t);
            && tx.rows.Keys <= s.db.products.Keys
            && forall i | 0 <= i < tx.taken :: Value(tx.Lines()[i].productId) in tx.rows
  {
    assert Took(s, t).Lines() == s.txs[t].Lines();
  }

  lemma TookTakesItsLines(s: State, t: nat)
    requires t in s.txs && InStep(s.db, s.txs[t]) && s.txs[t].taken < |s.txs[t].Lines()| && NextFailure(s, t).None?
    ensures var tx := Took(s, t);
            Take(s.db.products, tx.Lines()[..tx.taken]) == Taken(s.db.products + tx.rows, tx.priced)
  {
    var tx := s.txs[t];
    TakeNextLine(s.db.products, tx.Lines(), tx.taken);
    StockAfterOwnRows(s.db.products, tx.rows, tx.Lines()[tx.taken]);
    assert Took(s, t).Lines() == tx.Lines();
  }

  lemma TookIsInStep(s: State, t: nat)
    requires t in s.txs && InStep(s.db, s.txs[t]) && s.txs[t].taken < |s.txs[t].Lines()| && NextFailure(s, t).None?
    ensures InStep(s.db, Took(s, t))
  {
    TookCoversItsLines(s, t);
    TookTakesItsLines(s, t);
  }

  // ----- the invariant holds -----

  lemma TakeLineKeepsExclusive(s: State, a: Action)
    requires Exclusive(s) && Enabled(s, a) && a.TakeLine?
    ensures Exclusive(Apply(s, a))
  {
    var p := Value(s.txs[a.t].Lines()[s.txs[a.t].taken].productId);
    assert forall u | u in s.txs && u != a.t :: p !in s.txs[u].rows;
  }

  lemma TakeLineKeepsInv(start: Db, s: State, a: Action)
    requires Inv(start, s) && Enabled(s, a) && a.TakeLine?
    ensures Inv(start, Apply(s, a))
  {
    TookIsInStep(s, a.t);
    TakeLineKeepsExclusive(s, a);
    OneMoreInStep(s.db, s.txs, a.t, Took(s, a.t));
  }

  lemma ChargedIsInStep(s: State, t: nat)
    requires t in s.txs && InStep(s.db, s.txs[t]) && s.txs[t].taken == |s.txs[t].Lines()| && !s.txs[t].charged
    requires NextFailure(s, t).None?
    ensures InStep(s.db, s.txs[t].(charged := true))
  {
    var tx := s.txs[t];
    var charged := tx.(charged := true);
    assert charged.Lines() == tx.Lines();
  }

  lemma ChargeKeepsExclusive(s: State, a: Action)
    requires Exclusive(s) && Enabled(s, a) && a.ChargeUser?
    ensures Exclusive(Apply(s, a))
  {
    assert forall u | u in s.txs && u != a.t && s.txs[u].charged :: s.txs[u].input.userId != s.txs[a.t].input.userId;
  }

  lemma ChargeKeepsInv(start: Db, s: State, a: Action)
    requires Inv(start, s) && Enabled(s, a) && a.ChargeUser?
    ensures Inv(start, Apply(s, a))
  {
    ChargedIsInStep(s, a.t);
    ChargeKeepsExclusive(s, a);
    OneMoreInStep(s.db, s.txs, a.t, s.txs[a.t].(charged := true));
  }

  /** A committing checkout does what it would do on its own to the database of that moment. */
  lemma CommitIsSerial(s: State, a: Action)
    requires Enabled(s, a) && a.Commit? && InStep(s.db, s.txs[a.t])
    ensures var tx := s.txs[a.t];
            && Outcome(s.db, tx.input, a.orderId, tx.moment) == Placed(a.orderId, Total(tx.priced))
            && Apply(s, a).db == After(s.db, tx.input, a.orderId, a.rowId, tx.moment)
  {
    var tx := s.txs[a.t];
    assert tx.Lines()[..|tx.Lines()|] == tx.Lines();
  }

  lemma CommitLeavesOthersInStep(s: State, a: Action, u: nat, after: Db)
    requires Exclusive(s) && Enabled(s, a) && a.Commit? && u in s.txs && u != a.t && after == Apply(s, a).db
    requires InStep(s.db, s.txs[a.t]) && InStep(s.db, s.txs[u])
    ensures InStep(after, s.txs[u])
  {
    var tx := s.txs[a.t];
    assert after.products == s.db.products + tx.rows && after.products.Keys == s.db.products.Keys;
    forall p | p in s.txs[u].rows
      ensures after.products[p] == s.db.products[p]
    {
      assert p !in tx.rows;
    }
    StaysInStep(s.db, after, s.txs[u]);
  }

  lemma CommitKeepsInv(start: Db, s: State, a: Action)
    requires Inv(start, s) && Enabled(s, a) && a.Commit?
    ensures Inv(start, Apply(s, a))
  {
    var t := Apply(s, a);
    assert InStep(s.db, s.txs[a.t]);
    CommitIsSerial(s, a);
    assert t.history[..|s.history|] == s.history;
    forall u | u in t.txs
      ensures InStep(t.db, t.txs[u])
    {
      assert InStep(s.db, s.txs[u]);
      CommitLeavesOthersInStep(s, a, u, t.db);
    }
  }

  lemma RelabelKeepsInv(start: Db, s: State, a: Action)
    requires Inv(start, s) && Enabled(s, a) && a.Relabel?
    ensures Inv(start, Apply(s, a))
  {
    var t := Apply(s, a);
    assert t.history[..|s.history|] == s.history;
    forall u | u in t.txs
      ensures InStep(t.db, t.txs[u])
    {
      assert InStep(s.db, s.txs[u]);
    }
  }

  lemma NewTxIsInStep(db: Db, input: Input, moment: Moment)
    requires LinesFailure(input.items).None?
    ensures InStep(db, Tx(input, moment, 0, map[], [], false))
  {
    var tx := Tx(input, moment, 0, map[], [], false);
    assert tx.Lines()[..0] == [] && db.products + map[] == db.products;
  }

  lemma NewTxKeepsExclusive(s: State, t: nat, tx: Tx)
    requires Exclusive(s) && t !in s.txs && tx.rows == map[] && !tx.charged
    ensures Exclusive(s.(txs := s.txs[t := tx]))
  {
  }

  lemma BeginKeepsInv(start: Db, s: State, a: Action)
    requires Inv(start, s) && Enabled(s, a) && a.Begin?
    ensures Inv(start, Apply(s, a))
  {
    NewTxIsInStep(s.db, a.input, a.moment);
    var tx := Tx(a.input, a.moment, 0, map[], [], false);
    NewTxKeepsExclusive(s, a.t, tx);
    OneMoreInStep(s.db, s.txs, a.t, tx);
  }

  lemma StepKeepsInv(start: Db, s: State, a: Action)
    requires Inv(start, s) && Enabled(s, a)
    ensures Inv(start, Apply(s, a))
  {
    match a
    case Begin(_, _, _) => BeginKeepsInv(start, s, a);
    case TakeLine(_) => TakeLineKeepsInv(start, s, a);
    case ChargeUser(_) => ChargeKeepsInv(start, s, a);
    case Commit(_, _, _) => CommitKeepsInv(start, s, a);
    case Relabel(_, _) => RelabelKeepsInv(start, s, a);
    case _ =>
  }

  lemma {:induction false} RunKeepsInv(start: Db, s: State, actions: seq<Action>, t: State)
    requires Inv(start, s) && Executes(s, actions, t)
    ensures Inv(start, t)
    decreases |actions|
  {
    if actions != [] {
      StepKeepsInv(start, s, actions[0]);
      RunKeepsInv(start, Apply(s, actions[0]), actions[1..], t);
    }
  }

  lemma ReachableInv(start: Db, s: State)
    requires Reachable(start, s)
    ensures Inv(start, s)
  {
    var actions :| Executes(State(start, map[], []), actions, s);
    RunKeepsInv(start, State(start, map[], []), actions, s);
  }

  // ----- results -----

  /**
   Every interleaving of statements, with any rollbacks, leaves the database that the committed checkouts and status
   changes leave one after the other. What `NothingIsLost` says of such sequences therefore holds throughout.
   */
  lemma InterleavingsAreSerial(start: Db, s: State)
    requires Reachable(start, s)
    ensures s.db == AppliedAll(start, s.history)
    ensures Sound(start) ==> Sound(s.db) && Conserves(start, s.db)
  {
    ReachableInv(start, s);
    if Sound(start) {
      NothingIsLost(start, s.history);
    }
  }

  /** A checkout that commits is placed with the result it would have on its own at that moment. */
  lemma CommittedAsOnItsOwn(start: Db, s: State, a: Action)
    requires Reachable(start, s) && Enabled(s, a) && a.Commit?
    ensures var tx := s.txs[a.t];
            && Outcome(s.db, tx.input, a.orderId, tx.moment) == Placed(a.orderId, Total(tx.priced))
            && Apply(s, a).db == After(s.db, tx.input, a.orderId, a.rowId, tx.moment)
  {
    ReachableInv(start, s);
    CommitIsSerial(s, a);
  }

  lemma ShortLineRefuses(db: Db, input: Input, orderId: nat, moment: Moment, k: nat)
    requires LinesFailure(input.items).None? && k < |SortedLines(input.items)|
    requires Take(db.products, SortedLines(input.items)[..k]).Taken?
    requires LineFailure(Take(db.products, SortedLines(input.items)[..k]).products, SortedLines(input.items)[k]).Some?
    ensures Outcome(db, input, orderId, moment) == Refused(
              LineFailure(Take(db.products, SortedLines(input.items)[..k]).products, SortedLines(input.items)[k]).value)
  {
    TakeNextLine(db.products, SortedLines(input.items), k);
    TakeStopsAtShortLine(db.products, SortedLines(input.items), k + 1);
  }

  /** A checkout that is refused is refused for the reason it would meet on its own at that moment. */
  lemma RefusedAsOnItsOwn(start: Db, s: State, t: nat, orderId: nat)
    requires Reachable(start, s) && Enabled(s, Refuse(t))
    ensures Outcome(s.db, s.txs[t].input, orderId, s.txs[t].moment) == Refused(NextFailure(s, t).value)
  {
    ReachableInv(start, s);
    InStepRefusal(s, t, orderId);
  }

  lemma InStepRefusal(s: State, t: nat, orderId: nat)
    requires t in s.txs && InStep(s.db, s.txs[t]) && NextFailure(s, t).Some?
    ensures Outcome(s.db, s.txs[t].input, orderId, s.txs[t].moment) == Refused(NextFailure(s, t).value)
  {
    var tx := s.txs[t];
    if tx.taken < |tx.Lines()| {
      ShortLineRefuses(s.db, tx.input, orderId, tx.moment, tx.taken);
    } else {
      assert tx.Lines()[..tx.taken] == tx.Lines();
    }
  }
}
