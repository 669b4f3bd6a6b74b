/**
 Progress of checkouts on their rows: seen as transactions on row locks they never deadlock, and all of them can end by a
 commit or a refusal, provided the sort key tells the products apart.
 */
module CheckoutProgress {
  import opened Options
  import opened Sorting
  import opened Text
  import opened Checkout
  import opened CheckoutSerial
  import Locks = CheckoutLocks

  /** The locks of a transaction: one for each line taken, and the user's once he is charged. */
  function LocksOf(tx: Tx): Locks.Tx {
    Locks.Tx(tx.Lines(), tx.input.userId, tx.taken + if tx.charged then 1 else 0, false)
  }

  function LockState(txs: map<nat, Tx>): Locks.State {
    map t | t in txs :: LocksOf(txs[t])
  }

  /** The transactions order products in `ids` only. */
  ghost predicate Orders(txs: map<nat, Tx>, ids: iset<nat>) {
    forall t, l | t in txs && l in txs[t].input.items :: Value(l.productId) in ids
  }

  // ----- locked rows are the rows of the lines taken -----

  ghost predicate RowsAreTaken(tx: Tx) {
    && tx.taken <= |tx.Lines()|
    && forall p | p in tx.rows :: exists i :: 0 <= i < tx.taken && Value(tx.Lines()[i].productId) == p
  }

  ghost predicate AllRowsAreTaken(s: State) {
    forall t | t in s.txs :: RowsAreTaken(s.txs[t])
  }

  lemma TookRowsAreTaken(s: State, t: nat)
    requires t in s.txs && RowsAreTaken(s.txs[t]) && s.txs[t].taken < |s.txs[t].Lines()| && NextFailure(s, t).None?
    ensures RowsAreTaken(Took(s, t))
  {
    var tx, next := s.txs[t], Took(s, t);
    assert next.Lines() == tx.Lines();
    forall p | p in next.rows
      ensures exists i :: 0 <= i < next.taken && Value(next.Lines()[i].productId) == p
    {
      if p in tx.rows {
        var i :| 0 <= i < tx.taken && Value(tx.Lines()[i].productId) == p;
        assert Value(next.Lines()[i].productId) == p;
      } else {
        assert Value(next.Lines()[tx.taken].productId) == p;
      }
    }
  }

  lemma StepKeepsTakenRows(s: State, a: Action)
    requires AllRowsAreTaken(s) && Enabled(s, a)
    ensures AllRowsAreTaken(Apply(s, a))
  {
    if a.TakeLine? {
      TookRowsAreTaken(s, a.t);
    } else if a.ChargeUser? {
      assert RowsAreTaken(s.txs[a.t]);
      assert s.txs[a.t].(charged := true).Lines() == s.txs[a.t].Lines();
    }
  }

  lemma {:induction false} RunKeepsTakenRows(s: State, actions: seq<Action>, t: State)
    requires AllRowsAreTaken(s) && Executes(s, actions, t)
    ensures AllRowsAreTaken(t)
    decreases |actions|
  {
    if actions != [] {
      StepKeepsTakenRows(s, actions[0]);
      RunKeepsTakenRows(Apply(s, actions[0]), actions[1..], t);
    }
  }

  /** Both invariants, and the products that are ordered. */
  ghost predicate Good(start: Db, s: State, ids: iset<nat>) {
    Inv(start, s) && AllRowsAreTaken(s) && Orders(s.txs, ids)
  }

  lemma ReachableIsGood(start: Db, s: State, ids: iset<nat>)
    requires Reachable(start, s) && Orders(s.txs, ids)
    ensures Good(start, s, ids)
  {
    ReachableInv(start, s);
    var actions :| Executes(State(start, map[], []), actions, s);
    RunKeepsTakenRows(State(start, map[], []), actions, s);
  }

  // ----- the invariant of the locks -----

  lemma {:induction false} TakenLinesAreInRange(products: map<nat, Product>, lines: seq<Line>, i: nat)
    requires Take(products, lines).Taken? && i < |lines|
    ensures !Locks.OutOfRange(lines[i])
  {
    if i < |lines| - 1 {
      TakenLinesAreInRange(products, lines[..|lines| - 1], i);
    }
  }

  lemma LocksOfOne(db: Db, tx: Tx, ids: iset<nat>)
    requires InStep(db, tx) && forall l | l in tx.input.items :: Value(l.productId) in ids
    ensures var locks := LocksOf(tx);
            && Sorted(LineLeq, locks.lines) && locks.held <= |locks.lines| + 1
            && (forall l | l in locks.lines :: Value(l.productId) in ids)
            && (forall i | 0 <= i < |locks.lines| && i < locks.held :: !Locks.OutOfRange(locks.lines[i]))
  {
    assert TotalPreorder(LineLeq);
    SortSorts(LineLeq, tx.input.items);
    SameElements(tx.Lines(), tx.input.items);
    forall i | 0 <= i < |tx.Lines()| && i < tx.taken
      ensures !Locks.OutOfRange(tx.Lines()[i])
    {
      TakenLinesAreInRange(db.products, tx.Lines()[..tx.taken], i);
    }
  }

  /** What a transaction holds, in terms of its rows. */
  lemma HeldRows(db: Db, tx: Tx, r: Locks.Resource)
    requires InStep(db, tx) && RowsAreTaken(tx)
    ensures Locks.Holds(LocksOf(tx), r) <==>
              match r
              case ProductRow(p) => p in tx.rows
              case UserRow(u) => tx.charged && tx.input.userId == u
  {
  }

  lemma LocksInvHolds(start: Db, s: State, ids: iset<nat>)
    requires Good(start, s, ids)
    ensures Locks.Inv(LockState(s.txs), ids)
  {
    var locks := LockState(s.txs);
    forall t | t in locks
      ensures Sorted(LineLeq, locks[t].lines) && locks[t].held <= |locks[t].lines| + 1
      ensures forall l | l in locks[t].lines :: Value(l.productId) in ids
      ensures forall i | 0 <= i < |locks[t].lines| && i < locks[t].held :: !Locks.OutOfRange(locks[t].lines[i])
    {
      assert InStep(s.db, s.txs[t]);
      LocksOfOne(s.db, s.txs[t], ids);
    }
    forall t, u, r | t in locks && u in locks && Locks.Holds(locks[t], r) && Locks.Holds(locks[u], r)
      ensures t == u
    {
      assert InStep(s.db, s.txs[t]) && InStep(s.db, s.txs[u]);
      HeldRows(s.db, s.txs[t], r);
      HeldRows(s.db, s.txs[u], r);
    }
  }

  // ----- who can go on -----

  /** The transaction's own next step: its next statement, or its end. */
  ghost predicate GoesOn(s: State, a: Action, t: nat) {
    Enabled(s, a) && match a
                     case TakeLine(u) => u == t
                     case ChargeUser(u) => u == t
                     case Commit(u, _, _) => u == t
                     case Refuse(u) => u == t
                     case _ => false
  }

  ghost predicate CanGoOn(s: State, t: nat) {
    exists a :: GoesOn(s, a, t)
  }

  lemma NotWaitingMeansNotHeld(txs: map<nat, Tx>, t: nat, r: Locks.Resource, u: nat)
    requires t in txs && u in txs && u != t
    requires Locks.Wants(LocksOf(txs[t])) == Some(r) && !Locks.WaitsFor(LockState(txs), t, u)
    ensures !Locks.Holds(LocksOf(txs[u]), r)
  {
    assert LockState(txs)[t] == LocksOf(txs[t]) && LockState(txs)[u] == LocksOf(txs[u]);
  }

  lemma NotWaitingMeansFree(s: State, t: nat, r: Locks.Resource, u: nat)
    requires AllInStep(s.db, s.txs) && AllRowsAreTaken(s) && t in s.txs && u in s.txs && u != t
    requires Locks.Wants(LocksOf(s.txs[t])) == Some(r) && !Locks.WaitsFor(LockState(s.txs), t, u)
    ensures match r
            case ProductRow(p) => p !in s.txs[u].rows
            case UserRow(user) => !(s.txs[u].charged && s.txs[u].input.userId == user)
  {
    NotWaitingMeansNotHeld(s.txs, t, r, u);
    HeldRows(s.db, s.txs[u], r);
  }

  /** A transaction that waits for no lock can go on: take a line, charge, commit, or be refused. */
  lemma UnblockedGoesOn(s: State, t: nat) returns (a: Action)
    requires AllInStep(s.db, s.txs) && AllRowsAreTaken(s) && Locks.CanStep(LockState(s.txs), t)
    ensures GoesOn(s, a, t)
  {
    var tx := s.txs[t];
    assert InStep(s.db, tx);
    if NextFailure(s, t).Some? {
      return Refuse(t);
    }
    if tx.taken < |tx.Lines()| {
      var p := Value(tx.Lines()[tx.taken].productId);
      assert Locks.Wants(LocksOf(tx)) == Some(Locks.ProductRow(p));
      forall u | u in s.txs && u != t
        ensures p !in s.txs[u].rows
      {
        NotWaitingMeansFree(s, t, Locks.ProductRow(p), u);
      }
      a := TakeLine(t);
    } else if !tx.charged {
      forall u | u in s.txs && u != t
        ensures !(s.txs[u].charged && s.txs[u].input.userId == tx.input.userId)
      {
        NotWaitingMeansFree(s, t, Locks.UserRow(tx.input.userId), u);
      }
      a := ChargeUser(t);
    } else {
      a := Commit(t, 0, 0);
    }
  }

  lemma SomebodyGoesOn(start: Db, s: State, ids: iset<nat>) returns (a: Action, t: nat)
    requires Good(start, s, ids) && Locks.KeysTellApart(ids) && s.txs != map[]
    ensures GoesOn(s, a, t)
  {
    LocksInvHolds(start, s, ids);
    var u :| u in s.txs;
    t := Locks.SomebodyCanStep(LockState(s.txs), ids, u);
    a := UnblockedGoesOn(s, t);
  }

  // ----- all can end -----

  /** The steps that the transactions still have before them. */
  ghost function Ahead(s: State): set<(nat, nat)> {
    set t, k | t in s.txs && LocksOf(s.txs[t]).held <= k <= |s.txs[t].Lines()| + 1 :: (t, k)
  }

  lemma StepsGetLess(s: State, a: Action, t: nat)
    requires t in s.txs && LocksOf(s.txs[t]).held <= |s.txs[t].Lines()| + 1 && GoesOn(s, a, t)
    ensures Ahead(Apply(s, a)) < Ahead(s)
  {
    var next, held := Apply(s, a), LocksOf(s.txs[t]).held;
    assert t in next.txs ==> next.txs[t].Lines() == s.txs[t].Lines() && LocksOf(next.txs[t]).held == held + 1;
    assert (t, held) in Ahead(s) && (t, held) !in Ahead(next);
    assert forall u | u in next.txs && u != t :: next.txs[u] == s.txs[u];
  }

  /** A run of the transactions that are there, in which none is rolled back against its will. */
  ghost predicate RunsToTheEnd(s: State, actions: seq<Action>, t: State)
    decreases |actions|
  {
    if actions == [] then s == t
    else (exists u :: GoesOn(s, actions[0], u)) && RunsToTheEnd(Apply(s, actions[0]), actions[1..], t)
  }

  lemma StepOrdersTheSame(s: State, a: Action, t: nat, ids: iset<nat>)
    requires GoesOn(s, a, t) && Orders(s.txs, ids)
    ensures Orders(Apply(s, a).txs, ids)
  {
    forall u | u in Apply(s, a).txs
      ensures u in s.txs && Apply(s, a).txs[u].input == s.txs[u].input
    {
    }
  }

  lemma GoingOnKeepsGood(start: Db, s: State, a: Action, u: nat, ids: iset<nat>)
    requires Good(start, s, ids) && GoesOn(s, a, u)
    ensures Good(start, Apply(s, a), ids) && Ahead(Apply(s, a)) < Ahead(s)
  {
    assert InStep(s.db, s.txs[u]);
    StepsGetLess(s, a, u);
    StepKeepsInv(start, s, a);
    StepKeepsTakenRows(s, a);
    StepOrdersTheSame(s, a, u, ids);
  }

  lemma OneStepMore(s: State, a: Action, u: nat, rest: seq<Action>, t: State)
    requires GoesOn(s, a, u) && RunsToTheEnd(Apply(s, a), rest, t)
    ensures RunsToTheEnd(s, [a] + rest, t)
  {
    assert ([a] + rest)[1..] == rest;
  }

  lemma {:induction false} AllEnd(start: Db, s: State, ids: iset<nat>) returns (actions: seq<Action>, t: State)
    requires Good(start, s, ids) && Locks.KeysTellApart(ids)
    ensures RunsToTheEnd(s, actions, t) && t.txs == map[]
    decreases Ahead(s)
  {
    if s.txs == map[] {
      return [], s;
    }
    var a, u := SomebodyGoesOn(start, s, ids);
    GoingOnKeepsGood(start, s, a, u, ids);
    var rest;
    rest, t := AllEnd(start, Apply(s, a), ids);
    actions := [a] + rest;
    OneStepMore(s, a, u, rest, t);
  }

  // ----- the other direction -----

  /** Two products, of each of which there is one. */
  function TwoProducts(a: nat, b: nat): Db {
    Db(map[a := Product(1, 1), b := Product(1, 1)], map[0 := 2, 1 := 2], [], [], [])
  }

  function Basket(user: nat, first: nat, second: nat): Input {
    Input(user, [Line(Decimal(first), 1), Line(Decimal(second), 1)], None)
  }

  /** A checkout of both, before or after its first statement. */
  function Rival(user: nat, first: nat, second: nat, taken: bool): Tx {
    if taken then Tx(Basket(user, first, second), Moment(0, false), 1, map[first := Product(1, 0)], [Item(first, 1, 1)], false)
    else Tx(Basket(user, first, second), Moment(0, false), 0, map[], [], false)
  }

  function Rivals(a: nat, b: nat, taken0: bool, taken1: bool): State {
    State(TwoProducts(a, b), map[0 := Rival(0, a, b, taken0), 1 := Rival(1, b, a, taken1)], [])
  }

  lemma RivalLines(user: nat, first: nat, second: nat, taken: bool)
    requires JsNumber(first) == JsNumber(second)
    ensures Rival(user, first, second, taken).Lines() == [Line(Decimal(first), 1), Line(Decimal(second), 1)]
    ensures Value(Decimal(first)) == first && Value(Decimal(second)) == second
  {
    Locks.TwoLinesStayInOrder(first, second);
    ValueOfDecimal(first);
    ValueOfDecimal(second);
  }

  lemma RivalsBegin(a: nat, b: nat, begin0: Action, begin1: Action)
    requires begin0 == Begin(0, Basket(0, a, b), Moment(0, false)) && begin1 == Begin(1, Basket(1, b, a), Moment(0, false))
    ensures var s := State(TwoProducts(a, b), map[], []);
            && Enabled(s, begin0) && Enabled(Apply(s, begin0), begin1)
            && Apply(Apply(s, begin0), begin1) == Rivals(a, b, false, false)
  {
    assert LinesFailure(begin0.input.items).None? && LinesFailure(begin1.input.items).None?;
  }

  /** What a rival wants next is there. */
  lemma RivalSees(s: State, t: nat, user: nat, first: nat, second: nat, taken: bool)
    requires t in s.txs && s.txs[t] == Rival(user, first, second, taken) && s.db.products == TwoProducts(first, second).products
    requires first != second && first <= MAX_BIGINT && second <= MAX_BIGINT && JsNumber(first) == JsNumber(second)
    ensures NextFailure(s, t).None? && |s.txs[t].Lines()| == 2
    ensures Value(s.txs[t].Lines()[s.txs[t].taken].productId) == if taken then second else first
  {
    RivalLines(user, first, second, taken);
    assert LineFailure(Seen(s, t), s.txs[t].Lines()[s.txs[t].taken]).None?;
  }

  lemma RivalTakes(s: State, t: nat, user: nat, first: nat, second: nat)
    requires t in s.txs && s.txs[t] == Rival(user, first, second, false) && s.db.products == TwoProducts(first, second).products
    requires first != second && first <= MAX_BIGINT && second <= MAX_BIGINT && JsNumber(first) == JsNumber(second)
    ensures NextFailure(s, t).None? && |s.txs[t].Lines()| == 2 && Value(s.txs[t].Lines()[0].productId) == first
    ensures Took(s, t) == Rival(user, first, second, true)
  {
    RivalLines(user, first, second, false);
    RivalSees(s, t, user, first, second, false);
    assert Seen(s, t)[first] == Product(1, 1);
  }

  lemma FirstRivalTakes(a: nat, b: nat)
    requires a != b && a <= MAX_BIGINT && b <= MAX_BIGINT && JsNumber(a) == JsNumber(b)
    ensures var s := Rivals(a, b, false, false);
            Enabled(s, TakeLine(0)) && Apply(s, TakeLine(0)) == Rivals(a, b, true, false)
  {
    RivalTakes(Rivals(a, b, false, false), 0, 0, a, b);
  }

  lemma SecondRivalTakes(a: nat, b: nat)
    requires a != b && a <= MAX_BIGINT && b <= MAX_BIGINT && JsNumber(a) == JsNumber(b)
    ensures var s := Rivals(a, b, true, false);
            Enabled(s, TakeLine(1)) && Apply(s, TakeLine(1)) == Rivals(a, b, true, true)
  {
    RivalTakes(Rivals(a, b, true, false), 1, 1, b, a);
  }

  lemma RunOfFour(s: State, a: Action, b: Action, c: Action, d: Action)
    requires Enabled(s, a) && Enabled(Apply(s, a), b)
    requires Enabled(Apply(Apply(s, a), b), c) && Enabled(Apply(Apply(Apply(s, a), b), c), d)
    ensures exists actions :: Executes(s, actions, Apply(Apply(Apply(Apply(s, a), b), c), d))
  {
    assert [a, b, c, d][1..] == [b, c, d] && [b, c, d][1..] == [c, d] && [c, d][1..] == [d] && [d][1..] == [];
    var t := Apply(Apply(Apply(Apply(s, a), b), c), d);
    assert Executes(Apply(Apply(Apply(s, a), b), c), [d], t);
    assert Executes(Apply(Apply(s, a), b), [c, d], t);
    assert Executes(s, [a, b, c, d], t);
  }

  lemma RivalsAreReachable(a: nat, b: nat)
    requires a != b && a <= MAX_BIGINT && b <= MAX_BIGINT && JsNumber(a) == JsNumber(b)
    ensures Reachable(TwoProducts(a, b), Rivals(a, b, true, true))
  {
    var begin0 := Begin(0, Basket(0, a, b), Moment(0, false));
    var begin1 := Begin(1, Basket(1, b, a), Moment(0, false));
    RivalsBegin(a, b, begin0, begin1);
    FirstRivalTakes(a, b);
    SecondRivalTakes(a, b);
    RunOfFour(State(TwoProducts(a, b), map[], []), begin0, begin1, TakeLine(0), TakeLine(1));
  }

  lemma BlockedCannotGoOn(s: State, t: nat)
    requires t in s.txs && s.txs[t].taken < |s.txs[t].Lines()| && !s.txs[t].charged && NextFailure(s, t).None?
    requires ProductLocked(s, t, Value(s.txs[t].Lines()[s.txs[t].taken].productId))
    ensures !CanGoOn(s, t)
  {
  }

  lemma RivalsAreStuck(a: nat, b: nat, t: nat)
    requires a != b && a <= MAX_BIGINT && b <= MAX_BIGINT && JsNumber(a) == JsNumber(b)
    ensures !CanGoOn(Rivals(a, b, true, true), t)
  {
    var s := Rivals(a, b, true, true);
    if t == 0 {
      RivalSees(s, 0, 0, a, b, true);
      assert b in s.txs[1].rows && ProductLocked(s, 0, b);
      BlockedCannotGoOn(s, 0);
    } else if t == 1 {
      RivalSees(s, 1, 1, b, a, true);
      assert a in s.txs[0].rows && ProductLocked(s, 1, a);
      BlockedCannotGoOn(s, 1);
    }
  }

  // ----- results -----

  /** Whatever products of `ids` the transactions under way order, some transaction can go on. */
  ghost predicate NeverStuck(ids: iset<nat>) {
    forall start, s :: Reachable(start, s) && Orders(s.txs, ids) && s.txs != map[] ==> exists t :: CanGoOn(s, t)
  }

  /** They have a run to the end of all of them, in which each commits or is refused. */
  ghost predicate CanAllEnd(s: State) {
    exists actions, t :: RunsToTheEnd(s, actions, t) && t.txs == map[]
  }

  lemma RivalsOrder(a: nat, b: nat, ids: iset<nat>)
    requires a in ids && b in ids
    ensures Orders(Rivals(a, b, true, true).txs, ids)
  {
    ValueOfDecimal(a);
    ValueOfDecimal(b);
  }

  lemma TellingApartMeansNeverStuck(ids: iset<nat>)
    requires Locks.KeysTellApart(ids)
    ensures NeverStuck(ids)
  {
    forall start, s | Reachable(start, s) && Orders(s.txs, ids) && s.txs != map[]
      ensures exists t :: CanGoOn(s, t)
    {
      ReachableIsGood(start, s, ids);
      var a, t := SomebodyGoesOn(start, s, ids);
      assert CanGoOn(s, t);
    }
  }

  /** Two products that the sort key confuses, ordered by two checkouts in opposite order. */
  lemma ConfusedProductsGetStuck(ids: iset<nat>, a: nat, b: nat)
    requires Locks.Confused(ids, a, b)
    ensures var s := Rivals(a, b, true, true);
            Reachable(TwoProducts(a, b), s) && Orders(s.txs, ids) && s.txs != map[] && forall t :: !CanGoOn(s, t)
  {
    RivalsAreReachable(a, b);
    RivalsOrder(a, b, ids);
    forall t
      ensures !CanGoOn(Rivals(a, b, true, true), t)
    {
      RivalsAreStuck(a, b, t);
    }
    assert 0 in Rivals(a, b, true, true).txs;
  }

  /** On its rows, too, the checkout never deadlocks exactly if the sort key tells apart the ids that fit the column. */
  lemma NeverStuckIffKeysTellApart(ids: iset<nat>)
    ensures NeverStuck(ids) <==> Locks.KeysTellApart(ids)
  {
    if Locks.KeysTellApart(ids) {
      TellingApartMeansNeverStuck(ids);
    } else {
      var a, b :| Locks.Confused(ids, a, b);
      ConfusedProductsGetStuck(ids, a, b);
    }
  }

  /** Then all checkouts under way can end on their own, each with a commit or a refusal, whatever has happened before. */
  lemma AllCheckoutsCanEnd(start: Db, s: State, ids: iset<nat>)
    requires Reachable(start, s) && Orders(s.txs, ids) && Locks.KeysTellApart(ids)
    ensures CanAllEnd(s)
  {
    ReachableIsGood(start, s, ids);
    var actions, t := AllEnd(start, s, ids);
  }
}
