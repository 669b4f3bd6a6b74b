/**
 Placing an order under an idempotency key, by any number of concurrent requests: look the key up, else check out,
 and on a conflict of the unique index (user, key) look it up again.
 */
module PlaceOrder {
  import opened Options
  import opened Sorting
  import opened Sums
  import opened Text
  import opened Checkout
  import opened Ledger
  import opened LineTexts

  datatype Answer =
    | Success(order: Order, replay: bool)
    | Refusal(reason: Failure)
    | KeyReused
    | Lost

  function FindOrder(orders: seq<Order>, userId: nat, key: Text): Option<Order> {
    if orders == [] then None
    else if orders[0].userId == userId && orders[0].key == Some(key) then Some(orders[0])
    else FindOrder(orders[1..], userId, key)
  }

  /** A missing and an empty key are both taken for no key. */
  function FindExisting(orders: seq<Order>, input: Input): Option<Answer> {
    if input.key.None? || input.key.value == [] then None
    else match FindOrder(orders, input.userId, input.key.value)
      case None => None
      case Some(order) => Some(if IsSameRequest(order, input) then Success(order, true) else KeyReused)
  }

  lemma {:induction false} FindOrderFinds(orders: seq<Order>, userId: nat, key: Text)
    ensures FindOrder(orders, userId, key).Some? <==> KeyTaken(orders, userId, Some(key))
    ensures FindOrder(orders, userId, key).Some? ==>
              var order := FindOrder(orders, userId, key).value;
              order in orders && order.userId == userId && order.key == Some(key)
  {
    if orders != [] {
      FindOrderFinds(orders[1..], userId, key);
      if KeyTaken(orders, userId, Some(key)) && !(orders[0].userId == userId && orders[0].key == Some(key)) {
        var i :| 0 <= i < |orders| && orders[i].userId == userId && orders[i].key == Some(key);
        assert orders[1..][i - 1] == orders[i];
      }
      if KeyTaken(orders[1..], userId, Some(key)) {
        var i :| 0 <= i < |orders[1..]| && orders[1..][i].userId == userId && orders[1..][i].key == Some(key);
        assert orders[i + 1] == orders[1..][i];
      }
    }
  }

  // ----- one request on its own -----

  /** What a request is answered when nobody else is at work. */
  function AnswerAlone(db: Db, input: Input, orderId: nat, rowId: nat, moment: Moment, reloadFails: bool): Answer {
    match FindExisting(db.orders, input)
    case Some(answer) => answer
    case None =>
      match Outcome(db, input, orderId, moment)
      case Refused(reason) => Refusal(reason)
      case Placed(_, _) =>
        var orders := After(db, input, orderId, rowId, moment).orders;
        if reloadFails then Lost else Success(orders[|orders| - 1], false)
  }

  /** The database it leaves. */
  function DbAlone(db: Db, input: Input, orderId: nat, rowId: nat, moment: Moment): Db {
    if FindExisting(db.orders, input).Some? then db else After(db, input, orderId, rowId, moment)
  }

  class PlaceOrderService {
    const store: Store

    constructor (store: Store)
      ensures this.store == store
    {
      this.store := store;
    }

    /**
     With nobody else at work the key decides everything: a known key replays or is refused and changes nothing, an
     unknown key checks out. `reloadFails` says that reading the new order back fails, which does not undo it.
     */
    method Place(input: Input, orderId: nat, rowId: nat, moment: Moment, reloadFails: bool) returns (answer: Answer)
      modifies store
      ensures answer == AnswerAlone(old(store.State()), input, orderId, rowId, moment, reloadFails)
      ensures store.State() == DbAlone(old(store.State()), input, orderId, rowId, moment)
      ensures FindExisting(old(store.orders), input).Some? ==>
                answer == FindExisting(old(store.orders), input).value && store.State() == old(store.State())
      ensures FindExisting(old(store.orders), input).None? ==>
                && store.State() == After(old(store.State()), input, orderId, rowId, moment)
                && match Outcome(old(store.State()), input, orderId, moment)
                   case Placed(_, _) =>
                     answer == if reloadFails then Lost else Success(store.orders[|store.orders| - 1], false)
                   case Refused(reason) => answer == Refusal(reason) && store.State() == old(store.State())
    {
      var existing := FindExisting(store.orders, input);
      if existing.Some? {
        return existing.value;
      }
      RequestedLinesRound(input.items);
      var result := store.Checkout(input.userId, Mapped(Requested, input.items), input.key, orderId, rowId, moment);
      if result.Placed? {
        return if reloadFails then Lost else Success(store.orders[|store.orders| - 1], false);
      }
      if result.reason != KeyConflict {
        return Refusal(result.reason);
      }
      answer := match FindExisting(store.orders, input)
        case Some(winner) => winner
        case None => Refusal(KeyConflict);
    }
  }

  // ----- many requests at once -----

  datatype Phase =
    | Looking
    | Creating
    | Made(orderId: nat)
    | Rereading
    | Finished(answer: Answer)

  datatype Call = Call(input: Input, phase: Phase)

  /** The database, the requests, and which request made which order. */
  datatype State = State(db: Db, calls: map<nat, Call>, makers: map<nat, nat>)

  datatype Action =
    | Arrive(c: nat, input: Input)
    | LookUp(c: nat)
    | Transact(c: nat, orderId: nat, rowId: nat, moment: Moment)
    | Return(c: nat)
    | Reread(c: nat)
    | Vanish(c: nat)
    | Relabel(orderId: nat, status: Status)

  predicate Enabled(s: State, a: Action) {
    match a
    case Arrive(c, _) => c !in s.calls
    case LookUp(c) => c in s.calls && s.calls[c].phase.Looking?
    case Transact(c, orderId, _, _) =>
      c in s.calls && s.calls[c].phase.Creating? && forall i | 0 <= i < |s.db.orders| :: s.db.orders[i].id != orderId
    case Return(c) =>
      c in s.calls && s.calls[c].phase.Made?
      && exists i | 0 <= i < |s.db.orders| :: s.db.orders[i].id == s.calls[c].phase.orderId
    case Reread(c) => c in s.calls && s.calls[c].phase.Rereading?
    case Vanish(c) => c in s.calls
    case Relabel(_, _) => true
  }

  function InPhase(s: State, c: nat, phase: Phase): State
    requires c in s.calls
  {
    s.(calls := s.calls[c := s.calls[c].(phase := phase)])
  }

  function OrderWithId(orders: seq<Order>, id: nat): Order
    requires exists i | 0 <= i < |orders| :: orders[i].id == id
  {
    if orders[0].id == id then orders[0]
    else
      assert forall i | 0 < i < |orders| :: orders[i] == orders[1..][i - 1];
      OrderWithId(orders[1..], id)
  }

  function Apply(s: State, a: Action): State
    requires Enabled(s, a)
  {
    match a
    case Arrive(c, input) => s.(calls := s.calls[c := Call(input, Looking)])
    case LookUp(c) =>
      (match FindExisting(s.db.orders, s.calls[c].input)
       case None => InPhase(s, c, Creating)
       case Some(answer) => InPhase(s, c, Finished(answer)))
    case Transact(c, orderId, rowId, moment) =>
      var input := s.calls[c].input;
      var t := s.(db := After(s.db, input, orderId, rowId, moment));
      (match Outcome(s.db, input, orderId, moment)
       case Placed(_, _) => InPhase(t.(makers := t.makers[orderId := c]), c, Made(orderId))
       case Refused(KeyConflict) => InPhase(t, c, Rereading)
       case Refused(reason) => InPhase(t, c, Finished(Refusal(reason))))
    case Return(c) => InPhase(s, c, Finished(Success(OrderWithId(s.db.orders, s.calls[c].phase.orderId), false)))
    case Reread(c) =>
      (match FindExisting(s.db.orders, s.calls[c].input)
       case None => InPhase(s, c, Finished(Refusal(KeyConflict)))
       case Some(answer) => InPhase(s, c, Finished(answer)))
    case Vanish(c) => InPhase(s, c, Finished(Lost))
    case Relabel(orderId, status) => s.(db := StatusAfter(s.db, orderId, status))
  }

  function Initial(db: Db): State {
    State(db, map[], map[])
  }

  ghost predicate Executes(s: State, actions: seq<Action>, t: State)
    decreases |actions|
  {
    if actions == [] then s == t
    else Enabled(s, actions[0]) && Executes(Apply(s, actions[0]), actions[1..], t)
  }

  /** A database that honours its unique indexes and has lost nothing. */
  ghost predicate GoodStart(db: Db) {
    Sound(db) && Indexed(db.orders)
  }

  ghost predicate Reachable(start: Db, s: State) {
    GoodStart(start) && exists actions :: Executes(Initial(start), actions, s)
  }

  // ----- invariant -----

  /** The primary key and the unique indexes over user and key and over user and creation time. */
  ghost predicate Indexed(orders: seq<Order>) {
    && (forall i, j | 0 <= i < j < |orders| :: orders[i].id != orders[j].id)
    && (forall i, j | 0 <= i < j < |orders| && orders[i].userId == orders[j].userId && orders[i].key.Some? ::
          orders[i].key != orders[j].key)
    && (forall i, j | 0 <= i < j < |orders| && orders[i].userId == orders[j].userId ::
          orders[i].createdAt != orders[j].createdAt)
  }

  /** Equal up to the status, which changes over an order's life. */
  predicate SameOrder(a: Order, b: Order) {
    a == b.(status := a.status)
  }

  ghost predicate OnRecord(orders: seq<Order>, order: Order) {
    exists i :: 0 <= i < |orders| && SameOrder(orders[i], order)
  }

  ghost predicate MadeBy(s: State, c: nat, orderId: nat)
    requires c in s.calls
  {
    && orderId in s.makers && s.makers[orderId] == c
    && exists i :: 0 <= i < |s.db.orders| && s.db.orders[i].id == orderId
         && s.db.orders[i].userId == s.calls[c].input.userId && s.db.orders[i].key == s.calls[c].input.key
  }

  ghost predicate CallInv(s: State, c: nat)
    requires c in s.calls
  {
    var input := s.calls[c].input;
    match s.calls[c].phase
    case Made(orderId) => MadeBy(s, c, orderId)
    case Rereading => KeyTaken(s.db.orders, input.userId, input.key)
    case Finished(Success(order, replay)) =>
      && OnRecord(s.db.orders, order) && order.userId == input.userId && order.key == input.key
      && (if replay then IsSameRequest(order, input) else MadeBy(s, c, order.id))
    case _ => true
  }

  ghost predicate Inv(start: Db, s: State) {
    && Indexed(s.db.orders) && Sound(s.db) && Conserves(start, s.db)
    && (forall c | c in s.calls :: CallInv(s, c))
    && (forall id | id in s.makers :: exists i :: 0 <= i < |s.db.orders| && s.db.orders[i].id == id)
  }

  // ----- the invariant holds -----

  /** What a step of the database does to the orders: keeps them all, up to status, and may add one. */
  ghost predicate OrdersGrow(before: seq<Order>, after: seq<Order>) {
    && |before| <= |after|
    && forall i | 0 <= i < |before| :: SameOrder(after[i], before[i])
  }

  lemma CallInvSurvives(s: State, t: State, c: nat)
    requires c in s.calls && CallInv(s, c) && c in t.calls && t.calls[c] == s.calls[c]
    requires OrdersGrow(s.db.orders, t.db.orders)
    requires forall id | id in s.makers :: id in t.makers && t.makers[id] == s.makers[id]
    ensures CallInv(t, c)
  {
    var input := s.calls[c].input;
    match s.calls[c].phase
    case Made(orderId) => MadeBySurvives(s, t, c, orderId);
    case Rereading =>
      var i :| 0 <= i < |s.db.orders| && s.db.orders[i].userId == input.userId && s.db.orders[i].key == input.key;
      assert SameOrder(t.db.orders[i], s.db.orders[i]);
    case Finished(Success(order, replay)) =>
      var i :| 0 <= i < |s.db.orders| && SameOrder(s.db.orders[i], order);
      assert SameOrder(t.db.orders[i], s.db.orders[i]) && SameOrder(t.db.orders[i], order);
      if !replay {
        MadeBySurvives(s, t, c, order.id);
      }
    case _ =>
  }

  lemma MadeBySurvives(s: State, t: State, c: nat, orderId: nat)
    requires c in s.calls && MadeBy(s, c, orderId) && c in t.calls && t.calls[c].input == s.calls[c].input
    requires OrdersGrow(s.db.orders, t.db.orders)
    requires forall id | id in s.makers :: id in t.makers && t.makers[id] == s.makers[id]
    ensures MadeBy(t, c, orderId)
  {
    var i :| 0 <= i < |s.db.orders| && s.db.orders[i].id == orderId
      && s.db.orders[i].userId == s.calls[c].input.userId && s.db.orders[i].key == s.calls[c].input.key;
    assert SameOrder(t.db.orders[i], s.db.orders[i]);
  }

  lemma AddedOrderIsIndexed(orders: seq<Order>, order: Order)
    requires Indexed(orders) && !KeyTaken(orders, order.userId, order.key)
    requires !MomentTaken(orders, order.userId, order.createdAt)
    requires forall i | 0 <= i < |orders| :: orders[i].id != order.id
    ensures Indexed(orders + [order]) && OrdersGrow(orders, orders + [order])
  {
  }

  /** The unique indexes admit another order exactly if neither its key nor its moment is taken by one of the same user. */
  lemma IndexesAdmitIffNeitherIsTaken(orders: seq<Order>, order: Order)
    requires Indexed(orders) && forall i | 0 <= i < |orders| :: orders[i].id != order.id
    ensures Indexed(orders + [order])
       <==> !KeyTaken(orders, order.userId, order.key) && !MomentTaken(orders, order.userId, order.createdAt)
  {
    var all, n := orders + [order], |orders|;
    assert all[n] == order && forall i | 0 <= i < n :: all[i] == orders[i];
    if KeyTaken(orders, order.userId, order.key) {
      var i :| 0 <= i < n && orders[i].userId == order.userId && orders[i].key == order.key;
      assert all[i].userId == all[n].userId && all[i].key == all[n].key;
    } else if MomentTaken(orders, order.userId, order.createdAt) {
      var i :| 0 <= i < n && orders[i].userId == order.userId && orders[i].createdAt == order.createdAt;
      assert all[i].userId == all[n].userId && all[i].createdAt == all[n].createdAt;
    } else {
      AddedOrderIsIndexed(orders, order);
    }
  }

  lemma PlacedCheckoutAddsOneOrder(db: Db, input: Input, orderId: nat, rowId: nat, moment: Moment)
    requires Outcome(db, input, orderId, moment).Placed?
    ensures !KeyTaken(db.orders, input.userId, input.key) && !MomentTaken(db.orders, input.userId, moment.at)
    ensures exists order :: After(db, input, orderId, rowId, moment).orders == db.orders + [order]
              && order.id == orderId && order.userId == input.userId && order.key == input.key
              && order.createdAt == moment.at
  {
    CheckoutIsExact(db, input, orderId, rowId, moment);
    var after := After(db, input, orderId, rowId, moment);
    var items :| Records(db, after, input, orderId, rowId, moment, items);
    var order := Order(orderId, input.userId, Paid, Cost(db.products, input.items), input.key, moment.at, items);
    assert after.orders == db.orders + [order];
  }

  lemma CheckoutGrowsOrders(db: Db, input: Input, orderId: nat, rowId: nat, moment: Moment)
    requires Indexed(db.orders) && forall i | 0 <= i < |db.orders| :: db.orders[i].id != orderId
    ensures var orders := After(db, input, orderId, rowId, moment).orders;
            && OrdersGrow(db.orders, orders) && Indexed(orders)
            && (Outcome(db, input, orderId, moment).Placed? ==>
                  |orders| > 0 && orders[|orders| - 1].id == orderId
                  && orders[|orders| - 1].userId == input.userId && orders[|orders| - 1].key == input.key)
            && (Outcome(db, input, orderId, moment) == Refused(KeyConflict) ==>
                  KeyTaken(orders, input.userId, input.key))
  {
    if Outcome(db, input, orderId, moment).Refused? {
      RefusalIsTruthful(db, input, orderId, moment);
    } else {
      PlacedCheckoutAddsOneOrder(db, input, orderId, rowId, moment);
      var order :| After(db, input, orderId, rowId, moment).orders == db.orders + [order]
        && order.id == orderId && order.userId == input.userId && order.key == input.key
        && order.createdAt == moment.at;
      AddedOrderIsIndexed(db.orders, order);
    }
  }

  lemma ConservesTransitively(a: Db, b: Db, c: Db)
    requires Conserves(a, b) && Conserves(b, c)
    ensures Conserves(a, c)
  {
  }

  lemma FoundAnswerIsOnRecord(orders: seq<Order>, input: Input)
    requires FindExisting(orders, input).Some? && FindExisting(orders, input).value.Success?
    ensures var answer := FindExisting(orders, input).value;
            OnRecord(orders, answer.order) && answer.order.userId == input.userId && answer.order.key == input.key
            && answer.replay && IsSameRequest(answer.order, input)
  {
    FindOrderFinds(orders, input.userId, input.key.value);
    var order := FindOrder(orders, input.userId, input.key.value).value;
    var i :| 0 <= i < |orders| && orders[i] == order;
    assert SameOrder(orders[i], order);
  }

  lemma {:induction false} OrderWithIdIsIt(orders: seq<Order>, id: nat)
    requires exists i | 0 <= i < |orders| :: orders[i].id == id
    ensures OrderWithId(orders, id) in orders && OrderWithId(orders, id).id == id
  {
    if orders[0].id != id {
      assert forall i | 0 < i < |orders| :: orders[i] == orders[1..][i - 1];
      OrderWithIdIsIt(orders[1..], id);
    }
  }

  /** A step of one call that leaves the database alone leaves the other calls alone. */
  lemma OthersKeepCallInv(s: State, t: State, c: nat)
    requires forall d | d in s.calls :: CallInv(s, d)
    requires c in t.calls && t == s.(calls := s.calls[c := t.calls[c]])
    ensures forall d | d in t.calls && d != c :: CallInv(t, d)
  {
    forall d | d in t.calls && d != c
      ensures CallInv(t, d)
    {
      assert OrdersGrow(s.db.orders, t.db.orders);
      CallInvSurvives(s, t, d);
    }
  }

  lemma LookupKeepsOwnCall(s: State, a: Action, t: State)
    requires Enabled(s, a) && (a.LookUp? || a.Reread?) && t == Apply(s, a)
    ensures CallInv(t, a.c)
  {
    var found := FindExisting(s.db.orders, s.calls[a.c].input);
    if found.Some? && found.value.Success? {
      FoundAnswerIsOnRecord(s.db.orders, s.calls[a.c].input);
    }
  }

  lemma LookupKeepsInv(start: Db, s: State, a: Action)
    requires Inv(start, s) && Enabled(s, a) && (a.LookUp? || a.Reread?)
    ensures Inv(start, Apply(s, a))
  {
    LookupKeepsOwnCall(s, a, Apply(s, a));
    OthersKeepCallInv(s, Apply(s, a), a.c);
  }

  lemma ReturnKeepsOwnCall(s: State, a: Action, t: State)
    requires Indexed(s.db.orders) && Enabled(s, a) && a.Return? && CallInv(s, a.c) && t == Apply(s, a)
    ensures CallInv(t, a.c)
  {
    var orderId := s.calls[a.c].phase.orderId;
    OrderWithIdIsIt(s.db.orders, orderId);
    var order := OrderWithId(s.db.orders, orderId);
    var i :| 0 <= i < |s.db.orders| && s.db.orders[i] == order;
    assert SameOrder(t.db.orders[i], order);
    MadeBySurvives(s, t, a.c, orderId);
  }

  lemma ReturnKeepsInv(start: Db, s: State, a: Action)
    requires Inv(start, s) && Enabled(s, a) && a.Return?
    ensures Inv(start, Apply(s, a))
  {
    ReturnKeepsOwnCall(s, a, Apply(s, a));
    OthersKeepCallInv(s, Apply(s, a), a.c);
  }

  /** The parts of the state that a checkout transaction may change. */
  lemma TransactEffect(s: State, a: Action)
    requires Enabled(s, a) && a.Transact?
    ensures var input, t := s.calls[a.c].input, Apply(s, a);
            var outcome := Outcome(s.db, input, a.orderId, a.moment);
            && t.db == After(s.db, input, a.orderId, a.rowId, a.moment)
            && t.makers == (if outcome.Placed? then s.makers[a.orderId := a.c] else s.makers)
            && t.calls == s.calls[a.c := Call(input,
                 if outcome.Placed? then Made(a.orderId)
                 else if outcome.reason.KeyConflict? then Rereading
                 else Finished(Refusal(outcome.reason)))]
  {
  }

  lemma TransactKeepsCalls(start: Db, s: State, a: Action, t: State)
    requires Inv(start, s) && Enabled(s, a) && a.Transact? && t == Apply(s, a)
    requires OrdersGrow(s.db.orders, t.db.orders)
    ensures forall c | c in t.calls && c != a.c :: CallInv(t, c)
  {
    TransactEffect(s, a);
    assert a.orderId !in s.makers;
    forall c | c in t.calls && c != a.c
      ensures CallInv(t, c)
    {
      CallInvSurvives(s, t, c);
    }
  }

  lemma TransactKeepsMakers(start: Db, s: State, a: Action, t: State)
    requires Inv(start, s) && Enabled(s, a) && a.Transact? && t == Apply(s, a)
    requires OrdersGrow(s.db.orders, t.db.orders)
    requires a.orderId in t.makers ==> |t.db.orders| > 0 && t.db.orders[|t.db.orders| - 1].id == a.orderId
    ensures forall id | id in t.makers :: exists i :: 0 <= i < |t.db.orders| && t.db.orders[i].id == id
  {
    TransactEffect(s, a);
    forall id | id in t.makers
      ensures exists i :: 0 <= i < |t.db.orders| && t.db.orders[i].id == id
    {
      if id in s.makers {
        var i :| 0 <= i < |s.db.orders| && s.db.orders[i].id == id;
        assert SameOrder(t.db.orders[i], s.db.orders[i]);
      }
    }
  }

  lemma TransactKeepsOwnCall(s: State, a: Action, t: State)
    requires Indexed(s.db.orders) && Enabled(s, a) && a.Transact? && t == Apply(s, a)
    ensures CallInv(t, a.c)
  {
    TransactEffect(s, a);
    CheckoutGrowsOrders(s.db, s.calls[a.c].input, a.orderId, a.rowId, a.moment);
    var n := |t.db.orders|;
    assert t.calls[a.c].phase.Made? ==> t.db.orders[n - 1].id == a.orderId;
  }

  lemma TransactConserves(start: Db, s: State, a: Action, t: State)
    requires Sound(s.db) && Conserves(start, s.db) && Enabled(s, a) && a.Transact? && t == Apply(s, a)
    ensures Sound(t.db) && Conserves(start, t.db)
  {
    TransactEffect(s, a);
    BuyConserves(s.db, s.calls[a.c].input, a.orderId, a.rowId, a.moment);
    ConservesTransitively(start, s.db, t.db);
  }

  lemma TransactGrowsOrders(s: State, a: Action, t: State)
    requires Indexed(s.db.orders) && Enabled(s, a) && a.Transact? && t == Apply(s, a)
    ensures Indexed(t.db.orders) && OrdersGrow(s.db.orders, t.db.orders)
    ensures a.orderId in t.makers && a.orderId !in s.makers ==>
              |t.db.orders| > 0 && t.db.orders[|t.db.orders| - 1].id == a.orderId
  {
    TransactEffect(s, a);
    CheckoutGrowsOrders(s.db, s.calls[a.c].input, a.orderId, a.rowId, a.moment);
  }

  lemma TransactKeepsInv(start: Db, s: State, a: Action)
    requires Inv(start, s) && Enabled(s, a) && a.Transact?
    ensures Inv(start, Apply(s, a))
  {
    var t := Apply(s, a);
    TransactConserves(start, s, a, t);
    TransactGrowsOrders(s, a, t);
    TransactKeepsOwnCall(s, a, t);
    assert a.orderId !in s.makers;
    TransactKeepsCalls(start, s, a, t);
    TransactKeepsMakers(start, s, a, t);
  }

  lemma RelabelKeepsCalls(s: State, t: State)
    requires OrdersGrow(s.db.orders, t.db.orders) && t == s.(db := t.db)
    requires forall c | c in s.calls :: CallInv(s, c)
    ensures forall c | c in t.calls :: CallInv(t, c)
  {
    forall c | c in t.calls
      ensures CallInv(t, c)
    {
      CallInvSurvives(s, t, c);
    }
  }

  lemma RelabelKeepsInv(start: Db, s: State, a: Action)
    requires Inv(start, s) && Enabled(s, a) && a.Relabel?
    ensures Inv(start, Apply(s, a))
  {
    var t := Apply(s, a);
    StatusConserves(s.db, a.orderId, a.status);
    ConservesTransitively(start, s.db, t.db);
    assert OrdersGrow(s.db.orders, t.db.orders);
    RelabelKeepsCalls(s, t);
    forall id | id in t.makers
      ensures exists i :: 0 <= i < |t.db.orders| && t.db.orders[i].id == id
    {
      var i :| 0 <= i < |s.db.orders| && s.db.orders[i].id == id;
      assert SameOrder(t.db.orders[i], s.db.orders[i]);
    }
  }

  lemma EdgeKeepsInv(start: Db, s: State, a: Action)
    requires Inv(start, s) && Enabled(s, a) && (a.Arrive? || a.Vanish?)
    ensures Inv(start, Apply(s, a))
  {
    var t := Apply(s, a);
    forall c | c in t.calls
      ensures CallInv(t, c)
    {
      if c != a.c {
        CallInvSurvives(s, t, c);
      }
    }
  }

  lemma StepKeepsInv(start: Db, s: State, a: Action)
    requires Inv(start, s) && Enabled(s, a)
    ensures Inv(start, Apply(s, a))
  {
    match a
    case LookUp(_) => LookupKeepsInv(start, s, a);
    case Reread(_) => LookupKeepsInv(start, s, a);
    case Return(_) => ReturnKeepsInv(start, s, a);
    case Transact(_, _, _, _) => TransactKeepsInv(start, s, a);
    case Relabel(_, _) => RelabelKeepsInv(start, s, a);
    case _ => EdgeKeepsInv(start, s, a);
  }

  lemma {:induction false} RunKeepsInv(start: Db, s: State, actions: seq<Action>, t: State)
    requires Inv(start, s) && Executes(s, actions, t)
    ensures Inv(start, t)
    decreases |actions|
  {
    if actions != [] {
      StepKeepsInv(start, s, actions[0]);
      RunKeepsInv(start, Apply(s, actions[0]), actions[1..], t);
    }
  }

  lemma ReachableInv(start: Db, s: State)
    requires Reachable(start, s)
    ensures Inv(start, s)
  {
    var actions :| Executes(Initial(start), actions, s);
    RunKeepsInv(start, Initial(start), actions, s);
  }

  // ----- results -----

  predicate Succeeded(s: State, c: nat) {
    c in s.calls && s.calls[c].phase.Finished? && s.calls[c].phase.answer.Success?
  }

  predicate SameKey(s: State, c: nat, d: nat)
    requires c in s.calls && d in s.calls
  {
    s.calls[c].input.userId == s.calls[d].input.userId && s.calls[c].input.key == s.calls[d].input.key
    && s.calls[c].input.key.Some?
  }

  /** Under one key there is one order, whatever the requests do at the same time. */
  lemma OneOrderPerKey(start: Db, s: State, i: nat, j: nat)
    requires Reachable(start, s) && i < |s.db.orders| && j < |s.db.orders|
    requires s.db.orders[i].userId == s.db.orders[j].userId && s.db.orders[i].key == s.db.orders[j].key
    requires s.db.orders[i].key.Some?
    ensures i == j
  {
    ReachableInv(start, s);
  }

  /** Stock and balances have been charged for exactly the orders that exist. */
  lemma ChargedForTheOrdersThereAre(start: Db, s: State)
    requires Reachable(start, s)
    ensures Sound(s.db) && Conserves(start, s.db)
  {
    ReachableInv(start, s);
  }

  /** All requests that succeed under one key return the same order. */
  lemma SuccessesReturnOneOrder(start: Db, s: State, c: nat, d: nat)
    requires Reachable(start, s) && Succeeded(s, c) && Succeeded(s, d) && SameKey(s, c, d)
    ensures SameOrder(s.calls[c].phase.answer.order, s.calls[d].phase.answer.order)
  {
    ReachableInv(start, s);
    assert CallInv(s, c) && CallInv(s, d);
    var i :| 0 <= i < |s.db.orders| && SameOrder(s.db.orders[i], s.calls[c].phase.answer.order);
    var j :| 0 <= j < |s.db.orders| && SameOrder(s.db.orders[j], s.calls[d].phase.answer.order);
  }

  /** At most one request under a key is told that the order is new. */
  lemma AtMostOneIsNotAReplay(start: Db, s: State, c: nat, d: nat)
    requires Reachable(start, s) && Succeeded(s, c) && Succeeded(s, d) && SameKey(s, c, d)
    requires !s.calls[c].phase.answer.replay && !s.calls[d].phase.answer.replay
    ensures c == d
  {
    SuccessesReturnOneOrder(start, s, c, d);
    ReachableInv(start, s);
    assert CallInv(s, c) && CallInv(s, d);
  }

  /**
   The second lookup after a conflict finds the winner, unless the key is the empty string. That one is stored and
   conflicts like any other key, but is never looked up.
   */
  lemma ConflictFindsTheWinner(start: Db, s: State, c: nat)
    requires Reachable(start, s) && c in s.calls && s.calls[c].phase.Rereading?
    ensures s.calls[c].input.key.Some?
    ensures FindExisting(s.db.orders, s.calls[c].input).Some? <==> s.calls[c].input.key.value != []
  {
    ReachableInv(start, s);
    assert CallInv(s, c);
    FindOrderFinds(s.db.orders, s.calls[c].input.userId, s.calls[c].input.key.value);
  }

  // ----- retries -----

  lemma KeyedOrderIsFound(orders: seq<Order>, n: nat, input: Input)
    requires Indexed(orders) && n < |orders| && orders[n].userId == input.userId && orders[n].key == input.key
    requires input.key.Some? && input.key.value != []
    ensures FindExisting(orders, input)
         == Some(if IsSameRequest(orders[n], input) then Success(orders[n], true) else KeyReused)
  {
    assert KeyTaken(orders, input.userId, input.key);
    FindOrderFinds(orders, input.userId, input.key.value);
    var order := FindOrder(orders, input.userId, input.key.value).value;
    var i :| 0 <= i < |orders| && orders[i] == order;
    assert i == n;
  }

  /**
   However many orders are placed and statuses changed afterwards, a request under the key of a placed checkout is answered
   with that checkout's order if it has its lines, in any order but with canonical ids, and is refused otherwise.
   */
  lemma RetryIsReplayedIffSameLines(db: Db, input: Input, orderId: nat, rowId: nat, moment: Moment, later: seq<Order>,
                                    retry: Input)
    requires Placeable(db, input, moment) && OrdersGrow(After(db, input, orderId, rowId, moment).orders, later)
    requires Indexed(later)
    requires retry.userId == input.userId && retry.key == input.key && input.key.Some? && input.key.value != []
    ensures var n := |db.orders|;
            && n < |later| && later[n].id == orderId
            && FindExisting(later, retry) ==
                 Some(if multiset(retry.items) == multiset(Mapped(CanonicalLine, input.items)) then Success(later[n], true)
                      else KeyReused)
  {
    var n := |db.orders|;
    var orders := After(db, input, orderId, rowId, moment).orders;
    MatchesIffCanonicalLines(db, input, orderId, rowId, moment, retry);
    CheckoutIsExact(db, input, orderId, rowId, moment);
    PlacedCheckoutAddsOneOrder(db, input, orderId, rowId, moment);
    assert SameOrder(later[n], orders[n]);
    KeyedOrderIsFound(later, n, retry);
  }

  lemma OnlyOrderIsFound(order: Order, input: Input)
    requires order.userId == input.userId && order.key == input.key && input.key.Some? && input.key.value != []
    ensures FindExisting([order], input) == Some(if IsSameRequest(order, input) then Success(order, true) else KeyReused)
  {
    assert [order][0] == order;
  }

  /** An order for 007 under a key, and its retry: the second request is answered as if it were another one. */
  lemma PaddedRetryIsRefused(key: Text, moment: Moment)
    requires key != [] && !moment.interrupted
    ensures var db, input := Shop(7, 1), Input(0, [Line(PaddedSeven(), 1)], Some(key));
            && Outcome(db, input, 0, moment).Placed?
            && FindExisting(After(db, input, 0, 0, moment).orders, input) == Some(KeyReused)
  {
    var db, input := Shop(7, 1), Input(0, [Line(PaddedSeven(), 1)], Some(key));
    PaddedRequestDoesNotMatch(Some(key), moment);
    CheckoutIsExact(db, input, 0, 0, moment);
    PlacedCheckoutAddsOneOrder(db, input, 0, 0, moment);
    var order :| After(db, input, 0, 0, moment).orders == db.orders + [order]
      && order.id == 0 && order.userId == 0 && order.key == Some(key) && order.createdAt == moment.at;
    OnlyOrderIsFound(order, input);
    assert db.orders + [order] == [order];
  }

  // ----- the empty key -----

  lemma OneLineIsTaken(products: map<nat, Product>, line: Line)
    requires LineFailure(products, line).None?
    ensures Take(products, SortedLines([line])) == Taken(StockAfter(products, line), [Priced(products, line)])
    ensures Total([Priced(products, line)]) == line.quantity * products[Value(line.productId)].price
  {
    assert [line][1..] == [] && [line][..0] == [];
    SumOfOne(ItemCost, Priced(products, line));
    assert SortedLines([line]) == [line];
  }

  /** A user's order for one seven under the empty key. */
  function SevenUnderEmptyKey(): Input {
    Input(0, [Line([ZERO + 7], 1)], Some([]))
  }

  lemma FirstSevenIsPlaced(db: Db)
    requires db == Shop(7, 2)
    ensures var input, moment := SevenUnderEmptyKey(), Moment(0, false);
            && Outcome(db, input, 0, moment) == Placed(0, 1)
            && After(db, input, 0, 0, moment)
               == Db(map[7 := Product(1, 1)], map[0 := 1], [Order(0, 0, Paid, 1, Some([]), 0, [Item(7, 1, 1)])],
                     [0], [Announcement(0, 0, 0, 1, [Item(7, 1, 1)])])
  {
    var line := SevenUnderEmptyKey().items[0];
    assert [ZERO + 7][..0] == [];
    assert Value(line.productId) == 7;
    OneLineIsTaken(db.products, line);
    assert StockAfter(db.products, line) == map[7 := Product(1, 1)];
    assert db.users[0 := 1] == map[0 := 1];
  }

  lemma SecondSevenConflicts(db: Db)
    requires db == After(Shop(7, 2), SevenUnderEmptyKey(), 0, 0, Moment(0, false))
    ensures Outcome(db, SevenUnderEmptyKey(), 1, Moment(1, false)) == Refused(KeyConflict)
  {
    FirstSevenIsPlaced(Shop(7, 2));
    var line := SevenUnderEmptyKey().items[0];
    assert [ZERO + 7][..0] == [];
    assert Value(line.productId) == 7;
    OneLineIsTaken(db.products, line);
    assert db.orders[0].key == Some([]) && db.orders[0].userId == 0;
  }

  lemma {:induction false} RunsCompose(s: State, first: seq<Action>, t: State, second: seq<Action>, u: State)
    requires Executes(s, first, t) && Executes(t, second, u)
    ensures Executes(s, first + second, u)
    decreases |first|
  {
    if first == [] {
      assert first + second == second;
    } else {
      RunsCompose(Apply(s, first[0]), first[1..], t, second, u);
      assert (first + second)[1..] == first[1..] + second;
    }
  }

  /** A request that is not found under its key, up to the end of its transaction. */
  lemma RequestRuns(s: State, c: nat, input: Input, orderId: nat, rowId: nat, moment: Moment) returns (actions: seq<Action>)
    requires c !in s.calls && FindExisting(s.db.orders, input).None?
    requires forall i | 0 <= i < |s.db.orders| :: s.db.orders[i].id != orderId
    ensures var ready := s.(calls := s.calls[c := Call(input, Creating)]);
            Executes(s, actions, Apply(ready, Transact(c, orderId, rowId, moment)))
  {
    var a, b, d := Arrive(c, input), LookUp(c), Transact(c, orderId, rowId, moment);
    actions := [a, b, d];
    var arrived := Apply(s, a);
    var ready := s.(calls := s.calls[c := Call(input, Creating)]);
    assert Apply(arrived, b) == ready;
    assert [a, b, d][1..] == [b, d] && [b, d][1..] == [d] && [d][1..] == [];
    assert Executes(ready, [d], Apply(ready, d));
    assert Executes(arrived, [b, d], Apply(ready, d));
  }

  /** After the first request's transaction, and after the second one's. */
  function SevenPlaced(): State {
    State(After(Shop(7, 2), SevenUnderEmptyKey(), 0, 0, Moment(0, false)),
          map[0 := Call(SevenUnderEmptyKey(), Made(0))], map[0 := 0])
  }

  function SevenConflicted(): State {
    var s := SevenPlaced();
    s.(calls := s.calls[1 := Call(SevenUnderEmptyKey(), Rereading)])
  }

  lemma FirstRequestRuns() returns (actions: seq<Action>)
    ensures Executes(Initial(Shop(7, 2)), actions, SevenPlaced())
  {
    var start, input := Initial(Shop(7, 2)), SevenUnderEmptyKey();
    FirstSevenIsPlaced(Shop(7, 2));
    actions := RequestRuns(start, 0, input, 0, 0, Moment(0, false));
    var done := Apply(start.(calls := start.calls[0 := Call(input, Creating)]), Transact(0, 0, 0, Moment(0, false)));
    assert done.makers == map[0 := 0] && done.calls == map[0 := Call(input, Made(0))];
    assert done == SevenPlaced();
  }

  lemma SecondRequestRuns() returns (actions: seq<Action>)
    ensures Executes(SevenPlaced(), actions, SevenConflicted())
  {
    var s, input := SevenPlaced(), SevenUnderEmptyKey();
    FirstSevenIsPlaced(Shop(7, 2));
    SecondSevenConflicts(s.db);
    actions := RequestRuns(s, 1, input, 1, 1, Moment(1, false));
    var done := Apply(s.(calls := s.calls[1 := Call(input, Creating)]), Transact(1, 1, 1, Moment(1, false)));
    assert done.calls == SevenConflicted().calls;
    assert done == SevenConflicted();
  }

  /** Such requests there are: a reachable one under the empty key, whose second lookup finds no winner. */
  lemma EmptyKeyLosesTheWinner()
    ensures var s := SevenConflicted();
            && Reachable(Shop(7, 2), s) && s.calls[1].phase.Rereading? && s.calls[1].input.key == Some([])
            && FindExisting(s.db.orders, s.calls[1].input).None?
            && Apply(s, Reread(1)).calls[1].phase == Finished(Refusal(KeyConflict))
  {
    var first := FirstRequestRuns();
    var second := SecondRequestRuns();
    RunsCompose(Initial(Shop(7, 2)), first, SevenPlaced(), second, SevenConflicted());
    assert GoodStart(Shop(7, 2));
  }

  // ----- the method as a run -----

  lemma {:induction false} LastOrderIsFound(orders: seq<Order>, order: Order)
    requires forall i | 0 <= i < |orders| :: orders[i].id != order.id
    ensures exists i | 0 <= i < |orders + [order]| :: (orders + [order])[i].id == order.id
    ensures OrderWithId(orders + [order], order.id) == order
  {
    assert (orders + [order])[|orders|] == order;
    if orders != [] {
      assert (orders + [order])[1..] == orders[1..] + [order];
      LastOrderIsFound(orders[1..], order);
    }
  }

  lemma RunGoesOn(s: State, actions: seq<Action>, t: State, a: Action)
    requires Executes(s, actions, t) && Enabled(t, a)
    ensures Executes(s, actions + [a], Apply(t, a))
  {
    assert [a][1..] == [] && Executes(Apply(t, a), [], Apply(t, a));
    RunsCompose(s, actions, t, [a], Apply(t, a));
  }

  lemma RunOfTwo(s: State, a: Action, b: Action)
    requires Enabled(s, a) && Enabled(Apply(s, a), b)
    ensures Executes(s, [a, b], Apply(Apply(s, a), b))
  {
    var t := Apply(Apply(s, a), b);
    assert [a, b][1..] == [b] && [b][1..] == [];
    assert Executes(Apply(s, a), [b], t);
  }

  lemma LastPhaseCounts(calls: map<nat, Call>, c: nat, before: Call, after: Call)
    ensures calls[c := before][c := after] == calls[c := after]
  {
  }

  /** The lookup of a request that has just arrived, under a key that is known. */
  lemma KnownKeyIsFound(s: State, c: nat, input: Input)
    requires c !in s.calls && FindExisting(s.db.orders, input).Some?
    ensures Enabled(s, Arrive(c, input)) && Enabled(Apply(s, Arrive(c, input)), LookUp(c))
    ensures var answer := FindExisting(s.db.orders, input).value;
            Apply(Apply(s, Arrive(c, input)), LookUp(c))
            == s.(calls := s.calls[c := Call(input, Looking)][c := Call(input, Finished(answer))])
  {
  }

  lemma KnownKeyIsARun(s: State, c: nat, input: Input) returns (actions: seq<Action>, t: State)
    requires c !in s.calls && FindExisting(s.db.orders, input).Some?
    ensures Executes(s, actions, t) && t.db == s.db
    ensures t.calls == s.calls[c := Call(input, Finished(FindExisting(s.db.orders, input).value))]
  {
    KnownKeyIsFound(s, c, input);
    RunOfTwo(s, Arrive(c, input), LookUp(c));
    LastPhaseCounts(s.calls, c, Call(input, Looking), Call(input, Finished(FindExisting(s.db.orders, input).value)));
    actions := [Arrive(c, input), LookUp(c)];
    t := s.(calls := s.calls[c := Call(input, Looking)][c := Call(input, Finished(FindExisting(s.db.orders, input).value))]);
  }

  /** The order was made: its request reads it back, or fails to. */
  lemma MadeRequestEnds(s: State, c: nat, orderId: nat, orders: seq<Order>, order: Order, reloadFails: bool)
    returns (a: Action)
    requires c in s.calls && s.calls[c].phase == Made(orderId) && s.db.orders == orders + [order] && order.id == orderId
    requires forall i | 0 <= i < |orders| :: orders[i].id != orderId
    ensures Enabled(s, a) && Apply(s, a).db == s.db
    ensures Apply(s, a).calls == s.calls[c := s.calls[c].(phase := Finished(if reloadFails then Lost else Success(order, false)))]
  {
    LastOrderIsFound(orders, order);
    assert s.db.orders[|orders|].id == orderId;
    a := if reloadFails then Vanish(c) else Return(c);
  }

  lemma NewKeyTransacts(s: State, c: nat, input: Input, orderId: nat, rowId: nat, moment: Moment)
    returns (actions: seq<Action>, t: State)
    requires c !in s.calls && FindExisting(s.db.orders, input).None?
    requires forall i | 0 <= i < |s.db.orders| :: s.db.orders[i].id != orderId
    ensures Executes(s, actions, t) && t.db == After(s.db, input, orderId, rowId, moment)
    ensures t.calls == s.calls[c := Call(input, match Outcome(s.db, input, orderId, moment)
                                                case Placed(_, _) => Made(orderId)
                                                case Refused(KeyConflict) => Rereading
                                                case Refused(reason) => Finished(Refusal(reason)))]
  {
    var ready := s.(calls := s.calls[c := Call(input, Creating)]);
    actions := RequestRuns(s, c, input, orderId, rowId, moment);
    t := Apply(ready, Transact(c, orderId, rowId, moment));
    TransactEffect(ready, Transact(c, orderId, rowId, moment));
    LastPhaseCounts(s.calls, c, Call(input, Creating), t.calls[c]);
  }

  lemma PlacedRequestIsARun(s: State, c: nat, input: Input, orderId: nat, rowId: nat, moment: Moment, reloadFails: bool)
    returns (actions: seq<Action>, t: State)
    requires c !in s.calls && FindExisting(s.db.orders, input).None?
    requires forall i | 0 <= i < |s.db.orders| :: s.db.orders[i].id != orderId
    requires Outcome(s.db, input, orderId, moment).Placed?
    ensures Executes(s, actions, t) && t.db == After(s.db, input, orderId, rowId, moment)
    ensures t.calls == s.calls[c := Call(input, Finished(AnswerAlone(s.db, input, orderId, rowId, moment, reloadFails)))]
  {
    var first, done := NewKeyTransacts(s, c, input, orderId, rowId, moment);
    var a := MadeRequestEnds(done, c, orderId, s.db.orders, done.db.orders[|s.db.orders|], reloadFails);
    RunGoesOn(s, first, done, a);
    actions, t := first + [a], Apply(done, a);
  }

  lemma RefusedRequestIsARun(s: State, c: nat, input: Input, orderId: nat, rowId: nat, moment: Moment)
    returns (actions: seq<Action>, t: State)
    requires c !in s.calls && FindExisting(s.db.orders, input).None?
    requires forall i | 0 <= i < |s.db.orders| :: s.db.orders[i].id != orderId
    requires Outcome(s.db, input, orderId, moment).Refused?
    ensures Executes(s, actions, t) && t.db == s.db
    ensures t.calls == s.calls[c := Call(input, Finished(Refusal(Outcome(s.db, input, orderId, moment).reason)))]
  {
    actions, t := NewKeyTransacts(s, c, input, orderId, rowId, moment);
    if Outcome(s.db, input, orderId, moment).reason.KeyConflict? {
      RunGoesOn(s, actions, t, Reread(c));
      actions, t := actions + [Reread(c)], Apply(t, Reread(c));
    }
  }

  /** What `PlaceOrderService.Place` promises is what the requests' state machine does when nobody interferes. */
  lemma LonePlaceIsARun(s: State, c: nat, input: Input, orderId: nat, rowId: nat, moment: Moment, reloadFails: bool)
    returns (actions: seq<Action>, t: State)
    requires c !in s.calls && forall i | 0 <= i < |s.db.orders| :: s.db.orders[i].id != orderId
    ensures Executes(s, actions, t) && t.db == DbAlone(s.db, input, orderId, rowId, moment)
    ensures t.calls == s.calls[c := Call(input, Finished(AnswerAlone(s.db, input, orderId, rowId, moment, reloadFails)))]
  {
    if FindExisting(s.db.orders, input).Some? {
      actions, t := KnownKeyIsARun(s, c, input);
    } else if Outcome(s.db, input, orderId, moment).Placed? {
      actions, t := PlacedRequestIsARun(s, c, input, orderId, rowId, moment, reloadFails);
    } else {
      actions, t := RefusedRequestIsARun(s, c, input, orderId, rowId, moment);
    }
  }
}
