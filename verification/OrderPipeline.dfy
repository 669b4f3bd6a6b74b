/**
 From the committed order to its receipt: checkout transactions, outbox relays, the broker and inbox consumers, each
 of which may die between any two of its steps.
 */
module OrderPipeline {
  import opened Options
  import opened Sums
  import opened Text
  import opened CanonicalJson
  import opened Checkout
  import opened Ledger
  import opened OrderPlaced
  import opened OrderPlacedConsumer
  import OutboxRelay
  import opened RelayBooks
  import opened OrderPlacedPublisher

  /** Foreign messages are those that `ParseMessage` refuses. */
  datatype Message = Event(incoming: Incoming<nat>) | Foreign(n: nat)

  datatype Delivered = Delivered(message: Message, result: Option<ApplyResult>)

  /** `unacked` are the deliveries a consumer has not answered. */
  datatype Broker = Broker(queue: multiset<Message>, unacked: map<nat, Delivered>, dead: multiset<Message>)

  /** `effects` is history: the orders for which a consumer was told that its effect is new. */
  datatype State = State(db: Db, books: Books, broker: Broker, inbox: Inbox<nat>, effects: seq<nat>, now: int)

  /**
   `AnnounceAgain` is no step of the program. It stands for an event that somebody announces anew by hand, in a row and
   under a message id of its own, which is how the consumer comes to answer `already-applied`.
   */
  datatype Action =
    | Commit(input: Input, orderId: nat, rowId: nat, moment: Moment)
    | Relabel(labelled: nat, status: Status)
    | AnnounceAgain(again: nat, copyId: nat)
    | Select(relay: nat, row: nat)
    | Publish(relay: nat, answer: Answer)
    | Mark(relay: nat)
    | CountReturn(relay: nat)
    | Abort(relay: nat)
    | Crash(process: nat)
    | Inject(message: Message)
    | Deliver(tag: nat, message: Message)
    | Apply(tag: nat, dbFails: bool)
    | Ack(tag: nat)
    | Refuse(tag: nat)
    | Redeliver(tag: nat, exhausted: bool)
    | Cleanup(rows: set<nat>)
    | Tick(seconds: nat)

  function MessageOf(rowId: nat, a: Announcement): Message {
    Event(Incoming(rowId, EventId(a.orderId), Decimal(a.orderId), a.total))
  }

  function OrderIds(orders: seq<Order>): set<nat> {
    set i | 0 <= i < |orders| :: orders[i].id
  }

  predicate Handled(s: State, tag: nat) {
    tag in s.broker.unacked && s.broker.unacked[tag].result.Some? && !s.broker.unacked[tag].result.value.Failed?
  }

  ghost predicate Enabled(s: State, a: Action) {
    match a
    case Commit(_, orderId, rowId, _) =>
      orderId <= MAX_BIGINT && orderId !in OrderIds(s.db.orders) && rowId !in s.books.announced
    case Relabel(_, _) => true
    case AnnounceAgain(again, copyId) => again in s.books.announced && copyId !in s.books.announced
    case Select(relay, row) =>
      && relay !in s.books.relays && row in s.books.outbox && OutboxRelay.Eligible(s.books.outbox[row])
      && !IsLocked(s.books, row)
    case Publish(relay, _) => Holds(s.books, relay) && s.books.relays[relay].phase.Locked?
    case Mark(relay) => Holds(s.books, relay) && s.books.relays[relay].phase.Confirmed?
    case CountReturn(relay) => Holds(s.books, relay) && s.books.relays[relay].phase.Unroutable?
    case Abort(relay) => relay in s.books.relays
    case Crash(_) => true
    case Inject(message) => message.Foreign?
    case Deliver(tag, message) => tag !in s.broker.unacked && message in s.broker.queue
    case Apply(tag, _) => tag in s.broker.unacked && s.broker.unacked[tag].message.Event? && s.broker.unacked[tag].result.None?
    case Ack(tag) => Handled(s, tag)
    case Refuse(tag) => tag in s.broker.unacked && s.broker.unacked[tag].message.Foreign?
    case Redeliver(tag, _) => tag in s.broker.unacked
    case Cleanup(rows) => rows <= OutboxRelay.Outdated(s.books.outbox, s.now, OutboxRelay.OUTBOX_RETENTION_DAYS)
    case Tick(_) => true
  }

  function Commits(s: State, input: Input, orderId: nat, rowId: nat, moment: Moment): State {
    var outcome := Outcome(s.db, input, orderId, moment);
    if outcome.Refused? then s
    else
      var items := Take(s.db.products, SortedLines(input.items)).priced;
      var event := Announcement(rowId, orderId, input.userId, outcome.total, items);
      s.(db := After(s.db, input, orderId, rowId, moment),
         books := Announced(s.books, rowId, event, s.now),
         inbox := s.inbox.(orders := s.inbox.orders + {orderId}))
  }

  /** The broker takes what a relay sends. */
  function Arrives(s: State, relay: nat, answer: Answer): Broker
    requires Holds(s.books, relay)
  {
    var row := s.books.relays[relay].row;
    if IsTaken(answer) then s.broker.(queue := s.broker.queue + multiset{MessageOf(row, s.books.outbox[row].event)})
    else s.broker
  }

  function Applies(s: State, tag: nat, dbFails: bool): State
    requires tag in s.broker.unacked && s.broker.unacked[tag].message.Event?
  {
    var delivered := s.broker.unacked[tag];
    var result := ResultOf(s.inbox, delivered.message.incoming, dbFails);
    s.(broker := s.broker.(unacked := s.broker.unacked[tag := delivered.(result := Some(result))]),
       inbox := InboxAfter(s.inbox, delivered.message.incoming, dbFails),
       effects := if result.Applied? then s.effects + [Value(delivered.message.incoming.orderId)] else s.effects)
  }

  function Delivers(k: Broker, tag: nat, message: Message): Broker {
    k.(queue := k.queue - multiset{message}, unacked := k.unacked[tag := Delivered(message, None)])
  }

  /** A rejected message goes to the dead letters. */
  function Refuses(k: Broker, tag: nat): Broker
    requires tag in k.unacked
  {
    k.(unacked := k.unacked - {tag}, dead := k.dead + multiset{k.unacked[tag].message})
  }

  /** A delivery without an answer goes back to the queue, or to the dead letters once its deliveries are used up. */
  function Redelivers(k: Broker, tag: nat, exhausted: bool): Broker
    requires tag in k.unacked
  {
    if exhausted then Refuses(k, tag)
    else k.(unacked := k.unacked - {tag}, queue := k.queue + multiset{k.unacked[tag].message})
  }

  function Next(s: State, a: Action): State
    requires Enabled(s, a)
  {
    match a
    case Commit(input, orderId, rowId, moment) => Commits(s, input, orderId, rowId, moment)
    case Relabel(orderId, status) => s.(db := StatusAfter(s.db, orderId, status))
    case AnnounceAgain(again, copyId) => s.(books := Announced(s.books, copyId, s.books.announced[again], s.now))
    case Select(relay, row) => s.(books := s.books.(relays := s.books.relays[relay := Relay(row, Locked)]))
    case Publish(relay, answer) =>
      s.(books := Publishes(s.books, relay, answer), broker := Arrives(s, relay, answer))
    case Mark(relay) => s.(books := Marks(s.books, relay, s.now))
    case CountReturn(relay) => s.(books := CountsReturn(s.books, relay))
    case Abort(relay) => s.(books := Aborts(s.books, relay))
    case Crash(process) => s.(books := Crashes(s.books, process))
    case Inject(message) => s.(broker := s.broker.(queue := s.broker.queue + multiset{message}))
    case Deliver(tag, message) => s.(broker := Delivers(s.broker, tag, message))
    case Apply(tag, dbFails) => Applies(s, tag, dbFails)
    case Ack(tag) => s.(broker := s.broker.(unacked := s.broker.unacked - {tag}))
    case Refuse(tag) => s.(broker := Refuses(s.broker, tag))
    case Redeliver(tag, exhausted) => s.(broker := Redelivers(s.broker, tag, exhausted))
    case Cleanup(rows) => s.(books := s.books.(outbox := s.books.outbox - rows))
    case Tick(seconds) => s.(now := s.now + seconds)
  }

  function Initial(db: Db, now: int): State {
    State(db, Books(map[], map[], map[], map[], {}, multiset{}, multiset{}, multiset{}, multiset{}, {}),
          Broker(multiset{}, map[], multiset{}), Inbox({}, map[], {}), [], now)
  }

  ghost predicate Executes(s: State, actions: seq<Action>, t: State)
    decreases |actions|
  {
    if actions == [] then s == t
    else Enabled(s, actions[0]) && Executes(Next(s, actions[0]), actions[1..], t)
  }

  /** Databases as the schema admits them, before the first order. */
  ghost predicate Starts(db: Db) {
    && db.orders == [] && db.outbox == [] && Sound(db)
    && forall p | p in db.products :: db.products[p].price > 0
  }

  ghost predicate Reachable(s: State) {
    exists db, now, actions :: Starts(db) && Executes(Initial(db, now), actions, s)
  }

  // ----- what every step keeps -----

  ghost predicate Announces(orders: seq<Order>, a: Announcement) {
    exists i :: 0 <= i < |orders| && orders[i].id == a.orderId && orders[i].total == a.total && orders[i].items == a.items
  }

  ghost predicate HasRow(announced: map<nat, Announcement>, orderId: nat) {
    exists r :: r in announced && announced[r].orderId == orderId
  }

  ghost predicate DbInv(db: Db) {
    && Sound(db)
    && (forall p | p in db.products :: db.products[p].price > 0)
    && (forall i, j | 0 <= i < j < |db.orders| :: db.orders[i].id != db.orders[j].id)
  }

  /** Orders and announcements match, and the announced values fit the receipts table. */
  ghost predicate AnnouncedInv(orders: seq<Order>, known: set<nat>, announced: map<nat, Announcement>) {
    && known == OrderIds(orders)
    && (forall o | o in known :: HasRow(announced, o))
    && (forall r | r in announced ::
          Announces(orders, announced[r]) && announced[r].orderId <= MAX_BIGINT && 0 <= announced[r].total <= MAX_INTEGER)
  }

  ghost predicate OrdersInv(s: State) {
    DbInv(s.db) && AnnouncedInv(s.db.orders, s.inbox.orders, s.books.announced)
  }

  /** The message is with the broker, or with a consumer that has not answered. */
  ghost predicate Underway(s: State, message: Message) {
    || message in s.broker.queue
    || message in s.broker.dead
    || exists tag :: tag in s.broker.unacked && s.broker.unacked[tag].message == message
  }

  /** The event of the row is on its way, or its receipt is written. */
  ghost predicate Carried(s: State, r: nat)
    requires r in s.books.announced
  {
    Underway(s, MessageOf(r, s.books.announced[r])) || s.books.announced[r].orderId in s.inbox.receipts
  }

  ghost predicate Genuine(s: State, message: Message) {
    message.Event? ==>
      message.incoming.messageId in s.books.announced
      && message == MessageOf(message.incoming.messageId, s.books.announced[message.incoming.messageId])
  }

  ghost predicate BrokerInv(s: State) {
    && (forall m | Underway(s, m) :: Genuine(s, m))
    && (forall r | r in s.books.announced && r in s.books.copies :: Carried(s, r))
  }

  ghost predicate Receipted(s: State, o: nat)
    requires o in s.inbox.receipts
  {
    && s.inbox.receipts[o].eventId == EventId(o)
    && exists r :: r in s.books.announced && s.books.announced[r].orderId == o && s.books.announced[r].total == s.inbox.receipts[o].total
  }

  ghost predicate ProcessedInv(s: State) {
    forall r | r in s.inbox.processed :: r in s.books.announced && s.books.announced[r].orderId in s.inbox.receipts
  }

  ghost predicate ReceiptsInv(s: State) {
    forall o | o in s.inbox.receipts :: Receipted(s, o)
  }

  ghost predicate HandledInv(s: State) {
    forall tag | Handled(s, tag) ::
      s.broker.unacked[tag].message.Event? && Value(s.broker.unacked[tag].message.incoming.orderId) in s.inbox.receipts
  }

  ghost predicate EffectsInv(effects: seq<nat>, receipts: set<nat>) {
    && (forall i, j | 0 <= i < j < |effects| :: effects[i] != effects[j])
    && (forall o :: o in effects <==> o in receipts)
  }

  ghost predicate InboxInv(s: State) {
    ProcessedInv(s) && ReceiptsInv(s) && HandledInv(s) && EffectsInv(s.effects, s.inbox.receipts.Keys)
  }

  ghost predicate Inv(s: State) {
    OrdersInv(s) && RelayInv(s.books) && BrokerInv(s) && InboxInv(s)
  }

  // ----- orders -----

  lemma ChargedTotalIsPositive(products: map<nat, Product>, lines: seq<Line>)
    requires PositiveQuantities(lines) && forall p | p in products :: products[p].price > 0
    ensures Cost(products, lines) >= 0
  {
    forall line | line in lines
      ensures LineCost(products)(line) >= 0
    {
      var p := Value(line.productId);
      if p in products {
        assert line.quantity * products[p].price >= 0;
      }
    }
    SumNonNegative(LineCost(products), lines);
  }

  /** What a placed checkout adds to the database. */
  ghost predicate Adds(db: Db, after: Db, orderId: nat, order: Order, event: Announcement) {
    && after.orders == db.orders + [order] && after.outbox == db.outbox + [event]
    && order.id == event.orderId == orderId && order.total == event.total && order.items == event.items
    && 0 <= event.total <= MAX_INTEGER
  }

  lemma PlacedTotalFits(db: Db, input: Input, orderId: nat, moment: Moment)
    requires Outcome(db, input, orderId, moment).Placed?
    requires forall p | p in db.products :: db.products[p].price > 0
    ensures 0 <= Outcome(db, input, orderId, moment).total <= MAX_INTEGER
  {
    CheckoutIsExact(db, input, orderId, 0, moment);
    ChargedTotalIsPositive(db.products, input.items);
  }

  lemma CommitAdds(s: State, a: Action, t: State) returns (order: Order, event: Announcement)
    requires a.Commit? && Enabled(s, a) && t == Next(s, a)
    requires Outcome(s.db, a.input, a.orderId, a.moment).Placed?
    requires forall p | p in s.db.products :: s.db.products[p].price > 0
    ensures Adds(s.db, t.db, a.orderId, order, event)
    ensures t.books == Announced(s.books, a.rowId, event, s.now)
    ensures t.inbox == s.inbox.(orders := s.inbox.orders + {a.orderId})
  {
    PlacedTotalFits(s.db, a.input, a.orderId, a.moment);
    var items := Take(s.db.products, SortedLines(a.input.items)).priced;
    var total := Outcome(s.db, a.input, a.orderId, a.moment).total;
    order := Order(a.orderId, a.input.userId, Paid, total, a.input.key, a.moment.at, items);
    event := Announcement(a.rowId, a.orderId, a.input.userId, total, items);
  }

  lemma AnnouncesSurvives(orders: seq<Order>, later: seq<Order>, a: Announcement)
    requires Announces(orders, a) && |orders| <= |later|
    requires forall i | 0 <= i < |orders| :: later[i].(status := orders[i].status) == orders[i]
    ensures Announces(later, a)
  {
    var i :| 0 <= i < |orders| && orders[i].id == a.orderId && orders[i].total == a.total && orders[i].items == a.items;
    assert later[i].id == a.orderId;
  }

  lemma RelabelKeepsOrders(s: State, a: Action, t: State)
    requires OrdersInv(s) && Enabled(s, a) && a.Relabel? && t == Next(s, a)
    ensures OrdersInv(t)
  {
    StatusConserves(s.db, a.labelled, a.status);
    var orders, later := s.db.orders, t.db.orders;
    assert forall i | 0 <= i < |orders| :: later[i].(status := orders[i].status) == orders[i];
    forall r | r in t.books.announced
      ensures Announces(later, t.books.announced[r])
    {
      AnnouncesSurvives(orders, later, t.books.announced[r]);
    }
    assert forall i | 0 <= i < |orders| :: later[i].id == orders[i].id;
    assert OrderIds(later) == OrderIds(orders);
  }

  lemma NewOrderId(orders: seq<Order>, order: Order)
    ensures OrderIds(orders + [order]) == OrderIds(orders) + {order.id}
  {
    var all := orders + [order];
    assert all[|orders|] == order;
    assert forall i | 0 <= i < |orders| :: all[i] == orders[i];
  }

  lemma NewRowOfOrder(known: set<nat>, announced: map<nat, Announcement>, rowId: nat, event: Announcement)
    requires (forall o | o in known :: HasRow(announced, o)) && rowId !in announced
    ensures forall o | o in known + {event.orderId} :: HasRow(announced[rowId := event], o)
  {
    var after := announced[rowId := event];
    forall o | o in known + {event.orderId}
      ensures HasRow(after, o)
    {
      if o == event.orderId {
        assert after[rowId].orderId == o;
      } else {
        var r :| r in announced && announced[r].orderId == o;
        assert after[r].orderId == o;
      }
    }
  }

  lemma NewOrderKeepsAnnouncements(orders: seq<Order>, known: set<nat>, announced: map<nat, Announcement>,
                                   rowId: nat, order: Order, event: Announcement)
    requires AnnouncedInv(orders, known, announced) && rowId !in announced
    requires order.id == event.orderId && order.total == event.total && order.items == event.items
    requires event.orderId <= MAX_BIGINT && 0 <= event.total <= MAX_INTEGER
    ensures AnnouncedInv(orders + [order], known + {order.id}, announced[rowId := event])
  {
    NewOrderId(orders, order);
    NewRowOfOrder(known, announced, rowId, event);
    assert (orders + [order])[|orders|] == order;
    forall r | r in announced
      ensures Announces(orders + [order], announced[r])
    {
      AnnouncesSurvives(orders, orders + [order], announced[r]);
    }
  }

  lemma CommitKeepsDb(db: Db, a: Action, after: Db)
    requires DbInv(db) && a.Commit? && after == After(db, a.input, a.orderId, a.rowId, a.moment)
    requires a.orderId !in OrderIds(db.orders)
    ensures DbInv(after)
  {
    BuyConserves(db, a.input, a.orderId, a.rowId, a.moment);
    assert forall i | 0 <= i < |db.orders| :: db.orders[i].id in OrderIds(db.orders);
  }

  lemma CommitKeepsOrders(s: State, a: Action, t: State)
    requires OrdersInv(s) && Enabled(s, a) && a.Commit? && t == Next(s, a)
    ensures OrdersInv(t)
  {
    if Outcome(s.db, a.input, a.orderId, a.moment).Placed? {
      CommitKeepsDb(s.db, a, t.db);
      var order, event := CommitAdds(s, a, t);
      NewOrderKeepsAnnouncements(s.db.orders, s.inbox.orders, s.books.announced, a.rowId, order, event);
    }
  }

  lemma AnnounceAgainKeepsOrders(s: State, a: Action, t: State)
    requires OrdersInv(s) && Enabled(s, a) && a.AnnounceAgain? && t == Next(s, a)
    ensures OrdersInv(t)
  {
    var event := s.books.announced[a.again];
    var i :| 0 <= i < |s.db.orders| && s.db.orders[i].id == event.orderId;
    assert event.orderId in OrderIds(s.db.orders);
    assert s.inbox.orders + {event.orderId} == s.inbox.orders;
    NewRowOfOrder(s.inbox.orders, s.books.announced, a.copyId, event);
  }

  /** The other steps touch neither orders nor announcements. */
  lemma OtherStepSameOrders(s: State, a: Action, t: State)
    requires Enabled(s, a) && !a.Commit? && !a.Relabel? && !a.AnnounceAgain? && t == Next(s, a)
    ensures t.db == s.db && t.inbox.orders == s.inbox.orders && t.books.announced == s.books.announced
  {
  }

  lemma StepKeepsOrders(s: State, a: Action, t: State)
    requires OrdersInv(s) && Enabled(s, a) && t == Next(s, a)
    ensures OrdersInv(t)
  {
    if a.Commit? {
      CommitKeepsOrders(s, a, t);
    } else if a.Relabel? {
      RelabelKeepsOrders(s, a, t);
    } else if a.AnnounceAgain? {
      AnnounceAgainKeepsOrders(s, a, t);
    } else {
      OtherStepSameOrders(s, a, t);
    }
  }

  // ----- relays -----

  lemma RelayStepKeepsRelays(s: State, a: Action)
    requires RelayInv(s.books) && Enabled(s, a)
    requires a.Select? || a.Publish? || a.Mark? || a.CountReturn? || a.Abort? || a.Crash?
    ensures RelayInv(Next(s, a).books)
  {
    var c := Next(s, a).books;
    match a
    case Select(relay, row) => SelectKeepsRelays(s.books, relay, row, c);
    case Publish(relay, answer) => PublishKeepsRelays(s.books, relay, answer, c);
    case Crash(process) => CrashKeepsRelays(s.books, process, c);
    case Mark(relay) => EndKeepsRelays(s.books, relay, c);
    case CountReturn(relay) => EndKeepsRelays(s.books, relay, c);
    case Abort(relay) => EndKeepsRelays(s.books, relay, c);
  }

  lemma StepKeepsRelays(s: State, a: Action, t: State)
    requires OrdersInv(s) && RelayInv(s.books) && Enabled(s, a) && t == Next(s, a)
    ensures RelayInv(t.books)
  {
    match a
    case Commit(_, _, _, _) =>
      if Outcome(s.db, a.input, a.orderId, a.moment).Placed? {
        var order, event := CommitAdds(s, a, t);
        NewRowKeepsRelays(s.books, t.books, a.rowId, event, s.now);
      }
    case AnnounceAgain(again, copyId) =>
      NewRowKeepsRelays(s.books, t.books, copyId, s.books.announced[again], s.now);
    case Cleanup(rows) => CleanupKeepsRelays(s.books, rows, t.books);
    case Select(_, _) => RelayStepKeepsRelays(s, a);
    case Publish(_, _) => RelayStepKeepsRelays(s, a);
    case Mark(_) => RelayStepKeepsRelays(s, a);
    case CountReturn(_) => RelayStepKeepsRelays(s, a);
    case Abort(_) => RelayStepKeepsRelays(s, a);
    case Crash(_) => RelayStepKeepsRelays(s, a);
    case _ =>
  }

  // ----- messages -----

  lemma AnsweredSurvives(s: State, a: Action, t: State)
    requires (a.Refuse? || a.Redeliver?) && Enabled(s, a) && t == Next(s, a)
    ensures Underway(t, s.broker.unacked[a.tag].message)
  {
    assert s.broker.unacked[a.tag].message in t.broker.queue || s.broker.unacked[a.tag].message in t.broker.dead;
  }

  lemma UnansweredSurvives(s: State, a: Action, t: State, tag: nat)
    requires Enabled(s, a) && t == Next(s, a) && tag in s.broker.unacked
    requires a.Refuse? || a.Redeliver? || a.Ack? ==> a.tag != tag
    ensures tag in t.broker.unacked && t.broker.unacked[tag].message == s.broker.unacked[tag].message
  {
  }

  lemma UnackedSurvives(s: State, a: Action, t: State, tag: nat)
    requires Enabled(s, a) && t == Next(s, a) && tag in s.broker.unacked
    ensures Underway(t, s.broker.unacked[tag].message) || a == Ack(tag)
  {
    if (a.Refuse? || a.Redeliver?) && a.tag == tag {
      AnsweredSurvives(s, a, t);
    } else if a != Ack(tag) {
      UnansweredSurvives(s, a, t, tag);
    }
  }

  lemma StoredSurvives(s: State, a: Action, t: State, m: Message)
    requires Enabled(s, a) && t == Next(s, a) && (m in s.broker.queue || m in s.broker.dead)
    ensures Underway(t, m)
  {
    if a.Deliver? && m == a.message {
      assert t.broker.unacked[a.tag].message == m;
    } else {
      assert m in t.broker.queue || m in t.broker.dead;
    }
  }

  /** Messages do not vanish, except by an acknowledgement. */
  lemma UnderwaySurvives(s: State, a: Action, t: State, m: Message)
    requires Enabled(s, a) && t == Next(s, a) && Underway(s, m)
    ensures Underway(t, m) || (a.Ack? && s.broker.unacked[a.tag].message == m)
  {
    if m in s.broker.queue || m in s.broker.dead {
      StoredSurvives(s, a, t, m);
    } else {
      var tag :| tag in s.broker.unacked && s.broker.unacked[tag].message == m;
      UnackedSurvives(s, a, t, tag);
    }
  }

  lemma AnnouncedStays(s: State, a: Action, t: State, r: nat)
    requires Enabled(s, a) && t == Next(s, a) && r in s.books.announced
    ensures r in t.books.announced && t.books.announced[r] == s.books.announced[r]
  {
  }

  lemma ReceiptsStay(s: State, a: Action, t: State)
    requires Enabled(s, a) && t == Next(s, a)
    ensures forall o | o in s.inbox.receipts :: o in t.inbox.receipts && t.inbox.receipts[o] == s.inbox.receipts[o]
  {
  }

  lemma AckedIsReceipted(s: State, tag: nat, r: nat)
    requires InboxInv(s) && Handled(s, tag) && r in s.books.announced
    requires s.broker.unacked[tag].message == MessageOf(r, s.books.announced[r])
    ensures s.books.announced[r].orderId in s.inbox.receipts
  {
    ValueOfDecimal(s.books.announced[r].orderId);
  }

  lemma CarriedSurvives(s: State, a: Action, t: State, r: nat)
    requires InboxInv(s) && Enabled(s, a) && t == Next(s, a)
    requires r in s.books.announced && Carried(s, r)
    ensures r in t.books.announced && Carried(t, r)
  {
    AnnouncedStays(s, a, t, r);
    ReceiptsStay(s, a, t);
    var m := MessageOf(r, s.books.announced[r]);
    if s.books.announced[r].orderId !in s.inbox.receipts {
      UnderwaySurvives(s, a, t, m);
      if a.Ack? && s.broker.unacked[a.tag].message == m {
        AckedIsReceipted(s, a.tag, r);
      }
    }
  }

  lemma DeliveryOrigin(s: State, a: Action, t: State, tag: nat)
    requires Enabled(s, a) && t == Next(s, a) && tag in t.broker.unacked
    ensures Underway(s, t.broker.unacked[tag].message)
  {
    assert (a.Deliver? && tag == a.tag) || (tag in s.broker.unacked && s.broker.unacked[tag].message == t.broker.unacked[tag].message);
  }

  /** Where the messages of the next state come from. */
  lemma MessageOrigin(s: State, a: Action, t: State, m: Message)
    requires Enabled(s, a) && t == Next(s, a) && Underway(t, m)
    ensures || Underway(s, m)
            || m.Foreign?
            || (a.Publish? && m == MessageOf(s.books.relays[a.relay].row, s.books.outbox[s.books.relays[a.relay].row].event))
  {
    if m !in t.broker.queue && m !in t.broker.dead {
      var tag :| tag in t.broker.unacked && t.broker.unacked[tag].message == m;
      DeliveryOrigin(s, a, t, tag);
    }
  }

  lemma GenuineSurvives(s: State, a: Action, t: State, m: Message)
    requires Enabled(s, a) && t == Next(s, a) && Genuine(s, m)
    ensures Genuine(t, m)
  {
    if m.Event? {
      AnnouncedStays(s, a, t, m.incoming.messageId);
    }
  }

  lemma MessagesStayGenuine(s: State, a: Action, t: State, m: Message)
    requires RowsInv(s.books) && Enabled(s, a) && t == Next(s, a) && Underway(t, m)
    requires forall m | Underway(s, m) :: Genuine(s, m)
    ensures Genuine(t, m)
  {
    MessageOrigin(s, a, t, m);
    if a.Publish? {
      assert RowInv(s.books, s.books.relays[a.relay].row);
    }
    if Underway(s, m) {
      GenuineSurvives(s, a, t, m);
    }
  }

  lemma StepKeepsBroker(s: State, a: Action, t: State)
    requires RowsInv(s.books) && BrokerInv(s) && InboxInv(s) && Enabled(s, a) && t == Next(s, a)
    ensures BrokerInv(t)
  {
    forall m | Underway(t, m)
      ensures Genuine(t, m)
    {
      MessagesStayGenuine(s, a, t, m);
    }
    forall r | r in t.books.announced && r in t.books.copies
      ensures Carried(t, r)
    {
      if r in s.books.copies {
        CarriedSurvives(s, a, t, r);
      } else {
        FirstCopyIsUnderway(s, a, t, r);
      }
    }
  }

  lemma OnlyPublishCopies(s: State, a: Action, t: State, r: nat)
    requires Enabled(s, a) && t == Next(s, a) && r in t.books.copies && r !in s.books.copies
    ensures a.Publish? && IsTaken(a.answer) && r == s.books.relays[a.relay].row
  {
  }

  lemma FirstCopyIsUnderway(s: State, a: Action, t: State, r: nat)
    requires RowsInv(s.books) && Enabled(s, a) && t == Next(s, a) && r in t.books.announced && r in t.books.copies && r !in s.books.copies
    ensures Carried(t, r)
  {
    OnlyPublishCopies(s, a, t, r);
    assert RowInv(s.books, r);
  }

  // ----- receipts -----

  lemma ReceiptOfGenuine(s: State, message: Message)
    requires AnnouncedInv(s.db.orders, s.inbox.orders, s.books.announced) && Genuine(s, message) && message.Event?
    ensures var incoming := message.incoming;
            var event := s.books.announced[incoming.messageId];
            && Value(incoming.orderId) == event.orderId && event.orderId in s.inbox.orders
            && incoming == Incoming(incoming.messageId, EventId(event.orderId), Decimal(event.orderId), event.total)
            && event.orderId <= MAX_BIGINT && 0 <= event.total <= MAX_INTEGER
  {
    var event := s.books.announced[message.incoming.messageId];
    ValueOfDecimal(event.orderId);
    var i :| 0 <= i < |s.db.orders| && s.db.orders[i].id == event.orderId;
    assert event.orderId in OrderIds(s.db.orders);
  }

  lemma NoNulInEventId(orderId: nat)
    ensures 0 !in EventId(orderId)
  {
    DecimalIsCanonical(orderId);
    assert 0 !in Decimal(orderId);
    assert 0 !in Ascii("order.placed:");
  }

  lemma GenuineNeverViolates(s: State, message: Message)
    requires AnnouncedInv(s.db.orders, s.inbox.orders, s.books.announced) && InboxInv(s)
    requires Genuine(s, message) && message.Event?
    ensures !Violates(s.inbox, message.incoming)
  {
    ReceiptOfGenuine(s, message);
    var event := s.books.announced[message.incoming.messageId];
    NoNulInEventId(event.orderId);
    forall o | o in s.inbox.receipts && s.inbox.receipts[o].eventId == EventId(event.orderId)
      ensures event.orderId in s.inbox.receipts
    {
      assert Receipted(s, o);
      EventIdTellsOrdersApart(o, event.orderId);
    }
  }

  lemma ReceiptedStays(s: State, a: Action, t: State, o: nat)
    requires Enabled(s, a) && t == Next(s, a) && o in s.inbox.receipts && Receipted(s, o)
    ensures o in t.inbox.receipts && Receipted(t, o)
  {
    ReceiptsStay(s, a, t);
    var r :| r in s.books.announced && s.books.announced[r].orderId == o && s.books.announced[r].total == s.inbox.receipts[o].total;
    AnnouncedStays(s, a, t, r);
  }

  /** What handling a message does, by its result. */
  lemma ApplyEffect(s: State, a: Action, t: State)
    requires OrdersInv(s) && BrokerInv(s) && a.Apply? && Enabled(s, a) && t == Applies(s, a.tag, a.dbFails)
    ensures var incoming, result := s.broker.unacked[a.tag].message.incoming, t.broker.unacked[a.tag].result;
            var o := Value(incoming.orderId);
            && incoming.messageId in s.books.announced && o == s.books.announced[incoming.messageId].orderId
            && result == Some(ResultOf(s.inbox, incoming, a.dbFails))
            && if result == Some(Applied) then
                 && o !in s.inbox.receipts
                 && t.effects == s.effects + [o]
                 && t.inbox.processed == s.inbox.processed + {incoming.messageId}
                 && t.inbox.receipts ==
                    s.inbox.receipts[o := Receipt(EventId(o), s.books.announced[incoming.messageId].total)]
               else
                 && t.effects == s.effects && t.inbox.receipts == s.inbox.receipts
                 && (result == Some(AlreadyApplied) ==> o in s.inbox.receipts)
                 && (result == Some(Duplicate) ==> incoming.messageId in s.inbox.processed)
                 && t.inbox.processed == if result == Some(AlreadyApplied)
                                         then s.inbox.processed + {incoming.messageId} else s.inbox.processed
  {
    var message := s.broker.unacked[a.tag].message;
    assert Underway(s, message);
    ReceiptOfGenuine(s, message);
  }

  lemma ApplyKeepsReceipts(s: State, a: Action, t: State)
    requires OrdersInv(s) && BrokerInv(s) && InboxInv(s) && a.Apply? && Enabled(s, a) && t == Applies(s, a.tag, a.dbFails)
    ensures ReceiptsInv(t) && EffectsInv(t.effects, t.inbox.receipts.Keys)
  {
    ApplyEffect(s, a, t);
    var incoming := s.broker.unacked[a.tag].message.incoming;
    forall o | o in t.inbox.receipts
      ensures Receipted(t, o)
    {
      if o in s.inbox.receipts {
        ReceiptedStays(s, a, t, o);
      } else {
        assert t.books.announced[incoming.messageId].total == t.inbox.receipts[o].total;
      }
    }
    NewEffect(s.effects, s.inbox.receipts.Keys, Value(incoming.orderId));
    assert t.inbox.receipts.Keys == s.inbox.receipts.Keys
           || t.inbox.receipts.Keys == s.inbox.receipts.Keys + {Value(incoming.orderId)};
  }

  lemma NewEffect(effects: seq<nat>, receipts: set<nat>, o: nat)
    requires EffectsInv(effects, receipts)
    ensures o !in receipts ==> EffectsInv(effects + [o], receipts + {o})
  {
  }

  lemma ApplyKeepsProcessed(s: State, a: Action, t: State)
    requires OrdersInv(s) && BrokerInv(s) && InboxInv(s) && a.Apply? && Enabled(s, a) && t == Applies(s, a.tag, a.dbFails)
    ensures ProcessedInv(t)
  {
    ApplyEffect(s, a, t);
    assert t.books.announced == s.books.announced && s.inbox.receipts.Keys <= t.inbox.receipts.Keys;
    forall r | r in t.inbox.processed
      ensures r in t.books.announced && t.books.announced[r].orderId in t.inbox.receipts
    {
      assert r in s.inbox.processed || r == s.broker.unacked[a.tag].message.incoming.messageId;
    }
  }

  lemma ApplyKeepsHandled(s: State, a: Action, t: State)
    requires OrdersInv(s) && BrokerInv(s) && InboxInv(s) && a.Apply? && Enabled(s, a) && t == Applies(s, a.tag, a.dbFails)
    ensures HandledInv(t)
  {
    ApplyEffect(s, a, t);
    forall tag | Handled(t, tag)
      ensures t.broker.unacked[tag].message.Event? && Value(t.broker.unacked[tag].message.incoming.orderId) in t.inbox.receipts
    {
      assert tag != a.tag ==> Handled(s, tag) && t.broker.unacked[tag] == s.broker.unacked[tag];
    }
  }

  lemma OtherStepKeepsInbox(s: State, a: Action, t: State)
    requires InboxInv(s) && !a.Apply? && Enabled(s, a) && t == Next(s, a)
    ensures InboxInv(t)
  {
    assert t.inbox.(orders := s.inbox.orders) == s.inbox && t.effects == s.effects;
    forall o | o in t.inbox.receipts
      ensures Receipted(t, o)
    {
      ReceiptedStays(s, a, t, o);
    }
    forall r | r in t.inbox.processed
      ensures r in t.books.announced && t.books.announced[r].orderId in t.inbox.receipts
    {
      AnnouncedStays(s, a, t, r);
    }
    HandledStays(s, a, t);
  }

  lemma HandledBefore(s: State, a: Action, t: State, tag: nat)
    requires !a.Apply? && Enabled(s, a) && t == Next(s, a) && Handled(t, tag)
    ensures Handled(s, tag) && t.broker.unacked[tag] == s.broker.unacked[tag]
  {
  }

  lemma HandledStays(s: State, a: Action, t: State)
    requires HandledInv(s) && !a.Apply? && Enabled(s, a) && t == Next(s, a)
    ensures HandledInv(t)
  {
    ReceiptsStay(s, a, t);
    forall tag | Handled(t, tag)
      ensures Handled(s, tag) && t.broker.unacked[tag] == s.broker.unacked[tag]
    {
      HandledBefore(s, a, t, tag);
    }
  }

  lemma StepKeepsInbox(s: State, a: Action, t: State)
    requires OrdersInv(s) && BrokerInv(s) && InboxInv(s) && Enabled(s, a) && t == Next(s, a)
    ensures InboxInv(t)
  {
    if a.Apply? {
      ApplyKeepsReceipts(s, a, t);
      ApplyKeepsProcessed(s, a, t);
      ApplyKeepsHandled(s, a, t);
    } else {
      OtherStepKeepsInbox(s, a, t);
    }
  }

  // ----- runs -----

  lemma StepKeepsInv(s: State, a: Action, t: State)
    requires Inv(s) && Enabled(s, a) && t == Next(s, a)
    ensures Inv(t)
  {
    StepKeepsOrders(s, a, t);
    StepKeepsRelays(s, a, t);
    StepKeepsBroker(s, a, t);
    StepKeepsInbox(s, a, t);
  }

  lemma {:induction false} RunKeepsInv(s: State, actions: seq<Action>, t: State)
    requires Inv(s) && Executes(s, actions, t)
    ensures Inv(t)
    decreases |actions|
  {
    if actions != [] {
      StepKeepsInv(s, actions[0], Next(s, actions[0]));
      RunKeepsInv(Next(s, actions[0]), actions[1..], t);
    }
  }

  lemma ReachableInv(s: State)
    requires Reachable(s)
    ensures Inv(s)
  {
    var db, now, actions :| Starts(db) && Executes(Initial(db, now), actions, s);
    RunKeepsInv(Initial(db, now), actions, s);
  }

  // ----- results -----

  /** A row of the order is still to be published. */
  ghost predicate Pending(s: State, o: nat) {
    exists r :: r in s.books.outbox && s.books.outbox[r].event.orderId == o && s.books.outbox[r].publishedAt.None?
  }

  /** A message about the order is queued, delivered and unanswered, or dead-lettered. */
  ghost predicate OnItsWay(s: State, o: nat) {
    exists r :: r in s.books.announced && s.books.announced[r].orderId == o && Underway(s, MessageOf(r, s.books.announced[r]))
  }

  /** No event is lost, whoever crashes when: a committed order is announced, on its way, or has its receipt. */
  lemma NoEventIsLost(s: State, i: nat)
    requires Reachable(s) && i < |s.db.orders|
    ensures var o := s.db.orders[i].id;
            Pending(s, o) || OnItsWay(s, o) || o in s.inbox.receipts
  {
    ReachableInv(s);
    var o := s.db.orders[i].id;
    assert o in OrderIds(s.db.orders);
    var r :| r in s.books.announced && s.books.announced[r].orderId == o;
    if r in s.books.published {
      assert r in s.books.copies;
      assert Carried(s, r);
    } else {
      assert r in s.books.outbox;
      assert RowInv(s.books, r);
    }
  }

  /** The effect happens at most once per order, and a receipt exists exactly where it happened. */
  lemma EffectHappensOnce(s: State, i: nat, j: nat)
    requires Reachable(s)
    ensures i < |s.effects| && j < |s.effects| && s.effects[i] == s.effects[j] ==> i == j
    ensures forall o :: o in s.effects <==> o in s.inbox.receipts
  {
    ReachableInv(s);
  }

  /** The result of handling a delivered event: it fails only with the database, and any other result is a receipt. */
  lemma HandledEventsHaveReceipts(s: State, tag: nat, dbFails: bool)
    requires Reachable(s) && Enabled(s, Apply(tag, dbFails))
    ensures var incoming := s.broker.unacked[tag].message.incoming;
            var result, inbox := ResultOf(s.inbox, incoming, dbFails), InboxAfter(s.inbox, incoming, dbFails);
            && (result.Failed? <==> dbFails)
            && (result.Duplicate? || result.AlreadyApplied? ==> Value(incoming.orderId) in s.inbox.receipts)
            && (result.Applied? ==> Value(incoming.orderId) !in s.inbox.receipts)
            && (!result.Failed? ==> Value(incoming.orderId) in inbox.receipts)
  {
    ReachableInv(s);
    DeliveredIsReceipted(s, tag, dbFails);
    DeliveredNeverViolates(s, tag);
    ResultMeansReceipt(s.inbox, s.broker.unacked[tag].message.incoming, dbFails);
  }

  lemma DeliveredNeverViolates(s: State, tag: nat)
    requires OrdersInv(s) && BrokerInv(s) && InboxInv(s) && tag in s.broker.unacked && s.broker.unacked[tag].message.Event?
    ensures !Violates(s.inbox, s.broker.unacked[tag].message.incoming)
  {
    assert Underway(s, s.broker.unacked[tag].message);
    GenuineNeverViolates(s, s.broker.unacked[tag].message);
  }

  lemma ResultMeansReceipt(inbox: Inbox<nat>, incoming: Incoming<nat>, dbFails: bool)
    requires !Violates(inbox, incoming)
    ensures var result, after := ResultOf(inbox, incoming, dbFails), InboxAfter(inbox, incoming, dbFails);
            && (result.Failed? <==> dbFails)
            && (result.AlreadyApplied? ==> Value(incoming.orderId) in inbox.receipts)
            && (result.Applied? ==> Value(incoming.orderId) !in inbox.receipts)
            && (result.Applied? ==> Value(incoming.orderId) in after.receipts)
            && inbox.receipts.Keys <= after.receipts.Keys
  {
  }

  lemma DeliveredIsReceipted(s: State, tag: nat, dbFails: bool)
    requires OrdersInv(s) && BrokerInv(s) && ProcessedInv(s) && Enabled(s, Apply(tag, dbFails))
    ensures var incoming := s.broker.unacked[tag].message.incoming;
            ResultOf(s.inbox, incoming, dbFails).Duplicate? ==> Value(incoming.orderId) in s.inbox.receipts
  {
    var message := s.broker.unacked[tag].message;
    assert Underway(s, message);
    ReceiptOfGenuine(s, message);
  }

  /** A receipt is for an order, and its total is the price of the order's items. */
  lemma ReceiptStatesTheTotal(s: State, o: nat)
    requires Reachable(s) && o in s.inbox.receipts
    ensures exists i :: 0 <= i < |s.db.orders| && s.db.orders[i].id == o
              && s.inbox.receipts[o].total == s.db.orders[i].total == Total(s.db.orders[i].items)
  {
    ReachableInv(s);
    assert Receipted(s, o);
    var r :| r in s.books.announced && s.books.announced[r].orderId == o && s.books.announced[r].total == s.inbox.receipts[o].total;
    assert Announces(s.db.orders, s.books.announced[r]);
  }

  /** Once nothing is pending, on its way or dead-lettered, the receipts are exactly the orders. */
  lemma SettledPipelineHasAllReceipts(s: State)
    requires Reachable(s) && forall o :: !Pending(s, o) && !OnItsWay(s, o)
    ensures s.inbox.receipts.Keys == OrderIds(s.db.orders)
  {
    forall o | o in OrderIds(s.db.orders)
      ensures o in s.inbox.receipts
    {
      var i :| 0 <= i < |s.db.orders| && s.db.orders[i].id == o;
      NoEventIsLost(s, i);
    }
    forall o | o in s.inbox.receipts
      ensures o in OrderIds(s.db.orders)
    {
      ReceiptStatesTheTotal(s, o);
    }
  }

  /**
   The books of a row. Every copy sent is the one that was marked, was lost with its transaction, or was misreported as
   unroutable, unless it is about to be one of these; every attempt is the one marked or a return; and copies are
   misreported only if an unconfirmed bounce of the same message has left its id with a publisher.
   */
  lemma RelayAccounting(s: State, r: nat)
    requires Reachable(s) && r in s.books.announced
    ensures var marked := if r in s.books.published then 1 else 0;
            && s.books.copies[r] == marked + s.books.lost[r] + s.books.misreported[r] + (if HoldsSent(s.books, r) then 1 else 0)
            && (r in s.books.outbox ==>
                  s.books.outbox[r].attempts == marked + s.books.unrouted[r] && s.books.outbox[r].attempts <= OutboxRelay.RELAY_MAX_ATTEMPTS)
            && (r !in s.books.outbox ==> marked == 1)
            && s.books.misreported[r] <= s.books.unrouted[r]
            && (r !in s.books.leftBehind ==> s.books.misreported[r] == 0)
  {
    ReachableInv(s);
    assert CopiesBalance(s.books, r);
    assert r in s.books.outbox ==> RowInv(s.books, r);
  }

  lemma {:induction false} RunGoesOn(s: State, actions: seq<Action>, t: State, a: Action)
    requires Executes(s, actions, t) && Enabled(t, a)
    ensures Executes(s, actions + [a], Next(t, a))
    decreases |actions|
  {
    if actions == [] {
      assert [a][1..] == [] && Executes(Next(t, a), [], Next(t, a));
    } else {
      RunGoesOn(Next(s, actions[0]), actions[1..], t, a);
      assert (actions + [a])[1..] == actions[1..] + [a];
    }
  }

  lemma OneStepIsARun(s: State, a: Action)
    requires Enabled(s, a)
    ensures Executes(s, [a], Next(s, a))
  {
    assert [a][1..] == [] && Executes(Next(s, a), [], Next(s, a));
  }

  lemma {:induction false} RunsCompose(s: State, first: seq<Action>, t: State, second: seq<Action>, u: State)
    requires Executes(s, first, t) && Executes(t, second, u)
    ensures Executes(s, first + second, u)
    decreases |first|
  {
    if first == [] {
      assert first + second == second;
    } else {
      RunsCompose(Next(s, first[0]), first[1..], t, second, u);
      assert (first + second)[1..] == first[1..] + second;
    }
  }

  lemma NextIsReachable(s: State, a: Action)
    requires Reachable(s) && Enabled(s, a)
    ensures Reachable(Next(s, a))
  {
    var db, now, actions :| Starts(db) && Executes(Initial(db, now), actions, s);
    RunGoesOn(Initial(db, now), actions, s, a);
  }

  /** An idle relay locks the row and meets with an unconfirmed bounce, which leaves the id behind. */
  lemma BounceLeavesIdBehind(s: State, relay: nat, row: nat) returns (t: State)
    requires Reachable(s) && Enabled(s, Select(relay, row))
    ensures Reachable(t) && Enabled(t, Select(relay, row)) && row in Remembered(t.books, relay)
    ensures t.books.copies == s.books.copies && t.books.lost == s.books.lost && t.books.published == s.books.published
    ensures t.books.misreported == s.books.misreported && t.books.announced == s.books.announced
  {
    var selected := Next(s, Select(relay, row));
    NextIsReachable(s, Select(relay, row));
    var a := Publish(relay, Unconfirmed(false, true));
    assert Enabled(selected, a);
    t := Next(selected, a);
    NextIsReachable(selected, a);
    assert t.books.relays == s.books.relays;
    assert IsLocked(t.books, row) <==> IsLocked(s.books, row);
  }

  lemma ReachableByThree(s: State, a: Action, d: Action, e: Action)
    requires Reachable(s) && Enabled(s, a) && Enabled(Next(s, a), d) && Enabled(Next(Next(s, a), d), e)
    ensures Reachable(Next(Next(Next(s, a), d), e))
  {
    NextIsReachable(s, a);
    NextIsReachable(Next(s, a), d);
    NextIsReachable(Next(Next(s, a), d), e);
  }

  /** The next publish of that row arrives and is counted as a return. */
  lemma LeftoverMisreports(s: State, relay: nat, row: nat) returns (t: State)
    requires Reachable(s) && Enabled(s, Select(relay, row)) && row in Remembered(s.books, relay)
    ensures Reachable(t) && t.books.copies == s.books.copies + multiset{row} && t.books.lost == s.books.lost
    ensures t.books.published == s.books.published && t.books.misreported == s.books.misreported + multiset{row}
    ensures t.books.announced == s.books.announced && t.books.relays == s.books.relays
  {
    LeftoverIsCountedAsReturn(s.books, relay, row);
    ReachableByThree(s, Select(relay, row), Publish(relay, Accepted), CountReturn(relay));
    t := Next(Next(Next(s, Select(relay, row)), Publish(relay, Accepted)), CountReturn(relay));
  }

  /**
   Copies need not be marked, lost or about to be: a host that lets a process go on after an exception of its batch may,
   wherever that process may try a row, come to a copy that is none of these, sent and counted as a return.
   */
  lemma CopyMayBeMisreported(s: State, relay: nat, row: nat) returns (t: State)
    requires Reachable(s) && Enabled(s, Select(relay, row)) && row in s.books.announced
    ensures Reachable(t) && row in t.books.announced && !HoldsSent(t.books, row)
    ensures t.books.copies[row] > (if row in t.books.published then 1 else 0) + t.books.lost[row]
  {
    var left := BounceLeavesIdBehind(s, relay, row);
    t := LeftoverMisreports(left, relay, row);
    RelayAccounting(t, row);
    assert !IsLocked(left.books, row);
  }

  lemma PlacedOrderLeavesRow(s: State, a: Action)
    requires Enabled(s, a) && a.Commit? && s.books.relays == map[]
    requires Outcome(s.db, a.input, a.orderId, a.moment).Placed?
    ensures a.rowId in Next(s, a).books.announced && Enabled(Next(s, a), Select(0, a.rowId))
  {
  }

  /** Two relays never work on the same row. */
  lemma RelaysWorkOnDifferentRows(s: State, p: nat, q: nat)
    requires Reachable(s) && p in s.books.relays && q in s.books.relays && p != q
    ensures s.books.relays[p].row != s.books.relays[q].row
  {
    ReachableInv(s);
  }

  /** What a relay sends is what the consumer reads: every announced event passes `ParseMessage`, reordered or not. */
  lemma AnnouncedEventsParse(s: State, r: nat, occurredAt: Text, messageId: Text, sent: Json)
    requires Reachable(s) && r in s.books.announced && IsUuid(messageId)
    requires Same(sent, ToOrderPlacedEvent(s.books.announced[r], occurredAt))
    ensures var incoming := MessageOf(r, s.books.announced[r]).incoming;
            ParseMessage(Some(messageId), Some(sent))
            == Some(Incoming(messageId, incoming.eventId, incoming.orderId, incoming.total))
  {
    ReachableInv(s);
    AnnouncementsParse(s.books.announced[r], occurredAt, messageId, sent);
  }

  lemma {:induction false} AnnouncedStaysForever(s: State, actions: seq<Action>, t: State, r: nat)
    requires Executes(s, actions, t) && r in s.books.announced
    ensures r in t.books.announced && t.books.announced[r] == s.books.announced[r]
    decreases |actions|
  {
    if actions != [] {
      AnnouncedStays(s, actions[0], Next(s, actions[0]), r);
      AnnouncedStaysForever(Next(s, actions[0]), actions[1..], t, r);
    }
  }

  lemma CommitAnnouncesTheOrder(s: State, a: Action) returns (items: seq<Item>)
    requires Enabled(s, a) && a.Commit? && Outcome(s.db, a.input, a.orderId, a.moment).Placed?
    ensures var cost := Cost(s.db.products, a.input.items);
            && a.rowId in Next(s, a).books.announced
            && Next(s, a).books.announced[a.rowId] == Announcement(a.rowId, a.orderId, a.input.userId, cost, items)
            && Total(items) == cost
    ensures (forall p :: Quantity(items, p) == Demand(a.input.items, p)) && AtPrices(s.db.products, items)
  {
    CheckoutIsExact(s.db, a.input, a.orderId, a.rowId, a.moment);
    items := Take(s.db.products, SortedLines(a.input.items)).priced;
    var after := After(s.db, a.input, a.orderId, a.rowId, a.moment);
    var recorded :| Records(s.db, after, a.input, a.orderId, a.rowId, a.moment, recorded);
    assert after.orders[|s.db.orders|].items == items;
  }

  /**
   What a relay ever sends of a checkout states that checkout: its user and its cost, and items that hold what its lines
   asked for, product by product, at the prices of that moment.
   */
  lemma SentEventStatesTheCheckout(s: State, a: Action, actions: seq<Action>, t: State, occurredAt: Text, sent: Json)
    returns (items: seq<Item>)
    requires Enabled(s, a) && a.Commit? && Outcome(s.db, a.input, a.orderId, a.moment).Placed?
    requires Executes(Next(s, a), actions, t) && a.rowId in t.books.announced
    requires Same(sent, ToOrderPlacedEvent(t.books.announced[a.rowId], occurredAt))
    ensures StatesOrder(sent, a.orderId, a.input.userId, Cost(s.db.products, a.input.items), items, occurredAt)
    ensures Total(items) == Cost(s.db.products, a.input.items) && AtPrices(s.db.products, items)
    ensures forall p :: Quantity(items, p) == Demand(a.input.items, p)
  {
    items := CommitAnnouncesTheOrder(s, a);
    AnnouncedStaysForever(Next(s, a), actions, t, a.rowId);
    EventStatesTheOrder(t.books.announced[a.rowId], occurredAt, sent);
  }
}
