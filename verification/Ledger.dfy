/** What checkouts, committed or rolled back, keep: when they succeed, what they take, and that nothing is lost. */
module Ledger {
  import opened Options
  import opened Sorting
  import opened Sums
  import opened Text
  import opened Checkout

  // ----- what a list of lines asks for -----

  function LineDemand(p: nat): Line -> int {
    (line: Line) => if Value(line.productId) == p then line.quantity else 0
  }

  /** How much of a product the lines ask for together. */
  function Demand(lines: seq<Line>, p: nat): int {
    SumBy(LineDemand(p), lines)
  }

  function LineCost(products: map<nat, Product>): Line -> int {
    (line: Line) =>
      if Value(line.productId) in products then line.quantity * products[Value(line.productId)].price else 0
  }

  function Cost(products: map<nat, Product>, lines: seq<Line>): int {
    SumBy(LineCost(products), lines)
  }

  function ItemQuantity(p: nat): Item -> int {
    (item: Item) => if item.productId == p then item.quantity else 0
  }

  function Quantity(items: seq<Item>, p: nat): int {
    SumBy(ItemQuantity(p), items)
  }

  predicate Orderable(products: map<nat, Product>, line: Line) {
    line.quantity <= MAX_INTEGER && Value(line.productId) <= MAX_BIGINT && Value(line.productId) in products
  }

  /** The stock covers all lines together, however the lines split the demand for one product. */
  ghost predicate Servable(products: map<nat, Product>, lines: seq<Line>) {
    && (forall line | line in lines :: Orderable(products, line))
    && (forall line | line in lines ::
          Demand(lines, Value(line.productId)) <= products[Value(line.productId)].stock)
  }

  ghost predicate PositiveQuantities(lines: seq<Line>) {
    forall line | line in lines :: line.quantity > 0
  }

  /** What the line-by-line updates have done once all went through. */
  ghost predicate TookAll(products: map<nat, Product>, lines: seq<Line>, taken: Taken) {
    && taken.Taken?
    && taken.products.Keys == products.Keys
    && (forall p | p in products ::
          taken.products[p] == products[p].(stock := products[p].stock - Demand(lines, p)))
    && |taken.priced| == |lines|
    && (forall i | 0 <= i < |lines| ::
          Orderable(products, lines[i]) && taken.priced[i] == Priced(products, lines[i]))
  }

  lemma ServablePrefix(products: map<nat, Product>, lines: seq<Line>, line: Line)
    requires PositiveQuantities(lines + [line])
    ensures Servable(products, lines + [line]) <==>
              Servable(products, lines) && Orderable(products, line)
              && Demand(lines, Value(line.productId)) + line.quantity <= products[Value(line.productId)].stock
  {
    var all := lines + [line];
    forall p: nat
      ensures Demand(all, p) == Demand(lines, p) + if Value(line.productId) == p then line.quantity else 0
    {
      SumAddLast(LineDemand(p), lines, line);
    }
    assert line in all;
    assert forall l | l in all :: l in lines || l == line;
    assert forall l | l in lines :: l in all;
  }

  /** The updates go through exactly when the stock covers the demand, and then take exactly the demand. */
  lemma {:induction false} TakeIsExact(products: map<nat, Product>, lines: seq<Line>)
    requires PositiveQuantities(lines)
    ensures Take(products, lines).Taken? <==> Servable(products, lines)
    ensures Take(products, lines).Taken? ==> TookAll(products, lines, Take(products, lines))
  {
    if lines != [] {
      var front, line := lines[..|lines| - 1], lines[|lines| - 1];
      assert lines == front + [line];
      TakeIsExact(products, front);
      ServablePrefix(products, front, line);
      if Take(products, front).Taken? {
        TakeOneMore(products, front, line);
      }
    }
  }

  lemma TakeNext(products: map<nat, Product>, front: seq<Line>, line: Line)
    requires Take(products, front).Taken?
    ensures var before := Take(products, front);
            Take(products, front + [line]) ==
              match LineFailure(before.products, line)
              case Some(reason) => Short(reason)
              case None => Taken(StockAfter(before.products, line), before.priced + [Priced(before.products, line)])
  {
    assert (front + [line])[..|front|] == front;
  }

  lemma DemandNext(front: seq<Line>, line: Line)
    ensures forall p: nat ::
              Demand(front + [line], p) == Demand(front, p) + if Value(line.productId) == p then line.quantity else 0
  {
    forall p: nat
      ensures Demand(front + [line], p) == Demand(front, p) + if Value(line.productId) == p then line.quantity else 0
    {
      SumAddLast(LineDemand(p), front, line);
    }
  }

  ghost predicate LineFits(products: map<nat, Product>, front: seq<Line>, line: Line) {
    Orderable(products, line)
    && Demand(front, Value(line.productId)) + line.quantity <= products[Value(line.productId)].stock
  }

  lemma LineFitsIffServed(products: map<nat, Product>, front: seq<Line>, line: Line, before: Taken)
    requires TookAll(products, front, before)
    ensures LineFailure(before.products, line).None? <==> LineFits(products, front, line)
  {
  }

  lemma TookOneMore(products: map<nat, Product>, front: seq<Line>, line: Line, before: Taken)
    requires TookAll(products, front, before) && LineFits(products, front, line)
    ensures Value(line.productId) in before.products
    ensures TookAll(products, front + [line],
                    Taken(StockAfter(before.products, line), before.priced + [Priced(before.products, line)]))
  {
    DemandNext(front, line);
    var after := StockAfter(before.products, line);
    assert after.Keys == before.products.Keys;
    assert before.products[Value(line.productId)].price == products[Value(line.productId)].price;
  }

  lemma TakeOneMore(products: map<nat, Product>, front: seq<Line>, line: Line)
    requires TookAll(products, front, Take(products, front))
    ensures Take(products, front + [line]).Taken? <==> LineFits(products, front, line)
    ensures LineFits(products, front, line) ==> TookAll(products, front + [line], Take(products, front + [line]))
  {
    TakeNext(products, front, line);
    LineFitsIffServed(products, front, line, Take(products, front));
    if LineFits(products, front, line) {
      TookOneMore(products, front, line, Take(products, front));
    }
  }

  lemma DemandRearranged(xs: seq<Line>, ys: seq<Line>)
    requires multiset(xs) == multiset(ys)
    ensures forall p :: Demand(xs, p) == Demand(ys, p)
    ensures forall products :: Cost(products, xs) == Cost(products, ys)
    ensures PositiveQuantities(xs) <==> PositiveQuantities(ys)
    ensures forall products :: Servable(products, xs) <==> Servable(products, ys)
  {
    SameElements(xs, ys);
    forall p: nat
      ensures Demand(xs, p) == Demand(ys, p)
    {
      SumRearranged(LineDemand(p), xs, ys);
    }
    forall products
      ensures Cost(products, xs) == Cost(products, ys)
    {
      SumRearranged(LineCost(products), xs, ys);
    }
  }

  /** The total charged is the cost of the lines at the prices before the checkout. */
  lemma TotalIsCost(products: map<nat, Product>, lines: seq<Line>, taken: Taken)
    requires TookAll(products, lines, taken)
    ensures Total(taken.priced) == Cost(products, lines)
    ensures forall p :: Quantity(taken.priced, p) == Demand(lines, p)
  {
    SumSame(ItemCost, taken.priced, LineCost(products), lines);
    forall p: nat
      ensures Quantity(taken.priced, p) == Demand(lines, p)
    {
      SumSame(ItemQuantity(p), taken.priced, LineDemand(p), lines);
    }
  }

  /** Exactly when a checkout is placed. */
  ghost predicate Placeable(db: Db, input: Input, moment: Moment) {
    && input.items != [] && PositiveQuantities(input.items)
    && Servable(db.products, input.items)
    && Cost(db.products, input.items) <= MAX_INTEGER
    && input.userId in db.users && Cost(db.products, input.items) <= db.users[input.userId]
    && !KeyTaken(db.orders, input.userId, input.key)
    && !MomentTaken(db.orders, input.userId, moment.at)
    && !moment.interrupted
  }

  lemma PositiveUnlessLinesFail(items: seq<Line>)
    ensures LinesFailure(items).None? <==> items != [] && PositiveQuantities(items)
  {
    if PositiveQuantities(items) {
      assert forall i | 0 <= i < |items| :: items[i] in items;
    }
  }

  /** The database after a placed checkout: the demand is taken, the cost is charged, and both are on record. */
  ghost predicate Records(db: Db, after: Db, input: Input, orderId: nat, rowId: nat, moment: Moment, items: seq<Item>) {
    var cost := Cost(db.products, input.items);
    && input.userId in db.users && after.users == db.users[input.userId := db.users[input.userId] - cost]
    && after.products.Keys == db.products.Keys
    && (forall p | p in db.products ::
          after.products[p] == db.products[p].(stock := db.products[p].stock - Demand(input.items, p)))
    && after.orders == db.orders + [Order(orderId, input.userId, Paid, cost, input.key, moment.at, items)]
    && after.outbox == db.outbox + [Announcement(rowId, orderId, input.userId, cost, items)]
    && after.jobs == db.jobs + [orderId]
    && Total(items) == cost && (forall p :: Quantity(items, p) == Demand(input.items, p))
    && AtPrices(db.products, items)
  }

  /** Each item states the price that its product had. */
  ghost predicate AtPrices(products: map<nat, Product>, items: seq<Item>) {
    forall i | 0 <= i < |items| :: items[i].productId in products && items[i].unitPrice == products[items[i].productId].price
  }

  lemma TookAllAtPrices(products: map<nat, Product>, lines: seq<Line>, taken: Taken)
    requires TookAll(products, lines, taken)
    ensures AtPrices(products, taken.priced)
  {
  }

  lemma TakenIsRecorded(db: Db, input: Input, orderId: nat, rowId: nat, moment: Moment, taken: Taken)
    requires Placeable(db, input, moment) && TookAll(db.products, SortedLines(input.items), taken)
    requires taken == Take(db.products, SortedLines(input.items))
    ensures Records(db, After(db, input, orderId, rowId, moment), input, orderId, rowId, moment, taken.priced)
  {
    var lines := SortedLines(input.items);
    PositiveUnlessLinesFail(input.items);
    DemandRearranged(lines, input.items);
    TotalIsCost(db.products, lines, taken);
    TookAllAtPrices(db.products, lines, taken);
  }

  /**
   A checkout is placed exactly when stock, balance and indexes allow it, in whatever order its lines come; otherwise
   nothing changes.
   */
  lemma CheckoutIsExact(db: Db, input: Input, orderId: nat, rowId: nat, moment: Moment)
    ensures Outcome(db, input, orderId, moment).Placed? <==> Placeable(db, input, moment)
    ensures Placeable(db, input, moment) ==>
              Outcome(db, input, orderId, moment) == Placed(orderId, Cost(db.products, input.items))
              && exists items :: Records(db, After(db, input, orderId, rowId, moment), input, orderId, rowId, moment, items)
    ensures !Placeable(db, input, moment) ==> After(db, input, orderId, rowId, moment) == db
  {
    PositiveUnlessLinesFail(input.items);
    if LinesFailure(input.items).None? {
      var lines := SortedLines(input.items);
      DemandRearranged(lines, input.items);
      TakeIsExact(db.products, lines);
      var taken := Take(db.products, lines);
      if taken.Taken? {
        TotalIsCost(db.products, lines, taken);
        if Placeable(db, input, moment) {
          TakenIsRecorded(db, input, orderId, rowId, moment, taken);
        }
      }
    }
  }

  /** A line that stops the updates is at fault: its product is missing, or the lines ask for more than there is. */
  ghost predicate Blames(products: map<nat, Product>, lines: seq<Line>, reason: Failure) {
    match reason
    case ProductNotFound(id) =>
      Value(id) !in products && exists line :: line in lines && line.productId == id
    case OutOfStock(id) => Value(id) in products && Demand(lines, Value(id)) > products[Value(id)].stock
    case NumberOutOfRange =>
      exists line :: line in lines && (line.quantity > MAX_INTEGER || Value(line.productId) > MAX_BIGINT)
    case _ => false
  }

  lemma BlameStays(products: map<nat, Product>, front: seq<Line>, line: Line, reason: Failure)
    requires PositiveQuantities(front + [line]) && Blames(products, front, reason)
    ensures Blames(products, front + [line], reason)
  {
    assert line in front + [line];
    assert forall l | l in front :: l in front + [line];
    if reason.OutOfStock? {
      SumAddLast(LineDemand(Value(reason.productId)), front, line);
    }
  }

  lemma ShortLineIsToBlame(products: map<nat, Product>, front: seq<Line>, line: Line, taken: Taken)
    requires TookAll(products, front, taken) && LineFailure(taken.products, line).Some?
    ensures Blames(products, front + [line], LineFailure(taken.products, line).value)
  {
    var all, p := front + [line], Value(line.productId);
    assert line in all;
    if line.quantity <= MAX_INTEGER && p <= MAX_BIGINT {
      assert p in taken.products <==> p in products;
      if p in products {
        SumAddLast(LineDemand(p), front, line);
        assert LineDemand(p)(line) == line.quantity;
        assert Demand(all, p) > products[p].stock;
      }
    }
  }

  lemma {:induction false} TakeBlamesTruly(products: map<nat, Product>, lines: seq<Line>)
    requires PositiveQuantities(lines) && Take(products, lines).Short?
    ensures Blames(products, lines, Take(products, lines).reason)
  {
    var front, line := lines[..|lines| - 1], lines[|lines| - 1];
    assert lines == front + [line];
    if Take(products, front).Short? {
      TakeBlamesTruly(products, front);
      BlameStays(products, front, line, Take(products, front).reason);
    } else {
      TakeIsExact(products, front);
      ShortLineIsToBlame(products, front, line, Take(products, front));
    }
  }

  /** The reason given for a refusal is the case. */
  ghost predicate Truthful(db: Db, input: Input, moment: Moment, reason: Failure) {
    var cost := Cost(db.products, input.items);
    match reason
    case EmptyItems => input.items == []
    case BadQuantity => !PositiveQuantities(input.items)
    case UserNotFound => input.userId !in db.users
    case InsufficientFunds => input.userId in db.users && db.users[input.userId] < cost
    case CreatedAtConflict => MomentTaken(db.orders, input.userId, moment.at) && Servable(db.products, input.items)
    case KeyConflict => KeyTaken(db.orders, input.userId, input.key) && Servable(db.products, input.items)
    case Interrupted => moment.interrupted
    case _ => Blames(db.products, input.items, reason) || (reason.NumberOutOfRange? && cost > MAX_INTEGER)
  }

  lemma RefusalIsTruthful(db: Db, input: Input, orderId: nat, moment: Moment)
    requires Outcome(db, input, orderId, moment).Refused?
    ensures Truthful(db, input, moment, Outcome(db, input, orderId, moment).reason)
  {
    PositiveUnlessLinesFail(input.items);
    if LinesFailure(input.items).None? {
      var lines := SortedLines(input.items);
      DemandRearranged(lines, input.items);
      SameElements(lines, input.items);
      TakeIsExact(db.products, lines);
      var taken := Take(db.products, lines);
      if taken.Taken? {
        TotalIsCost(db.products, lines, taken);
      } else {
        TakeBlamesTruly(db.products, lines);
      }
    }
  }

  // ----- conservation -----

  function OrderQuantity(p: nat): Order -> int {
    (order: Order) => Quantity(order.items, p)
  }

  /** How much of a product all orders together hold. */
  function Sold(orders: seq<Order>, p: nat): int {
    SumBy(OrderQuantity(p), orders)
  }

  function OrderCharge(u: nat): Order -> int {
    (order: Order) => if order.userId == u then order.total else 0
  }

  function Charged(orders: seq<Order>, u: nat): int {
    SumBy(OrderCharge(u), orders)
  }

  datatype Operation =
    | Buy(input: Input, orderId: nat, rowId: nat, moment: Moment)
    | SetStatus(changedId: nat, status: Status)

  function Applied(db: Db, op: Operation): Db {
    match op
    case Buy(input, orderId, rowId, moment) => After(db, input, orderId, rowId, moment)
    case SetStatus(orderId, status) => StatusAfter(db, orderId, status)
  }

  function AppliedAll(db: Db, ops: seq<Operation>): Db {
    if ops == [] then db else Applied(AppliedAll(db, ops[..|ops| - 1]), ops[|ops| - 1])
  }

  /** A status change gives the order with the id the status asked for, if it may take it, and touches nothing else. */
  lemma StatusChangeIsExact(db: Db, orderId: nat, status: Status, i: nat)
    requires i < |db.orders|
    ensures StatusAfter(db, orderId, status).(orders := db.orders) == db
    ensures |StatusAfter(db, orderId, status).orders| == |db.orders|
    ensures var order := db.orders[i];
            StatusAfter(db, orderId, status).orders[i] ==
              if order.id == orderId && MayBecome(order.status, status) then order.(status := status) else order
  {
  }

  /**
   Orders stay: over any run of checkouts and status changes an order keeps its place, and everything but its status, and
   one that is cancelled stays cancelled.
   */
  lemma {:induction false} OrdersStay(db: Db, ops: seq<Operation>, i: nat)
    requires i < |db.orders|
    ensures i < |AppliedAll(db, ops).orders|
    ensures AppliedAll(db, ops).orders[i].(status := db.orders[i].status) == db.orders[i]
    ensures db.orders[i].status.Cancelled? ==> AppliedAll(db, ops).orders[i].status.Cancelled?
  {
    if ops != [] {
      var front, op := ops[..|ops| - 1], ops[|ops| - 1];
      OrdersStay(db, front, i);
      var before := AppliedAll(db, front);
      match op
      case Buy(_, _, _, _) =>
      case SetStatus(orderId, status) => StatusChangeIsExact(before, orderId, status, i);
    }
  }

  /** Nothing is negative, and every order charges what its items cost. */
  ghost predicate Sound(db: Db) {
    && (forall p | p in db.products :: db.products[p].stock >= 0)
    && (forall u | u in db.users :: db.users[u] >= 0)
    && (forall i | 0 <= i < |db.orders| :: db.orders[i].total == Total(db.orders[i].items))
  }

  ghost predicate Conserves(before: Db, after: Db) {
    && after.products.Keys == before.products.Keys && after.users.Keys == before.users.Keys
    && (forall p | p in before.products ::
          after.products[p].price == before.products[p].price
          && after.products[p].stock + Sold(after.orders, p) == before.products[p].stock + Sold(before.orders, p))
    && (forall u | u in before.users ::
          after.users[u] + Charged(after.orders, u) == before.users[u] + Charged(before.orders, u))
  }

  lemma BuyConserves(db: Db, input: Input, orderId: nat, rowId: nat, moment: Moment)
    requires Sound(db)
    ensures Sound(After(db, input, orderId, rowId, moment))
    ensures Conserves(db, After(db, input, orderId, rowId, moment))
  {
    CheckoutIsExact(db, input, orderId, rowId, moment);
    var after := After(db, input, orderId, rowId, moment);
    if Placeable(db, input, moment) {
      var items :| Records(db, after, input, orderId, rowId, moment, items);
      PlacementConserves(db, after, input, orderId, rowId, moment, items);
    }
  }

  lemma PlacementConserves(db: Db, after: Db, input: Input, orderId: nat, rowId: nat, moment: Moment, items: seq<Item>)
    requires Sound(db) && Placeable(db, input, moment) && Records(db, after, input, orderId, rowId, moment, items)
    ensures Sound(after) && Conserves(db, after)
  {
    var order := Order(orderId, input.userId, Paid, Cost(db.products, input.items), input.key, moment.at, items);
    NewOrderIsBalanced(db, after, input, order);
    StockStaysCovered(db, input.items);
    NewOrderIsSound(db, after, input, order);
  }

  lemma NewOrderIsSound(db: Db, after: Db, input: Input, order: Order)
    requires Sound(db) && after.orders == db.orders + [order] && order.total == Total(order.items)
    requires input.userId in db.users && order.total <= db.users[input.userId]
    requires after.users == db.users[input.userId := db.users[input.userId] - order.total]
    requires after.products.Keys == db.products.Keys
    requires forall p | p in db.products ::
               Demand(input.items, p) <= db.products[p].stock
               && after.products[p] == db.products[p].(stock := db.products[p].stock - Demand(input.items, p))
    ensures Sound(after)
  {
  }

  lemma NewOrderIsBalanced(db: Db, after: Db, input: Input, order: Order)
    requires after.orders == db.orders + [order] && order.userId == input.userId && input.userId in db.users
    requires after.users == db.users[input.userId := db.users[input.userId] - order.total]
    requires after.products.Keys == db.products.Keys
    requires forall p | p in db.products ::
               after.products[p] == db.products[p].(stock := db.products[p].stock - Quantity(order.items, p))
    ensures Conserves(db, after)
  {
    forall p | p in db.products
      ensures Sold(after.orders, p) == Sold(db.orders, p) + Quantity(order.items, p)
    {
      SumAddLast(OrderQuantity(p), db.orders, order);
    }
    forall u | u in db.users
      ensures Charged(after.orders, u) == Charged(db.orders, u) + if order.userId == u then order.total else 0
    {
      SumAddLast(OrderCharge(u), db.orders, order);
    }
  }

  /** Products that nobody asked for keep their stock, the others have enough. */
  lemma StockStaysCovered(db: Db, lines: seq<Line>)
    requires Sound(db) && PositiveQuantities(lines) && Servable(db.products, lines)
    ensures forall p | p in db.products :: Demand(lines, p) <= db.products[p].stock
  {
    forall p | p in db.products
      ensures Demand(lines, p) <= db.products[p].stock
    {
      if forall line | line in lines :: Value(line.productId) != p {
        SumSame(LineDemand(p), lines, LineDemand(p), lines);
        NoDemand(lines, p);
      }
    }
  }

  lemma {:induction false} NoDemand(lines: seq<Line>, p: nat)
    requires forall line | line in lines :: Value(line.productId) != p
    ensures Demand(lines, p) == 0
  {
    if lines != [] {
      NoDemand(lines[..|lines| - 1], p);
    }
  }

  lemma StatusConserves(db: Db, orderId: nat, status: Status)
    requires Sound(db)
    ensures Sound(StatusAfter(db, orderId, status))
    ensures Conserves(db, StatusAfter(db, orderId, status))
  {
    var after := StatusAfter(db, orderId, status);
    forall p: nat
      ensures Sold(after.orders, p) == Sold(db.orders, p)
    {
      SumSame(OrderQuantity(p), after.orders, OrderQuantity(p), db.orders);
    }
    forall u: nat
      ensures Charged(after.orders, u) == Charged(db.orders, u)
    {
      SumSame(OrderCharge(u), after.orders, OrderCharge(u), db.orders);
    }
  }

  /**
   Over any run of checkouts and status changes, stock plus what the orders hold, and balance plus what the orders
   charge, are what they were, and neither stock nor balance is ever negative.
   */
  lemma {:induction false} NothingIsLost(db: Db, ops: seq<Operation>)
    requires Sound(db)
    ensures Sound(AppliedAll(db, ops)) && Conserves(db, AppliedAll(db, ops))
  {
    if ops != [] {
      var front, op := ops[..|ops| - 1], ops[|ops| - 1];
      NothingIsLost(db, front);
      var before := AppliedAll(db, front);
      match op
      case Buy(input, orderId, rowId, moment) => BuyConserves(before, input, orderId, rowId, moment);
      case SetStatus(orderId, status) => StatusConserves(before, orderId, status);
    }
  }
}
