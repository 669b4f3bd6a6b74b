/**
 Checkout: one transaction that takes stock for every line, charges the user, and writes the order, its items, a
 job and the outbox row. A failure at any point leaves the database as it was.
 */
module Checkout {
  import opened Options
  import opened Sorting
  import opened Sums
  import opened Text

  const MAX_INTEGER: int := 0x7FFF_FFFF
  const MAX_BIGINT: int := 0x7FFF_FFFF_FFFF_FFFF

  /** A product id as requests carry it. */
  type Id = t: Text | IsNumeral(t) witness [ZERO]

  datatype Line = Line(productId: Id, quantity: int)

  /** A line as it arrives, with a number for its quantity. */
  datatype RequestLine = RequestLine(productId: Id, quantity: real)

  datatype Product = Product(price: int, stock: int)

  datatype Item = Item(productId: nat, quantity: int, unitPrice: int)

  datatype Status = Pending | Paid | Cancelled

  datatype Order = Order(id: nat, userId: nat, status: Status, total: int, key: Option<Text>, createdAt: int, items: seq<Item>)

  /** A row of `outbox` as checkout inserts it: the id and the order it announces. */
  datatype Announcement = Announcement(rowId: nat, orderId: nat, userId: nat, total: int, items: seq<Item>)

  /** Orders, jobs and announcements in the order in which they were committed. */
  datatype Db = Db(
    products: map<nat, Product>,
    users: map<nat, int>,
    orders: seq<Order>,
    jobs: seq<nat>,
    outbox: seq<Announcement>
  )

  datatype Input = Input(userId: nat, items: seq<Line>, key: Option<Text>)

  /** When the transaction began, which is when its order was created, and whether it dies after its last statement. */
  datatype Moment = Moment(at: int, interrupted: bool)

  datatype Failure =
    | EmptyItems
    | BadQuantity
    | ProductNotFound(productId: Id)
    | OutOfStock(productId: Id)
    | UserNotFound
    | InsufficientFunds
    | NumberOutOfRange
    | CreatedAtConflict
    | KeyConflict
    | Interrupted

  datatype Result = Placed(orderId: nat, total: int) | Refused(reason: Failure)

  // ----- the order of the lines -----

  const TWO_TO_THE_53: nat := 0x20_0000_0000_0000

  /** The distance between neighbouring doubles around n. */
  function Ulp(n: nat): nat {
    if n < TWO_TO_THE_53 then 1 else 2 * Ulp(n / 2)
  }

  lemma {:induction false} UlpPositive(n: nat)
    ensures Ulp(n) > 0
  {
    if n >= TWO_TO_THE_53 {
      UlpPositive(n / 2);
    }
  }

  /** Number(..) of a numeral: the nearest double, ties to even. */
  function JsNumber(n: nat): nat {
    UlpPositive(n);
    var u := Ulp(n);
    var q, r := n / u, n % u;
    if 2 * r < u || (2 * r == u && q % 2 == 0) then q * u else (q + 1) * u
  }

  lemma JsNumberIsExact(n: nat)
    requires n <= TWO_TO_THE_53
    ensures JsNumber(n) == n
  {
    if n == TWO_TO_THE_53 {
      assert Ulp(n / 2) == 1;
    }
  }

  predicate LineLeq(a: Line, b: Line) {
    JsNumber(Value(a.productId)) <= JsNumber(Value(b.productId))
  }

  function SortedLines(items: seq<Line>): seq<Line> {
    Sort(LineLeq, items)
  }

  // ----- taking stock -----

  datatype Taken = Taken(products: map<nat, Product>, priced: seq<Item>) | Short(reason: Failure)

  /** Why a line cannot be served, if it cannot. */
  function LineFailure(products: map<nat, Product>, line: Line): Option<Failure> {
    var id := Value(line.productId);
    if line.quantity > MAX_INTEGER || id > MAX_BIGINT then Some(NumberOutOfRange)
    else if id !in products then Some(ProductNotFound(line.productId))
    else if products[id].stock < line.quantity then Some(OutOfStock(line.productId))
    else None
  }

  function StockAfter(products: map<nat, Product>, line: Line): map<nat, Product>
    requires Value(line.productId) in products
  {
    var id := Value(line.productId);
    products[id := products[id].(stock := products[id].stock - line.quantity)]
  }

  function Priced(products: map<nat, Product>, line: Line): Item
    requires Value(line.productId) in products
  {
    Item(Value(line.productId), line.quantity, products[Value(line.productId)].price)
  }

  /** The updates of `products`, line after line. */
  function Take(products: map<nat, Product>, lines: seq<Line>): Taken {
    if lines == [] then Taken(products, [])
    else
      var before := Take(products, lines[..|lines| - 1]);
      var line := lines[|lines| - 1];
      if before.Short? then before
      else match LineFailure(before.products, line)
        case Some(reason) => Short(reason)
        case None => Taken(StockAfter(before.products, line), before.priced + [Priced(before.products, line)])
  }

  function ItemCost(item: Item): int {
    item.quantity * item.unitPrice
  }

  function Total(items: seq<Item>): int {
    SumBy(ItemCost, items)
  }

  // ----- the transaction -----

  predicate KeyTaken(orders: seq<Order>, userId: nat, key: Option<Text>) {
    key.Some? && exists i | 0 <= i < |orders| :: orders[i].userId == userId && orders[i].key == key
  }

  /** The unique index over user and creation time. */
  predicate MomentTaken(orders: seq<Order>, userId: nat, at: int) {
    exists i | 0 <= i < |orders| :: orders[i].userId == userId && orders[i].createdAt == at
  }

  /** Why the charge or the inserts fail, if they do. */
  function ChargeFailure(db: Db, input: Input, total: int, moment: Moment): Option<Failure> {
    if total > MAX_INTEGER then Some(NumberOutOfRange)
    else if input.userId !in db.users then Some(UserNotFound)
    else if db.users[input.userId] < total then Some(InsufficientFunds)
    else if MomentTaken(db.orders, input.userId, moment.at) then Some(CreatedAtConflict)
    else if KeyTaken(db.orders, input.userId, input.key) then Some(KeyConflict)
    else if moment.interrupted then Some(Interrupted)
    else None
  }

  function LinesFailure(items: seq<Line>): Option<Failure> {
    if items == [] then Some(EmptyItems)
    else if exists i | 0 <= i < |items| :: items[i].quantity <= 0 then Some(BadQuantity)
    else None
  }

  /** Number.isInteger(..) */
  predicate IsWhole(quantity: real) {
    quantity == quantity.Floor as real
  }

  function Rounded(line: RequestLine): Line {
    Line(line.productId, line.quantity.Floor)
  }

  function Requested(line: Line): RequestLine {
    RequestLine(line.productId, line.quantity as real)
  }

  /** Why a request is refused before its transaction begins, if it is. */
  function RequestFailure(items: seq<RequestLine>): Option<Failure> {
    if items == [] then Some(EmptyItems)
    else if exists i | 0 <= i < |items| :: !IsWhole(items[i].quantity) || items[i].quantity <= 0.0 then Some(BadQuantity)
    else None
  }

  lemma WholeLinesPass(items: seq<RequestLine>)
    requires RequestFailure(items).None?
    ensures LinesFailure(Mapped(Rounded, items)).None?
  {
  }

  /** Lines with whole quantities are what they are taken for. */
  lemma RequestedLinesRound(items: seq<Line>)
    ensures Mapped(Rounded, Mapped(Requested, items)) == items
    ensures RequestFailure(Mapped(Requested, items)) == LinesFailure(items)
  {
    forall i | 0 <= i < |items|
      ensures Mapped(Requested, items)[i] == Requested(items[i]) && Rounded(Requested(items[i])) == items[i]
      ensures Mapped(Requested, items)[i].quantity <= 0.0 <==> items[i].quantity <= 0
    {
    }
  }

  function Outcome(db: Db, input: Input, orderId: nat, moment: Moment): Result {
    match LinesFailure(input.items)
    case Some(reason) => Refused(reason)
    case None =>
      match Take(db.products, SortedLines(input.items))
      case Short(reason) => Refused(reason)
      case Taken(_, priced) =>
        match ChargeFailure(db, input, Total(priced), moment)
        case Some(reason) => Refused(reason)
        case None => Placed(orderId, Total(priced))
  }

  /** Everything the transaction writes. */
  function Committed(db: Db, input: Input, products: map<nat, Product>, priced: seq<Item>, total: int,
                     orderId: nat, rowId: nat, moment: Moment): Db
    requires input.userId in db.users
  {
    Db(
      products,
      db.users[input.userId := db.users[input.userId] - total],
      db.orders + [Order(orderId, input.userId, Paid, total, input.key, moment.at, priced)],
      db.jobs + [orderId],
      db.outbox + [Announcement(rowId, orderId, input.userId, total, priced)])
  }

  function After(db: Db, input: Input, orderId: nat, rowId: nat, moment: Moment): Db {
    if Outcome(db, input, orderId, moment).Refused? then db
    else
      var taken := Take(db.products, SortedLines(input.items));
      Committed(db, input, taken.products, taken.priced, Total(taken.priced), orderId, rowId, moment)
  }

  class Store {
    var products: map<nat, Product>
    var users: map<nat, int>
    var orders: seq<Order>
    var jobs: seq<nat>
    var outbox: seq<Announcement>

    function State(): Db
      reads this
    {
      Db(products, users, orders, jobs, outbox)
    }

    constructor (products: map<nat, Product>, users: map<nat, int>)
      ensures State() == Db(products, users, [], [], [])
    {
      this.products := products;
      this.users := users;
      orders := [];
      jobs := [];
      outbox := [];
    }

    method ValidateLines(items: seq<RequestLine>) returns (failure: Option<Failure>, lines: seq<Line>)
      ensures failure == RequestFailure(items)
      ensures failure.None? ==> lines == SortedLines(Mapped(Rounded, items))
      ensures failure == Some(EmptyItems) <==> items == []
      ensures failure.None? <==>
                items != [] && forall i | 0 <= i < |items| :: items[i].quantity == items[i].quantity.Floor as real >= 1.0
      ensures failure.None? || failure == Some(EmptyItems) || failure == Some(BadQuantity)
    {
      if |items| == 0 {
        return Some(EmptyItems), [];
      }
      for i := 0 to |items|
        invariant forall j | 0 <= j < i :: IsWhole(items[j].quantity) && items[j].quantity > 0.0
      {
        if !IsWhole(items[i].quantity) || items[i].quantity <= 0.0 {
          return Some(BadQuantity), [];
        }
      }
      return None, SortedLines(Mapped(Rounded, items));
    }

    /** Line after line, on the transaction's own view of the products. */
    method TakeStock(lines: seq<Line>) returns (taken: Taken)
      ensures taken == Take(products, lines)
    {
      var view := products;
      var priced := [];
      for i := 0 to |lines|
        invariant Take(products, lines[..i]) == Taken(view, priced)
      {
        assert lines[..i + 1][..i] == lines[..i];
        var line := lines[i];
        var short := LineFailure(view, line);
        if short.Some? {
          TakeStopsAtShortLine(products, lines, i + 1);
          return Short(short.value);
        }
        priced := priced + [Priced(view, line)];
        view := StockAfter(view, line);
      }
      assert lines[..|lines|] == lines;
      taken := Taken(view, priced);
    }

    method SumUp(priced: seq<Item>) returns (total: int)
      ensures total == Total(priced)
    {
      total := 0;
      for i := 0 to |priced|
        invariant total == Total(priced[..i])
      {
        assert priced[..i + 1][..i] == priced[..i];
        total := total + priced[i].quantity * priced[i].unitPrice;
      }
      assert priced[..|priced|] == priced;
    }

    /** The charge and the inserts, which publish the transaction's view of the products as well. */
    method Charge(input: Input, view: map<nat, Product>, priced: seq<Item>, total: int, orderId: nat, rowId: nat,
                  moment: Moment)
      returns (result: Result)
      modifies this
      ensures var failure := ChargeFailure(old(State()), input, total, moment);
              && (failure.Some? ==> result == Refused(failure.value) && State() == old(State()))
              && (failure.None? ==>
                    result == Placed(orderId, total)
                    && State() == Committed(old(State()), input, view, priced, total, orderId, rowId, moment))
    {
      if total > MAX_INTEGER {
        return Refused(NumberOutOfRange);
      }
      if input.userId !in users {
        return Refused(UserNotFound);
      }
      if users[input.userId] < total {
        return Refused(InsufficientFunds);
      }
      if MomentTaken(orders, input.userId, moment.at) {
        return Refused(CreatedAtConflict);
      }
      if KeyTaken(orders, input.userId, input.key) {
        return Refused(KeyConflict);
      }
      if moment.interrupted {
        return Refused(Interrupted);
      }
      products := view;
      users := users[input.userId := users[input.userId] - total];
      orders := orders + [Order(orderId, input.userId, Paid, total, input.key, moment.at, priced)];
      jobs := jobs + [orderId];
      outbox := outbox + [Announcement(rowId, orderId, input.userId, total, priced)];
      result := Placed(orderId, total);
    }

    /**
     The transaction works on its own view of the products and publishes it when it commits. `orderId` and `rowId`
     are the ids the database generates.
     */
    method Checkout(userId: nat, items: seq<RequestLine>, key: Option<Text>, orderId: nat, rowId: nat, moment: Moment)
      returns (result: Result)
      modifies this
      ensures RequestFailure(items).Some? ==> result == Refused(RequestFailure(items).value) && State() == old(State())
      ensures RequestFailure(items).None? ==>
                var input := Input(userId, Mapped(Rounded, items), key);
                result == Outcome(old(State()), input, orderId, moment)
                && State() == After(old(State()), input, orderId, rowId, moment)
    {
      var failure, lines := ValidateLines(items);
      if failure.Some? {
        return Refused(failure.value);
      }
      WholeLinesPass(items);
      var taken := TakeStock(lines);
      if taken.Short? {
        return Refused(taken.reason);
      }
      var priced := taken.priced;
      var total := SumUp(priced);
      var input := Input(userId, Mapped(Rounded, items), key);
      result := Charge(input, taken.products, priced, total, orderId, rowId, moment);
    }

    /** The status of the order with the id, if there is one. */
    method FindStatus(orderId: nat) returns (status: Option<Status>)
      ensures status.None? <==> forall i | 0 <= i < |orders| :: orders[i].id != orderId
      ensures status.Some? ==> exists i :: 0 <= i < |orders| && orders[i].id == orderId && orders[i].status == status.value
    {
      for i := 0 to |orders|
        invariant forall j | 0 <= j < i :: orders[j].id != orderId
      {
        if orders[i].id == orderId {
          return Some(orders[i].status);
        }
      }
      status := None;
    }

    /** The allowed transitions; any other leaves the order alone. */
    method ChangeStatus(orderId: nat, status: Status) returns (changed: bool)
      modifies this
      ensures State() == StatusAfter(old(State()), orderId, status)
      ensures changed <==> exists i | 0 <= i < |old(orders)| ::
                old(orders)[i].id == orderId && MayBecome(old(orders)[i].status, status)
      ensures |orders| == |old(orders)|
      ensures forall i | 0 <= i < |orders| ::
                orders[i] == if old(orders)[i].id == orderId && MayBecome(old(orders)[i].status, status)
                             then old(orders)[i].(status := status) else old(orders)[i]
    {
      changed := exists i | 0 <= i < |orders| :: orders[i].id == orderId && MayBecome(orders[i].status, status);
      var before := orders;
      orders := seq(|before|, i requires 0 <= i < |before| => Changed(before[i], orderId, status));
    }
  }

  lemma {:induction false} TakeStopsAtShortLine(products: map<nat, Product>, lines: seq<Line>, n: nat)
    requires n <= |lines| && Take(products, lines[..n]).Short?
    ensures Take(products, lines) == Take(products, lines[..n])
    decreases |lines|
  {
    if n == |lines| {
      assert lines[..n] == lines;
    } else {
      var front := lines[..|lines| - 1];
      assert front[..n] == lines[..n];
      TakeStopsAtShortLine(products, front, n);
    }
  }

  predicate MayBecome(previous: Status, status: Status) {
    match status
    case Pending => previous == Paid
    case Paid => previous == Pending
    case Cancelled => previous == Pending || previous == Paid
  }

  /** Paid orders may be put back, pending ones paid, and both cancelled; that is all. */
  lemma AllowedTransitions(previous: Status, status: Status)
    ensures MayBecome(previous, status) <==>
              (previous, status) in {(Paid, Pending), (Pending, Paid), (Pending, Cancelled), (Paid, Cancelled)}
    ensures !MayBecome(Cancelled, status) && !MayBecome(status, status)
  {
  }

  function Changed(order: Order, orderId: nat, status: Status): Order {
    if order.id == orderId && MayBecome(order.status, status) then order.(status := status) else order
  }

  function StatusAfter(db: Db, orderId: nat, status: Status): Db {
    db.(orders := seq(|db.orders|, i requires 0 <= i < |db.orders| => Changed(db.orders[i], orderId, status)))
  }
}
