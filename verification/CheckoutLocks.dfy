/**
 Concurrent checkouts and the row locks they hold until they end: product rows in the order of the sorted lines, the
 user row last. They can never deadlock, provided the sort key tells the products apart.
 */
module CheckoutLocks {
  import opened Options
  import opened Sorting
  import opened Text
  import opened Checkout

  datatype Resource = ProductRow(id: nat) | UserRow(userId: nat)

  /** A checkout under way: its sorted lines, and how many of its locks it has taken. */
  datatype Tx = Tx(lines: seq<Line>, userId: nat, held: nat, finished: bool)

  type State = map<nat, Tx>

  datatype Action =
    | Begin(t: nat, items: seq<Line>, userId: nat)
    | Acquire(t: nat)
    | Finish(t: nat)

  /** The database refuses the statement for its parameters, before it looks for a row. */
  predicate OutOfRange(line: Line) {
    line.quantity > MAX_INTEGER || Value(line.productId) > MAX_BIGINT
  }

  /** The row the next statement locks; None when it fails without a lock, or when only the commit is left. */
  function Wants(tx: Tx): Option<Resource> {
    if tx.held < |tx.lines| then
      var line := tx.lines[tx.held];
      if OutOfRange(line) then None else Some(ProductRow(Value(line.productId)))
    else if tx.held == |tx.lines| then Some(UserRow(tx.userId))
    else None
  }

  predicate Holds(tx: Tx, r: Resource) {
    !tx.finished
    && match r
       case ProductRow(p) => exists i | 0 <= i < |tx.lines| :: i < tx.held && Value(tx.lines[i].productId) == p
       case UserRow(u) => tx.held > |tx.lines| && tx.userId == u
  }

  predicate Unfinished(s: State, t: nat) {
    t in s && !s[t].finished
  }

  ghost predicate WaitsFor(s: State, t: nat, u: nat) {
    && t != u && Unfinished(s, t) && u in s
    && Wants(s[t]).Some? && Holds(s[u], Wants(s[t]).value)
  }

  /** The checkout can run its next statement, or commit. */
  ghost predicate CanStep(s: State, t: nat) {
    Unfinished(s, t) && forall u :: !WaitsFor(s, t, u)
  }

  /** Checkouts of products in `ids` only. A checkout may end at any time, by an error or a lost connection. */
  ghost predicate Enabled(s: State, a: Action, ids: iset<nat>) {
    match a
    case Begin(t, items, _) => t !in s && forall l | l in items :: Value(l.productId) in ids
    case Acquire(t) => CanStep(s, t) && Wants(s[t]).Some?
    case Finish(t) => Unfinished(s, t)
  }

  function Apply(s: State, a: Action): State
    requires !a.Begin? ==> a.t in s
  {
    match a
    case Begin(t, items, userId) => s[t := Tx(SortedLines(items), userId, 0, false)]
    case Acquire(t) => s[t := s[t].(held := s[t].held + 1)]
    case Finish(t) => s[t := s[t].(finished := true)]
  }

  ghost predicate Executes(s: State, actions: seq<Action>, t: State, ids: iset<nat>)
    decreases |actions|
  {
    if actions == [] then s == t
    else Enabled(s, actions[0], ids) && Executes(Apply(s, actions[0]), actions[1..], t, ids)
  }

  ghost predicate Reachable(s: State, ids: iset<nat>) {
    exists actions :: Executes(map[], actions, s, ids)
  }

  /** Whenever a checkout is under way, some checkout can go on. */
  ghost predicate NeverDeadlocks(ids: iset<nat>) {
    forall s :: Reachable(s, ids) && (exists t :: Unfinished(s, t)) ==> exists t :: CanStep(s, t)
  }

  /** Two products whose rows can be locked, in an order that the sort does not settle. */
  ghost predicate Confused(ids: iset<nat>, a: nat, b: nat) {
    a in ids && b in ids && a != b && a <= MAX_BIGINT && b <= MAX_BIGINT && JsNumber(a) == JsNumber(b)
  }

  /** The sort key tells the products apart whose rows can be locked. */
  ghost predicate KeysTellApart(ids: iset<nat>) {
    forall a, b :: !Confused(ids, a, b)
  }

  // ----- invariant -----

  ghost predicate Inv(s: State, ids: iset<nat>) {
    && (forall t | t in s :: Sorted(LineLeq, s[t].lines) && s[t].held <= |s[t].lines| + 1)
    && (forall t, l | t in s && l in s[t].lines :: Value(l.productId) in ids)
    && (forall t, i | t in s && 0 <= i < |s[t].lines| && i < s[t].held :: !OutOfRange(s[t].lines[i]))
    && (forall t, u, r | t in s && u in s && Holds(s[t], r) && Holds(s[u], r) :: t == u)
  }

  lemma BeginKeepsInv(s: State, a: Action, ids: iset<nat>)
    requires Inv(s, ids) && Enabled(s, a, ids) && a.Begin?
    ensures Inv(Apply(s, a), ids)
  {
    assert TotalPreorder(LineLeq);
    SortSorts(LineLeq, a.items);
    SameElements(SortedLines(a.items), a.items);
    assert forall r :: !Holds(Apply(s, a)[a.t], r);
  }

  lemma AcquireKeepsInv(s: State, a: Action, ids: iset<nat>)
    requires Inv(s, ids) && Enabled(s, a, ids) && a.Acquire?
    ensures Inv(Apply(s, a), ids)
  {
    var t, want := Apply(s, a), Wants(s[a.t]).value;
    forall r | Holds(t[a.t], r)
      ensures Holds(s[a.t], r) || r == want
    {
    }
    forall u | u in s && u != a.t
      ensures !Holds(s[u], want)
    {
      assert !WaitsFor(s, a.t, u);
    }
  }

  lemma StepKeepsInv(s: State, a: Action, ids: iset<nat>)
    requires Inv(s, ids) && Enabled(s, a, ids)
    ensures Inv(Apply(s, a), ids)
  {
    match a
    case Begin(_, _, _) => BeginKeepsInv(s, a, ids);
    case Acquire(_) => AcquireKeepsInv(s, a, ids);
    case Finish(_) =>
  }

  lemma {:induction false} RunKeepsInv(s: State, actions: seq<Action>, t: State, ids: iset<nat>)
    requires Inv(s, ids) && Executes(s, actions, t, ids)
    ensures Inv(t, ids)
    decreases |actions|
  {
    if actions != [] {
      StepKeepsInv(s, actions[0], ids);
      RunKeepsInv(Apply(s, actions[0]), actions[1..], t, ids);
    }
  }

  lemma ReachableInv(s: State, ids: iset<nat>)
    requires Reachable(s, ids)
    ensures Inv(s, ids)
  {
    var actions :| Executes(map[], actions, s, ids);
    RunKeepsInv(map[], actions, s, ids);
  }

  // ----- waiting goes upwards -----

  function Level(want: Option<Resource>): nat {
    match want
    case Some(ProductRow(_)) => 0
    case Some(UserRow(_)) => 1
    case None => 2
  }

  /** The order in which every checkout takes its locks. */
  predicate Before(want: Option<Resource>, other: Option<Resource>) {
    Level(want) < Level(other)
    || (Level(want) == Level(other) == 0 && JsNumber(want.value.id) < JsNumber(other.value.id))
  }

  /** A product row that is held stands before every product row still wanted. */
  lemma HeldRowIsEarlier(lines: seq<Line>, ids: iset<nat>, i: nat, held: nat)
    requires Sorted(LineLeq, lines) && KeysTellApart(ids) && i < held < |lines|
    requires forall l | l in lines :: Value(l.productId) in ids
    requires !OutOfRange(lines[i]) && !OutOfRange(lines[held])
    ensures var a, b := Value(lines[i].productId), Value(lines[held].productId);
            a == b || JsNumber(a) < JsNumber(b)
  {
    assert LineLeq(lines[i], lines[held]);
    assert !Confused(ids, Value(lines[i].productId), Value(lines[held].productId));
  }

  /** A checkout waits for one that waits itself only if that one wants a later row. */
  lemma WaitingGoesUpwards(s: State, ids: iset<nat>, t: nat, u: nat)
    requires Inv(s, ids) && KeysTellApart(ids) && WaitsFor(s, t, u) && !CanStep(s, u)
    ensures Before(Wants(s[t]), Wants(s[u]))
  {
    var want, next := Wants(s[t]).value, Wants(s[u]);
    assert Holds(s[u], want);
    var v :| WaitsFor(s, u, v);
    if want.ProductRow? && next.value.ProductRow? {
      var lines := s[u].lines;
      var i :| 0 <= i < |lines| && i < s[u].held && Value(lines[i].productId) == want.id;
      assert !OutOfRange(lines[i]);
      HeldRowIsEarlier(lines, ids, i, s[u].held);
      HolderWaitsForAnother(s, ids, u, v, want.id);
    }
  }

  /** Nobody waits for a row that he holds. */
  lemma HolderWaitsForAnother(s: State, ids: iset<nat>, u: nat, v: nat, p: nat)
    requires Inv(s, ids) && WaitsFor(s, u, v) && Holds(s[u], ProductRow(p))
    ensures Wants(s[u]) != Some(ProductRow(p))
  {
  }

  function Above(s: State, t: nat): set<nat>
    requires t in s
  {
    set u | u in s && Before(Wants(s[t]), Wants(s[u]))
  }

  lemma {:induction false} SomebodyCanStep(s: State, ids: iset<nat>, t: nat) returns (u: nat)
    requires Inv(s, ids) && KeysTellApart(ids) && Unfinished(s, t)
    ensures CanStep(s, u)
    decreases |Above(s, t)|
  {
    if CanStep(s, t) {
      return t;
    }
    var v :| WaitsFor(s, t, v);
    if CanStep(s, v) {
      return v;
    }
    WaitingGoesUpwards(s, ids, t, v);
    assert Above(s, v) <= Above(s, t) && v in Above(s, t) && v !in Above(s, v);
    assert |Above(s, t) - Above(s, v)| > 0;
    u := SomebodyCanStep(s, ids, v);
  }

  /** A chain of waiting checkouts, each for the next. */
  ghost predicate WaitingChain(s: State, path: seq<nat>) {
    forall i | 0 <= i < |path| - 1 :: WaitsFor(s, path[i], path[i + 1])
  }

  lemma {:induction false} ChainRises(s: State, ids: iset<nat>, path: seq<nat>, j: nat)
    requires Inv(s, ids) && KeysTellApart(ids) && WaitingChain(s, path)
    requires 0 < j < |path| - 1
    ensures path[0] in s && path[j] in s && Before(Wants(s[path[0]]), Wants(s[path[j]]))
  {
    assert WaitsFor(s, path[j], path[j + 1]) && !CanStep(s, path[j]);
    assert WaitsFor(s, path[j - 1], path[j]);
    WaitingGoesUpwards(s, ids, path[j - 1], path[j]);
    if j > 1 {
      ChainRises(s, ids, path, j - 1);
    }
  }

  /** The waits-for graph has no cycle. */
  lemma NoWaitingCycle(s: State, ids: iset<nat>, path: seq<nat>)
    requires Reachable(s, ids) && KeysTellApart(ids)
    requires |path| >= 2 && WaitingChain(s, path)
    ensures path[0] != path[|path| - 1]
  {
    ReachableInv(s, ids);
    if path[0] == path[|path| - 1] {
      assert WaitsFor(s, path[0], path[1]);
      var longer := path + [path[1]];
      forall i | 0 <= i < |longer| - 1
        ensures WaitsFor(s, longer[i], longer[i + 1])
      {
        if i < |path| - 1 {
          assert WaitsFor(s, path[i], path[i + 1]);
        }
      }
      ChainRises(s, ids, longer, |path| - 1);
    }
  }

  // ----- the other direction -----

  lemma JsNumberConfuses()
    ensures JsNumber(TWO_TO_THE_53 + 1) == JsNumber(TWO_TO_THE_53)
  {
    JsNumberIsExact(TWO_TO_THE_53);
    assert (TWO_TO_THE_53 + 1) / 2 == TWO_TO_THE_53 / 2;
    assert Ulp(TWO_TO_THE_53 + 1) == 2;
  }

  lemma TwoLinesStayInOrder(a: nat, b: nat)
    requires JsNumber(a) == JsNumber(b)
    ensures SortedLines([Line(Decimal(a), 1), Line(Decimal(b), 1)]) == [Line(Decimal(a), 1), Line(Decimal(b), 1)]
  {
    ValueOfDecimal(a);
    ValueOfDecimal(b);
    TwoInOrderStay(LineLeq, Line(Decimal(a), 1), Line(Decimal(b), 1));
  }

  /** The two checkouts, each with `held` product rows locked. */
  function Opposed(a: nat, b: nat, held0: nat, held1: nat): State {
    map[0 := Tx([Line(Decimal(a), 1), Line(Decimal(b), 1)], 0, held0, false),
        1 := Tx([Line(Decimal(b), 1), Line(Decimal(a), 1)], 1, held1, false)]
  }

  lemma OpposedHoldings(a: nat, b: nat, held0: nat, held1: nat)
    requires a != b && a <= MAX_BIGINT && b <= MAX_BIGINT && held0 <= 1 && held1 <= 1
    ensures var s := Opposed(a, b, held0, held1);
            && Wants(s[0]) == Some(ProductRow(if held0 == 0 then a else b))
            && Wants(s[1]) == Some(ProductRow(if held1 == 0 then b else a))
            && (forall r :: Holds(s[0], r) <==> held0 == 1 && r == ProductRow(a))
            && (forall r :: Holds(s[1], r) <==> held1 == 1 && r == ProductRow(b))
  {
    ValueOfDecimal(a);
    ValueOfDecimal(b);
    var s := Opposed(a, b, held0, held1);
    assert Value(s[0].lines[0].productId) == a && Value(s[1].lines[0].productId) == b;
  }

  lemma OpposedBegin(ids: iset<nat>, a: nat, b: nat, begin0: Action, begin1: Action)
    requires Confused(ids, a, b)
    requires begin0 == Begin(0, [Line(Decimal(a), 1), Line(Decimal(b), 1)], 0)
    requires begin1 == Begin(1, [Line(Decimal(b), 1), Line(Decimal(a), 1)], 1)
    ensures Enabled(map[], begin0, ids) && Enabled(Apply(map[], begin0), begin1, ids)
    ensures Apply(Apply(map[], begin0), begin1) == Opposed(a, b, 0, 0)
  {
    ValueOfDecimal(a);
    ValueOfDecimal(b);
    TwoLinesStayInOrder(a, b);
    TwoLinesStayInOrder(b, a);
  }

  lemma OpposedAcquire(ids: iset<nat>, a: nat, b: nat)
    requires a != b && a <= MAX_BIGINT && b <= MAX_BIGINT
    ensures Enabled(Opposed(a, b, 0, 0), Acquire(0), ids)
    ensures Apply(Opposed(a, b, 0, 0), Acquire(0)) == Opposed(a, b, 1, 0)
    ensures Enabled(Opposed(a, b, 1, 0), Acquire(1), ids)
    ensures Apply(Opposed(a, b, 1, 0), Acquire(1)) == Opposed(a, b, 1, 1)
  {
    OpposedHoldings(a, b, 0, 0);
    OpposedHoldings(a, b, 1, 0);
  }

  lemma OpposedIsReachable(ids: iset<nat>, a: nat, b: nat)
    requires Confused(ids, a, b)
    ensures Reachable(Opposed(a, b, 1, 1), ids)
  {
    var begin0 := Begin(0, [Line(Decimal(a), 1), Line(Decimal(b), 1)], 0);
    var begin1 := Begin(1, [Line(Decimal(b), 1), Line(Decimal(a), 1)], 1);
    OpposedBegin(ids, a, b, begin0, begin1);
    OpposedAcquire(ids, a, b);
    RunOfFour(map[], begin0, begin1, Acquire(0), Acquire(1), ids);
  }

  lemma RunOfFour(s: State, a: Action, b: Action, c: Action, d: Action, ids: iset<nat>)
    requires Enabled(s, a, ids)
    requires Enabled(Apply(s, a), b, ids)
    requires Enabled(Apply(Apply(s, a), b), c, ids)
    requires Enabled(Apply(Apply(Apply(s, a), b), c), d, ids)
    ensures exists actions :: Executes(s, actions, Apply(Apply(Apply(Apply(s, a), b), c), d), ids)
  {
    assert [a, b, c, d][1..] == [b, c, d] && [b, c, d][1..] == [c, d] && [c, d][1..] == [d] && [d][1..] == [];
    var t := Apply(Apply(Apply(Apply(s, a), b), c), d);
    assert Executes(Apply(Apply(Apply(s, a), b), c), [d], t, ids);
    assert Executes(Apply(Apply(s, a), b), [c, d], t, ids);
    assert Executes(s, [a, b, c, d], t, ids);
  }

  /** Two products that the sort key confuses, ordered by two checkouts in opposite order. */
  lemma ConfusedProductsDeadlock(ids: iset<nat>, a: nat, b: nat) returns (s: State)
    requires Confused(ids, a, b)
    ensures Reachable(s, ids) && Unfinished(s, 0) && forall t :: !CanStep(s, t)
  {
    s := Opposed(a, b, 1, 1);
    OpposedIsReachable(ids, a, b);
    OpposedHoldings(a, b, 1, 1);
    assert WaitsFor(s, 0, 1) && WaitsFor(s, 1, 0);
  }

  /** Checkouts never deadlock exactly when the sort key tells the products apart. */
  lemma NoDeadlockIffKeysTellApart(ids: iset<nat>)
    ensures NeverDeadlocks(ids) <==> KeysTellApart(ids)
  {
    if KeysTellApart(ids) {
      forall s | Reachable(s, ids) && exists t :: Unfinished(s, t)
        ensures exists t :: CanStep(s, t)
      {
        ReachableInv(s, ids);
        var t :| Unfinished(s, t);
        var u := SomebodyCanStep(s, ids, t);
      }
    } else {
      var a, b :| Confused(ids, a, b);
      var s := ConfusedProductsDeadlock(ids, a, b);
    }
  }

  predicate AtMost(n: nat, bound: nat) {
    n <= bound
  }

  ghost function IdsUpTo(bound: nat): iset<nat> {
    iset n: nat | AtMost(n, bound)
  }

  /** Product ids up to 2^53 are safe, duplicate lines included; the next id is not. */
  lemma ExactIdsNeverDeadlock()
    ensures NeverDeadlocks(IdsUpTo(TWO_TO_THE_53))
    ensures !NeverDeadlocks(IdsUpTo(TWO_TO_THE_53 + 1))
  {
    var safe, unsafe := IdsUpTo(TWO_TO_THE_53), IdsUpTo(TWO_TO_THE_53 + 1);
    forall a, b | a in safe && b in safe && JsNumber(a) == JsNumber(b)
      ensures a == b
    {
      JsNumberIsExact(a);
      JsNumberIsExact(b);
    }
    NoDeadlockIffKeysTellApart(safe);
    JsNumberConfuses();
    assert TWO_TO_THE_53 in unsafe && TWO_TO_THE_53 + 1 in unsafe;
    assert Confused(unsafe, TWO_TO_THE_53, TWO_TO_THE_53 + 1);
    NoDeadlockIffKeysTellApart(unsafe);
  }
}
