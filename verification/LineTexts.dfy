/** The text by which two lists of lines are compared, and what its equality means. */
module LineTexts {
  import opened Options
  import opened Sorting
  import opened Sums
  import opened Text
  import opened Checkout
  import opened Ledger

  function LineText(line: Line): Text {
    line.productId + ([COLON] + DecimalInt(line.quantity))
  }

  function Join(parts: seq<Text>): Text {
    if parts == [] then []
    else if |parts| == 1 then parts[0]
    else parts[0] + ([COMMA] + Join(parts[1..]))
  }

  function NormalizeLines(lines: seq<Line>): Text {
    Join(Sort(TextLeq, Mapped(LineText, lines)))
  }

  predicate IsComma(c: CodeUnit) {
    c == COMMA
  }

  lemma LineTextHasNoComma(line: Line)
    ensures LineText(line) != [] && forall i | 0 <= i < |LineText(line)| :: !IsComma(LineText(line)[i])
  {
    var t := LineText(line);
    var digits := if line.quantity < 0 then Decimal(-line.quantity) else Decimal(line.quantity);
    assert IsNumeral(digits);
    forall i | 0 <= i < |t|
      ensures !IsComma(t[i])
    {
      if i < |line.productId| {
        assert IsDigit(line.productId[i]);
      } else if i > |line.productId| {
        var j := i - |line.productId| - 1;
        assert t[i] == DecimalInt(line.quantity)[j];
        assert line.quantity < 0 && j > 0 ==> IsDigit(digits[j - 1]);
      }
    }
  }

  lemma LineTextReadsBack(a: Line, b: Line)
    requires LineText(a) == LineText(b)
    ensures a == b
  {
    var x, y := [COLON] + DecimalInt(a.quantity), [COLON] + DecimalInt(b.quantity);
    PrefixEndsAtStop(NotDigit, a.productId, x, b.productId, y);
    assert x[1..] == DecimalInt(a.quantity) && y[1..] == DecimalInt(b.quantity);
    assert DecimalInt(a.quantity) + [] == DecimalInt(b.quantity) + [];
    DecimalIntReadsBack(a.quantity, [], b.quantity, []);
  }

  ghost predicate CommaFree(parts: seq<Text>) {
    forall t | t in parts :: t != [] && forall i | 0 <= i < |t| :: !IsComma(t[i])
  }

  function JoinTail(parts: seq<Text>): Text {
    if parts == [] then [] else [COMMA] + Join(parts)
  }

  lemma JoinFirst(parts: seq<Text>)
    requires parts != []
    ensures Join(parts) == parts[0] + JoinTail(parts[1..])
  {
    if |parts| == 1 {
      assert parts[1..] == [] && parts[0] + [] == parts[0];
    }
  }

  lemma JoinIsEmptyOnlyForNothing(parts: seq<Text>)
    requires CommaFree(parts)
    ensures Join(parts) == [] <==> parts == []
  {
    if parts != [] {
      JoinFirst(parts);
      assert parts[0] in parts;
    }
  }

  lemma {:induction false} JoinReadsBack(xs: seq<Text>, ys: seq<Text>)
    requires CommaFree(xs) && CommaFree(ys) && Join(xs) == Join(ys)
    ensures xs == ys
    decreases |xs|, 0
  {
    JoinIsEmptyOnlyForNothing(xs);
    JoinIsEmptyOnlyForNothing(ys);
    if xs != [] && ys != [] {
      JoinFirst(xs);
      JoinFirst(ys);
      assert xs[0] in xs && ys[0] in ys;
      var x, y := JoinTail(xs[1..]), JoinTail(ys[1..]);
      PrefixEndsAtStop(IsComma, xs[0], x, ys[0], y);
      TailReadsBack(xs[1..], ys[1..]);
      assert xs == [xs[0]] + xs[1..] && ys == [ys[0]] + ys[1..];
    }
  }

  lemma {:induction false} TailReadsBack(xs: seq<Text>, ys: seq<Text>)
    requires CommaFree(xs) && CommaFree(ys) && JoinTail(xs) == JoinTail(ys)
    ensures xs == ys
    decreases |xs|, 1
  {
    if xs != [] && ys != [] {
      assert JoinTail(xs)[1..] == Join(xs) && JoinTail(ys)[1..] == Join(ys);
      JoinReadsBack(xs, ys);
    }
  }

  lemma SortedTextsAreCommaFree(lines: seq<Line>)
    ensures CommaFree(Sort(TextLeq, Mapped(LineText, lines)))
  {
    var texts := Mapped(LineText, lines);
    SameElements(Sort(TextLeq, texts), texts);
    forall t | t in Sort(TextLeq, texts)
      ensures t != [] && forall i | 0 <= i < |t| :: !IsComma(t[i])
    {
      var k :| 0 <= k < |texts| && texts[k] == t;
      LineTextHasNoComma(lines[k]);
    }
  }

  /** The normalized texts are equal exactly when the lists hold the same lines, in whatever order. */
  lemma NormalizedTextDecidesSameLines(xs: seq<Line>, ys: seq<Line>)
    ensures NormalizeLines(xs) == NormalizeLines(ys) <==> multiset(xs) == multiset(ys)
  {
    var s, t := Mapped(LineText, xs), Mapped(LineText, ys);
    TextLeqIsTotalOrder();
    SortEqualsIffSameMultiset(TextLeq, s, t);
    if multiset(xs) == multiset(ys) {
      MappedRearrangement(LineText, xs, ys);
    } else if NormalizeLines(xs) == NormalizeLines(ys) {
      SortedTextsAreCommaFree(xs);
      SortedTextsAreCommaFree(ys);
      JoinReadsBack(Sort(TextLeq, s), Sort(TextLeq, t));
      forall a, b | a in xs && b in ys && LineText(a) == LineText(b)
        ensures a == b
      {
        LineTextReadsBack(a, b);
      }
      MappedRearrangementReflected(LineText, xs, ys);
    }
  }

  // ----- an order against a request -----

  /** A stored item as the database returns it. */
  function ItemLine(item: Item): Line {
    Line(Decimal(item.productId), item.quantity)
  }

  function CanonicalLine(line: Line): Line {
    Line(Decimal(Value(line.productId)), line.quantity)
  }

  predicate IsSameRequest(order: Order, input: Input) {
    NormalizeLines(Mapped(ItemLine, order.items)) == NormalizeLines(input.items)
  }

  function IdLength(line: Line): int {
    |line.productId|
  }

  lemma {:induction false} EqualSumsOfSmallerTerms(xs: seq<Line>, ys: seq<Line>)
    requires |xs| == |ys| && forall i | 0 <= i < |xs| :: IdLength(xs[i]) <= IdLength(ys[i])
    ensures SumBy(IdLength, xs) <= SumBy(IdLength, ys)
    ensures SumBy(IdLength, xs) == SumBy(IdLength, ys) ==> forall i | 0 <= i < |xs| :: IdLength(xs[i]) == IdLength(ys[i])
  {
    if xs != [] {
      EqualSumsOfSmallerTerms(xs[..|xs| - 1], ys[..|ys| - 1]);
      var front, other := xs[..|xs| - 1], ys[..|ys| - 1];
      assert forall i | 0 <= i < |xs| - 1 :: xs[i] == front[i] && ys[i] == other[i];
    }
  }

  ghost predicate AllCanonical(lines: seq<Line>) {
    forall line | line in lines :: IsCanonical(line.productId)
  }

  lemma CanonicalLinesAreTheSame(lines: seq<Line>)
    ensures multiset(Mapped(CanonicalLine, lines)) == multiset(lines) <==> AllCanonical(lines)
  {
    var canonical := Mapped(CanonicalLine, lines);
    forall i | 0 <= i < |lines|
      ensures IdLength(canonical[i]) <= IdLength(lines[i])
      ensures IdLength(canonical[i]) == IdLength(lines[i]) <==> IsCanonical(lines[i].productId)
      ensures IsCanonical(lines[i].productId) ==> canonical[i] == lines[i]
    {
      DecimalOfValue(lines[i].productId);
    }
    if AllCanonical(lines) {
      assert forall i | 0 <= i < |lines| :: lines[i] in lines;
      assert canonical == lines;
    } else if multiset(canonical) == multiset(lines) {
      SumRearranged(IdLength, canonical, lines);
      EqualSumsOfSmallerTerms(canonical, lines);
    }
  }

  /** The items of a placed order are its lines with canonical ids. */
  lemma PlacedItemsAreCanonicalLines(products: map<nat, Product>, lines: seq<Line>, taken: Taken)
    requires TookAll(products, lines, taken)
    ensures Mapped(ItemLine, taken.priced) == Mapped(CanonicalLine, lines)
  {
  }

  /** A request matches the order of a placed checkout exactly if it has that checkout's lines, with canonical ids. */
  lemma MatchesIffCanonicalLines(db: Db, input: Input, orderId: nat, rowId: nat, moment: Moment, retry: Input)
    requires Placeable(db, input, moment)
    ensures var orders := After(db, input, orderId, rowId, moment).orders;
            && |orders| == |db.orders| + 1
            && (IsSameRequest(orders[|db.orders|], retry)
                <==> multiset(retry.items) == multiset(Mapped(CanonicalLine, input.items)))
  {
    CheckoutIsExact(db, input, orderId, rowId, moment);
    var lines := SortedLines(input.items);
    DemandRearranged(lines, input.items);
    TakeIsExact(db.products, lines);
    var taken := Take(db.products, lines);
    PlacedItemsAreCanonicalLines(db.products, lines, taken);
    MappedRearrangement(CanonicalLine, lines, input.items);
    NormalizedTextDecidesSameLines(Mapped(ItemLine, taken.priced), retry.items);
  }

  /**
   A retry with the same lines, in any order, is recognised exactly when its ids are canonical. An id such as 007 is
   stored as 7, so the retry of an order that used it is refused as a different request.
   */
  lemma RetryMatchesIffIdsAreCanonical(db: Db, input: Input, orderId: nat, rowId: nat, moment: Moment, retry: Input)
    requires Placeable(db, input, moment) && multiset(retry.items) == multiset(input.items)
    ensures var orders := After(db, input, orderId, rowId, moment).orders;
            |orders| > 0 && (IsSameRequest(orders[|orders| - 1], retry) <==> AllCanonical(input.items))
  {
    MatchesIffCanonicalLines(db, input, orderId, rowId, moment, retry);
    CanonicalLinesAreTheSame(input.items);
  }

  // ----- a retry that is refused -----

  /** A shop with one product and one user who can afford all of it. */
  function Shop(p: nat, stock: nat): Db {
    Db(map[p := Product(1, stock)], map[0 := stock], [], [], [])
  }

  lemma OneLineIsPlaceable(p: nat, stock: nat, id: Id, key: Option<Text>, moment: Moment)
    requires Value(id) == p <= MAX_BIGINT && stock >= 1 && !moment.interrupted
    ensures Placeable(Shop(p, stock), Input(0, [Line(id, 1)], key), moment)
  {
    var db, lines := Shop(p, stock), [Line(id, 1)];
    SumOfOne(LineDemand(p), lines[0]);
    SumOfOne(LineCost(db.products), lines[0]);
  }

  function PaddedSeven(): Id {
    [ZERO, ZERO, ZERO + 7]
  }

  /** The order made for 007 does not match the very request that made it. */
  lemma PaddedRequestDoesNotMatch(key: Option<Text>, moment: Moment)
    requires !moment.interrupted
    ensures var db, input := Shop(7, 1), Input(0, [Line(PaddedSeven(), 1)], key);
            var orders := After(db, input, 0, 0, moment).orders;
            Placeable(db, input, moment) && |orders| > 0 && !IsSameRequest(orders[|orders| - 1], input)
  {
    var id := PaddedSeven();
    var input := Input(0, [Line(id, 1)], key);
    assert id[..2] == [ZERO, ZERO] && [ZERO, ZERO][..1] == [ZERO] && [ZERO][..0] == [];
    assert Value([ZERO]) == 0;
    assert Value([ZERO, ZERO]) == 0;
    assert Value(id) == 7;
    OneLineIsPlaceable(7, 1, id, key, moment);
    RetryMatchesIffIdsAreCanonical(Shop(7, 1), input, 0, 0, moment, input);
    assert input.items[0] in input.items && !IsCanonical(id);
  }
}
