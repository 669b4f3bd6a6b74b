/** The first sale of a small shop, up to the state in which a relay may announce it. */
module FirstSale {
  import opened Checkout
  import opened OrderPipeline
  import LineTexts
  import PlaceOrder

  /** A relay does come to try a row, and so `CopyMayBeMisreported` has a case. */
  lemma RowsComeToBeTried() returns (s: State)
    ensures Reachable(s) && 0 in s.books.announced && Enabled(s, Select(0, 0))
  {
    var db, input := LineTexts.Shop(7, 2), PlaceOrder.SevenUnderEmptyKey();
    PlaceOrder.FirstSevenIsPlaced(db);
    var start, a := Initial(db, 0), Commit(input, 0, 0, Moment(0, false));
    assert Starts(db) && Executes(start, [], start);
    PlacedOrderLeavesRow(start, a);
    NextIsReachable(start, a);
    s := Next(start, a);
  }
}
