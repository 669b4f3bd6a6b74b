/** The inbox consumer: one transaction per message, then an acknowledgement, a rejection or a requeue. */
module OrderPlacedConsumer {
  import opened Options
  import opened Text
  import opened CanonicalJson
  import opened Checkout
  import opened OrderPlaced

  datatype Receipt = Receipt(eventId: Text, total: int)

  /** `processed_messages`, `receipts` by order, and the orders that exist. */
  datatype Inbox<!M> = Inbox(processed: set<M>, receipts: map<nat, Receipt>, orders: set<nat>)

  datatype ApplyResult = Applied | Duplicate | AlreadyApplied | Failed

  /** The receipt's INSERT violates a constraint other than the one it defers to. */
  predicate Violates<M>(inbox: Inbox<M>, incoming: Incoming<M>) {
    || Value(incoming.orderId) > MAX_BIGINT || incoming.total > MAX_INTEGER || incoming.total < 0 || 0 in incoming.eventId
    || (Value(incoming.orderId) !in inbox.receipts
        && ((exists o | o in inbox.receipts :: inbox.receipts[o].eventId == incoming.eventId)
            || Value(incoming.orderId) !in inbox.orders))
  }

  function ResultOf<M>(inbox: Inbox<M>, incoming: Incoming<M>, dbFails: bool): ApplyResult {
    if dbFails then Failed
    else if incoming.messageId in inbox.processed then Duplicate
    else if Violates(inbox, incoming) then Failed
    else if Value(incoming.orderId) in inbox.receipts then AlreadyApplied
    else Applied
  }

  /** The mark and the receipt are written together or not at all. */
  function InboxAfter<M>(inbox: Inbox<M>, incoming: Incoming<M>, dbFails: bool): Inbox<M> {
    match ResultOf(inbox, incoming, dbFails)
    case Applied =>
      inbox.(processed := inbox.processed + {incoming.messageId},
             receipts := inbox.receipts[Value(incoming.orderId) := Receipt(incoming.eventId, incoming.total)])
    case AlreadyApplied => inbox.(processed := inbox.processed + {incoming.messageId})
    case Duplicate => inbox
    case Failed => inbox
  }

  /** A message id as the uuid column stores it: uuids differing in the case of letters only are the same. */
  function AsStored(incoming: Incoming<Text>): Incoming<Text> {
    var id := incoming.messageId;
    incoming.(messageId := seq(|id|, i requires 0 <= i < |id| => if 0x41 <= id[i] <= 0x46 then id[i] + 0x20 else id[i]))
  }

  function InboxOf(inbox: Inbox<Text>, parsed: Option<Incoming<Text>>, dbFails: bool): Inbox<Text> {
    match parsed
    case None => inbox
    case Some(incoming) => InboxAfter(inbox, AsStored(incoming), dbFails)
  }

  datatype Disposition = Acked | Rejected | Requeued

  datatype Stats = Stats(
    delivered: nat, effect: nat, skipped: nat, alreadyApplied: nat, rejected: nat, requeued: nat, acked: nat)

  class Consumer {
    var stats: Stats
    var inbox: Inbox<Text>

    constructor (inbox: Inbox<Text>)
      ensures this.inbox == inbox && stats == Stats(0, 0, 0, 0, 0, 0, 0)
    {
      this.inbox := inbox;
      stats := Stats(0, 0, 0, 0, 0, 0, 0);
    }

    method ApplyOrderPlaced(incoming: Incoming<Text>, dbFails: bool) returns (result: ApplyResult)
      modifies this`inbox
      ensures result == ResultOf(old(inbox), AsStored(incoming), dbFails)
      ensures inbox == InboxAfter(old(inbox), AsStored(incoming), dbFails)
      ensures result.Duplicate? <==> !dbFails && AsStored(incoming).messageId in old(inbox).processed
      ensures result.Failed? <==>
                dbFails || (AsStored(incoming).messageId !in old(inbox).processed && Violates(old(inbox), AsStored(incoming)))
      ensures result.Applied? || result.AlreadyApplied? ==>
                inbox.processed == old(inbox).processed + {AsStored(incoming).messageId} && inbox.orders == old(inbox).orders
      ensures result.Applied? ==>
                && Value(incoming.orderId) !in old(inbox).receipts
                && inbox.receipts == old(inbox).receipts[Value(incoming.orderId) := Receipt(incoming.eventId, incoming.total)]
      ensures result.AlreadyApplied? ==> Value(incoming.orderId) in old(inbox).receipts && inbox.receipts == old(inbox).receipts
      ensures result.Failed? || result.Duplicate? ==> inbox == old(inbox)
    {
      if dbFails {
        return Failed;
      }
      var stored := AsStored(incoming);
      if stored.messageId in inbox.processed {
        return Duplicate;
      }
      var marked := inbox.(processed := inbox.processed + {stored.messageId});
      if Violates(inbox, stored) {
        return Failed;
      }
      var orderId := Value(incoming.orderId);
      if orderId in marked.receipts {
        inbox := marked;
        return AlreadyApplied;
      }
      inbox := marked.(receipts := marked.receipts[orderId := Receipt(incoming.eventId, incoming.total)]);
      result := Applied;
    }

    /**
     Handles one delivery. `effectThrows` says that the callback for an effect throws, which requeues a message whose
     effect has been committed. Poison is rejected for good and leaves no trace but its count.
     */
    method Handle(messageId: Option<Text>, body: Option<Json>, dbFails: bool, effectThrows: bool)
      returns (disposition: Disposition)
      modifies this
      ensures disposition == Disposal(old(inbox), ParseMessage(messageId, body), dbFails, effectThrows)
      ensures stats == StatsAfter(old(stats), old(inbox), ParseMessage(messageId, body), dbFails, effectThrows)
      ensures inbox == InboxOf(old(inbox), ParseMessage(messageId, body), dbFails)
      ensures disposition.Rejected? <==> ParseMessage(messageId, body).None?
      ensures disposition.Rejected? ==>
                inbox == old(inbox)
                && stats == old(stats).(delivered := old(stats).delivered + 1, rejected := old(stats).rejected + 1)
      ensures !disposition.Rejected? ==>
                var incoming := AsStored(ParseMessage(messageId, body).value);
                var order, known := Value(incoming.orderId), incoming.messageId in old(inbox).processed;
                var fails, isNew := !known && Violates(old(inbox), incoming), Value(incoming.orderId) !in old(inbox).receipts;
                && (disposition.Requeued? <==> dbFails || fails || (!known && isNew && effectThrows))
                && inbox.orders == old(inbox).orders
                && inbox.processed == (if dbFails || fails then old(inbox).processed
                                       else old(inbox).processed + {incoming.messageId})
                && inbox.receipts == (if dbFails || known || fails || !isNew then old(inbox).receipts
                                      else old(inbox).receipts[order := Receipt(incoming.eventId, incoming.total)])
                && stats == Stats(old(stats).delivered + 1,
                                  old(stats).effect + (if !dbFails && !known && !fails && isNew then 1 else 0),
                                  old(stats).skipped + (if !dbFails && known then 1 else 0),
                                  old(stats).alreadyApplied + (if !dbFails && !known && !fails && !isNew then 1 else 0),
                                  old(stats).rejected,
                                  old(stats).requeued + (if disposition.Requeued? then 1 else 0),
                                  old(stats).acked + (if disposition.Acked? then 1 else 0))
    {
      stats := stats.(delivered := stats.delivered + 1);
      var incoming := ParseMessage(messageId, body);
      if incoming.None? {
        stats := stats.(rejected := stats.rejected + 1);
        return Rejected;
      }
      var result := ApplyOrderPlaced(incoming.value, dbFails);
      match result {
        case Applied =>
          stats := stats.(effect := stats.effect + 1);
        case Duplicate =>
          stats := stats.(skipped := stats.skipped + 1);
        case AlreadyApplied =>
          stats := stats.(alreadyApplied := stats.alreadyApplied + 1);
        case Failed =>
      }
      if result.Failed? || (result.Applied? && effectThrows) {
        stats := stats.(requeued := stats.requeued + 1);
        return Requeued;
      }
      stats := stats.(acked := stats.acked + 1);
      disposition := Acked;
    }
  }

  function Disposal(inbox: Inbox<Text>, parsed: Option<Incoming<Text>>, dbFails: bool, effectThrows: bool): Disposition {
    match parsed
    case None => Rejected
    case Some(incoming) =>
      match ResultOf(inbox, AsStored(incoming), dbFails)
      case Failed => Requeued
      case Applied => if effectThrows then Requeued else Acked
      case Duplicate => Acked
      case AlreadyApplied => Acked
  }

  function StatsAfter(stats: Stats, inbox: Inbox<Text>, parsed: Option<Incoming<Text>>, dbFails: bool, effectThrows: bool)
    : Stats
  {
    var delivered := stats.(delivered := stats.delivered + 1);
    match parsed
    case None => delivered.(rejected := delivered.rejected + 1)
    case Some(incoming) =>
      match ResultOf(inbox, AsStored(incoming), dbFails)
      case Failed => delivered.(requeued := delivered.requeued + 1)
      case Applied =>
        if effectThrows then delivered.(effect := delivered.effect + 1, requeued := delivered.requeued + 1)
        else delivered.(effect := delivered.effect + 1, acked := delivered.acked + 1)
      case Duplicate => delivered.(skipped := delivered.skipped + 1, acked := delivered.acked + 1)
      case AlreadyApplied => delivered.(alreadyApplied := delivered.alreadyApplied + 1, acked := delivered.acked + 1)
  }

  // ----- the tables -----

  /** The constraints of `receipts`: its columns, its foreign key and its unique event ids. */
  ghost predicate ConstraintsHold<M>(inbox: Inbox<M>) {
    && (forall o | o in inbox.receipts ::
          o in inbox.orders && o <= 0x7FFF_FFFF_FFFF_FFFF && 0 <= inbox.receipts[o].total <= 0x7FFF_FFFF
          && 0 !in inbox.receipts[o].eventId)
    && (forall o, p | o in inbox.receipts && p in inbox.receipts && inbox.receipts[o].eventId == inbox.receipts[p].eventId ::
          o == p)
  }

  /** For an order without a receipt, the INSERT is refused exactly if the table could not hold the new row. */
  lemma RefusedIffTableCannotHoldIt<M>(inbox: Inbox<M>, incoming: Incoming<M>)
    requires ConstraintsHold(inbox) && Value(incoming.orderId) !in inbox.receipts
    ensures Violates(inbox, incoming) <==>
              !ConstraintsHold(inbox.(receipts :=
                inbox.receipts[Value(incoming.orderId) := Receipt(incoming.eventId, incoming.total)]))
  {
    var o := Value(incoming.orderId);
    var receipts := inbox.receipts[o := Receipt(incoming.eventId, incoming.total)];
    assert receipts[o] == Receipt(incoming.eventId, incoming.total);
    if p :| p in inbox.receipts && inbox.receipts[p].eventId == incoming.eventId {
      assert receipts[p].eventId == receipts[o].eventId && p != o;
    }
  }

  /** So the constraints hold after every delivery. */
  lemma HandlingKeepsConstraints<M>(inbox: Inbox<M>, incoming: Incoming<M>, dbFails: bool)
    requires ConstraintsHold(inbox)
    ensures ConstraintsHold(InboxAfter(inbox, incoming, dbFails))
  {
    if ResultOf(inbox, incoming, dbFails).Applied? {
      RefusedIffTableCannotHoldIt(inbox, incoming);
    }
  }

  /** The same character, or the same letter from A to F in another case. */
  predicate SameHexDigit(c: CodeUnit, d: CodeUnit) {
    c == d || (0x41 <= c <= 0x46 && d == c + 0x20) || (0x41 <= d <= 0x46 && c == d + 0x20)
  }

  /** Message ids are one and the same to the table exactly if they differ in the case of letters only. */
  lemma StoredIdsAgreeIffSameButForCase(a: Incoming<Text>, b: Incoming<Text>)
    ensures AsStored(a).messageId == AsStored(b).messageId
       <==> |a.messageId| == |b.messageId|
            && forall i | 0 <= i < |a.messageId| :: SameHexDigit(a.messageId[i], b.messageId[i])
    ensures AsStored(a).(messageId := a.messageId) == a
  {
    var x, y := AsStored(a).messageId, AsStored(b).messageId;
    if |x| == |y| {
      forall i | 0 <= i < |x|
        ensures x[i] == y[i] <==> SameHexDigit(a.messageId[i], b.messageId[i])
      {
      }
    }
  }

  // ----- a consumer over its life -----

  datatype Delivery = Delivery(messageId: Option<Text>, body: Option<Json>, dbFails: bool, effectThrows: bool)

  function InboxFrom(inbox: Inbox<Text>, deliveries: seq<Delivery>): Inbox<Text> {
    if deliveries == [] then inbox
    else
      var before := InboxFrom(inbox, deliveries[..|deliveries| - 1]);
      var d := deliveries[|deliveries| - 1];
      InboxOf(before, ParseMessage(d.messageId, d.body), d.dbFails)
  }

  function StatsFrom(inbox: Inbox<Text>, deliveries: seq<Delivery>): Stats {
    if deliveries == [] then Stats(0, 0, 0, 0, 0, 0, 0)
    else
      var front, d := deliveries[..|deliveries| - 1], deliveries[|deliveries| - 1];
      StatsAfter(StatsFrom(inbox, front), InboxFrom(inbox, front), ParseMessage(d.messageId, d.body), d.dbFails, d.effectThrows)
  }

  /** The counters agree with each other and with the receipts written since `start`. */
  predicate Balanced(s: Stats, start: Inbox<Text>, now: Inbox<Text>) {
    && s.delivered == s.acked + s.rejected + s.requeued
    && s.acked <= s.effect + s.skipped + s.alreadyApplied <= s.acked + s.requeued
    && s.effect == |now.receipts| - |start.receipts|
  }

  lemma ReceiptsAfter(inbox: Inbox<Text>, stored: Incoming<Text>, dbFails: bool)
    ensures |InboxAfter(inbox, stored, dbFails).receipts|
         == |inbox.receipts| + if ResultOf(inbox, stored, dbFails).Applied? then 1 else 0
  {
    var after := InboxAfter(inbox, stored, dbFails);
    if ResultOf(inbox, stored, dbFails).Applied? {
      assert after.receipts.Keys == inbox.receipts.Keys + {Value(stored.orderId)};
      assert |after.receipts| == |after.receipts.Keys| == |inbox.receipts| + 1;
    }
  }

  lemma DeliveryKeepsBalance(s: Stats, start: Inbox<Text>, inbox: Inbox<Text>, parsed: Option<Incoming<Text>>,
                             dbFails: bool, effectThrows: bool)
    requires Balanced(s, start, inbox)
    ensures Balanced(StatsAfter(s, inbox, parsed, dbFails, effectThrows), start, InboxOf(inbox, parsed, dbFails))
  {
    if parsed.Some? {
      ReceiptsAfter(inbox, AsStored(parsed.value), dbFails);
    }
  }

  /**
   The counters add up: every delivery was acknowledged, rejected or requeued, and every effect is a receipt that was
   not there before.
   */
  lemma {:induction false} CountersAddUp(inbox: Inbox<Text>, deliveries: seq<Delivery>)
    ensures StatsFrom(inbox, deliveries).delivered == |deliveries|
    ensures Balanced(StatsFrom(inbox, deliveries), inbox, InboxFrom(inbox, deliveries))
  {
    if deliveries != [] {
      var front, d := deliveries[..|deliveries| - 1], deliveries[|deliveries| - 1];
      CountersAddUp(inbox, front);
      DeliveryKeepsBalance(StatsFrom(inbox, front), inbox, InboxFrom(inbox, front), ParseMessage(d.messageId, d.body),
                           d.dbFails, d.effectThrows);
    }
  }
}
