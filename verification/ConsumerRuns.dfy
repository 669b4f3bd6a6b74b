/** A delivery that the consumer handles undisturbed is a run of the pipeline: delivered, applied, and answered. */
module ConsumerRuns {
  import opened Options
  import opened Text
  import opened CanonicalJson
  import opened Checkout
  import opened OrderPlaced
  import opened OrderPlacedConsumer
  import opened RelayBooks
  import opened OrderPipeline

  /** The ids of these outbox rows as uuids, in the spelling of the uuid column. */
  ghost predicate AreNames(names: nat -> Text, ids: set<nat>) {
    && (forall q, r | q in ids && r in ids && names(q) == names(r) :: q == r)
    && forall r | r in ids :: IsUuid(names(r)) && IsStored(names(r))
  }

  ghost predicate IsStored(id: Text) {
    forall i | 0 <= i < |id| :: !(0x41 <= id[i] <= 0x46)
  }

  function Named(inbox: Inbox<nat>, names: nat -> Text): Inbox<Text> {
    Inbox(set r | r in inbox.processed :: names(r), inbox.receipts, inbox.orders)
  }

  function NamedEvent(incoming: Incoming<nat>, names: nat -> Text): Incoming<Text> {
    Incoming(names(incoming.messageId), incoming.eventId, incoming.orderId, incoming.total)
  }

  lemma NamedIsProcessed(inbox: Inbox<nat>, names: nat -> Text, ids: set<nat>, r: nat)
    requires AreNames(names, ids) && inbox.processed <= ids && r in ids
    ensures names(r) in Named(inbox, names).processed <==> r in inbox.processed
  {
  }

  lemma StoredStays(incoming: Incoming<Text>)
    requires IsStored(incoming.messageId)
    ensures AsStored(incoming) == incoming
  {
    assert AsStored(incoming).messageId == incoming.messageId;
  }

  /** The consumer's transaction does the same to an inbox of numbers and to one of names. */
  lemma NamedInboxAfter(inbox: Inbox<nat>, names: nat -> Text, ids: set<nat>, incoming: Incoming<nat>, dbFails: bool)
    requires AreNames(names, ids) && inbox.processed <= ids && incoming.messageId in ids
    ensures var named := NamedEvent(incoming, names);
            && ResultOf(Named(inbox, names), named, dbFails) == ResultOf(inbox, incoming, dbFails)
            && InboxAfter(Named(inbox, names), named, dbFails) == Named(InboxAfter(inbox, incoming, dbFails), names)
  {
    var r := incoming.messageId;
    NamedIsProcessed(inbox, names, ids, r);
    var marked := inbox.(processed := inbox.processed + {r});
    assert Named(marked, names).processed == Named(inbox, names).processed + {names(r)};
  }

  /** What an answer does to a message that was queued: it goes, is dead-lettered, or comes back while it may. */
  function Answered(k: Broker, m: Message, disposition: Disposition, exhausted: bool): Broker {
    match disposition
    case Acked => k.(queue := k.queue - multiset{m})
    case Rejected => k.(queue := k.queue - multiset{m}, dead := k.dead + multiset{m})
    case Requeued => if exhausted then k.(queue := k.queue - multiset{m}, dead := k.dead + multiset{m}) else k
  }

  lemma FreshTagGoes(k: Broker, tag: nat, delivered: Delivered)
    requires tag !in k.unacked
    ensures k.unacked[tag := delivered] - {tag} == k.unacked
  {
  }

  /** The broker's side of a delivery and its answer. */
  lemma DeliveredAndAnswered(k: Broker, tag: nat, m: Message, result: Option<ApplyResult>, exhausted: bool)
    requires tag !in k.unacked && m in k.queue
    ensures var applied := Delivers(k, tag, m).(unacked := k.unacked[tag := Delivered(m, result)]);
            && applied.(unacked := applied.unacked - {tag}) == Answered(k, m, Acked, exhausted)
            && Refuses(applied, tag) == Answered(k, m, Rejected, exhausted)
            && Redelivers(applied, tag, exhausted) == Answered(k, m, Requeued, exhausted)
  {
    FreshTagGoes(k, tag, Delivered(m, result));
    assert k.queue - multiset{m} + multiset{m} == k.queue;
  }

  /** Delivered and applied: the state in which the consumer answers. */
  lemma DeliveredAndApplied(s: State, tag: nat, m: Message, dbFails: bool) returns (actions: seq<Action>, t: State)
    requires tag !in s.broker.unacked && m in s.broker.queue && m.Event?
    ensures Executes(s, actions, t)
    ensures var result := ResultOf(s.inbox, m.incoming, dbFails);
            t == s.(broker := Delivers(s.broker, tag, m).(unacked := s.broker.unacked[tag := Delivered(m, Some(result))]),
                    inbox := InboxAfter(s.inbox, m.incoming, dbFails),
                    effects := if result.Applied? then s.effects + [Value(m.incoming.orderId)] else s.effects)
  {
    var deliver, apply := Deliver(tag, m), Apply(tag, dbFails);
    OneStepIsARun(s, deliver);
    var delivered := Next(s, deliver);
    assert delivered.broker.unacked[tag] == Delivered(m, None);
    RunGoesOn(s, [deliver], delivered, apply);
    actions, t := [deliver] + [apply], Next(delivered, apply);
    var result := ResultOf(s.inbox, m.incoming, dbFails);
    assert t.broker.unacked == s.broker.unacked[tag := Delivered(m, Some(result))];
  }

  /** What the handling of one message does to the pipeline. */
  ghost predicate HandlesDelivery(s: State, m: Message, disposition: Disposition, exhausted: bool, t: State) {
    t.broker == Answered(s.broker, m, disposition, exhausted) && t.books == s.books && t.db == s.db && t.now == s.now
  }

  lemma EventIsHandled(s: State, tag: nat, m: Message, dbFails: bool, effectThrows: bool, exhausted: bool)
    returns (actions: seq<Action>, t: State)
    requires tag !in s.broker.unacked && m in s.broker.queue && m.Event?
    ensures Executes(s, actions, t) && t.inbox == InboxAfter(s.inbox, m.incoming, dbFails)
    ensures var result := ResultOf(s.inbox, m.incoming, dbFails);
            && t.effects == (if result.Applied? then s.effects + [Value(m.incoming.orderId)] else s.effects)
            && HandlesDelivery(s, m, if result.Failed? || (result.Applied? && effectThrows) then Requeued else Acked, exhausted, t)
  {
    var first, applied := DeliveredAndApplied(s, tag, m, dbFails);
    var result := ResultOf(s.inbox, m.incoming, dbFails);
    DeliveredAndAnswered(s.broker, tag, m, Some(result), exhausted);
    var answer := if result.Failed? || (result.Applied? && effectThrows) then Redeliver(tag, exhausted) else Ack(tag);
    assert applied.broker.unacked[tag] == Delivered(m, Some(result));
    RunGoesOn(s, first, applied, answer);
    actions, t := first + [answer], Next(applied, answer);
  }

  /** The transaction of an announced event, if it goes through, leaves the order with a receipt. */
  lemma AnnouncedGetsReceipt(s: State, m: Message)
    requires Reachable(s) && m in s.broker.queue && m.Event?
    ensures m.incoming.messageId in s.books.announced
    ensures !ResultOf(s.inbox, m.incoming, false).Failed?
    ensures s.books.announced[m.incoming.messageId].orderId in InboxAfter(s.inbox, m.incoming, false).receipts
  {
    ReachableInv(s);
    assert Underway(s, m);
    GenuineNeverViolates(s, m);
    ReceiptOfGenuine(s, m);
    ResultMeansReceipt(s.inbox, m.incoming, false);
  }

  lemma MarksAreForRows(s: State)
    requires Reachable(s)
    ensures s.inbox.processed <= s.books.announced.Keys
  {
    ReachableInv(s);
  }

  /**
   What `Consumer.Handle` promises of an announced event is what the pipeline does when nobody interferes: its inbox, its
   answer, and the broker's queue after it.
   */
  lemma LoneDeliveryIsARun(s: State, tag: nat, r: nat, names: nat -> Text, occurredAt: Text, sent: Json,
                           dbFails: bool, effectThrows: bool, exhausted: bool)
    returns (actions: seq<Action>, t: State)
    requires Reachable(s) && AreNames(names, s.books.announced.Keys) && tag !in s.broker.unacked
    requires r in s.books.announced && MessageOf(r, s.books.announced[r]) in s.broker.queue
    requires Same(sent, ToOrderPlacedEvent(s.books.announced[r], occurredAt))
    ensures Executes(s, actions, t)
    ensures var inbox, parsed := Named(s.inbox, names), ParseMessage(Some(names(r)), Some(sent));
            && Named(t.inbox, names) == InboxOf(inbox, parsed, dbFails)
            && HandlesDelivery(s, MessageOf(r, s.books.announced[r]), Disposal(inbox, parsed, dbFails, effectThrows),
                               exhausted, t)
  {
    var m := MessageOf(r, s.books.announced[r]);
    AnnouncedEventsParse(s, r, occurredAt, names(r), sent);
    StoredStays(NamedEvent(m.incoming, names));
    MarksAreForRows(s);
    NamedInboxAfter(s.inbox, names, s.books.announced.Keys, m.incoming, dbFails);
    actions, t := EventIsHandled(s, tag, m, dbFails, effectThrows, exhausted);
  }

  /**
   Where an announced event goes: if the database fails, back to the queue as if nothing had happened, or to the dead letters
   once its deliveries are used up; if it does not and no callback throws, out of the queue, with the receipt written.
   */
  lemma LoneEventEndsInReceiptOrQueue(s: State, tag: nat, m: Message, dbFails: bool, exhausted: bool)
    returns (actions: seq<Action>, t: State)
    requires Reachable(s) && tag !in s.broker.unacked && m in s.broker.queue && m.Event?
    ensures Executes(s, actions, t) && m.incoming.messageId in s.books.announced && t.broker.unacked == s.broker.unacked
    ensures dbFails && !exhausted ==> t == s
    ensures dbFails && exhausted ==>
              t.broker.queue == s.broker.queue - multiset{m} && t.broker.dead == s.broker.dead + multiset{m} && t.inbox == s.inbox
    ensures !dbFails ==>
              t.broker.queue == s.broker.queue - multiset{m} && t.broker.dead == s.broker.dead
              && s.books.announced[m.incoming.messageId].orderId in t.inbox.receipts
  {
    AnnouncedGetsReceipt(s, m);
    actions, t := EventIsHandled(s, tag, m, dbFails, false, exhausted);
  }

  /**
   A message that `ParseMessage` refuses leaves the queue for good: it is one more dead letter, as `Consumer.Handle` answers,
   and neither the inbox nor anything else has changed.
   */
  lemma LoneForeignIsARun(s: State, tag: nat, m: Message, messageId: Option<Text>, body: Option<Json>, names: nat -> Text,
                          dbFails: bool, effectThrows: bool)
    returns (actions: seq<Action>, t: State)
    requires tag !in s.broker.unacked && m.Foreign? && m in s.broker.queue && ParseMessage(messageId, body).None?
    ensures Executes(s, actions, t)
    ensures var inbox, parsed := Named(s.inbox, names), ParseMessage(messageId, body);
            && Named(t.inbox, names) == InboxOf(inbox, parsed, dbFails)
            && HandlesDelivery(s, m, Disposal(inbox, parsed, dbFails, effectThrows), false, t)
    ensures t.broker.queue == s.broker.queue - multiset{m} && t.broker.dead == s.broker.dead + multiset{m}
    ensures t == s.(broker := Broker(t.broker.queue, s.broker.unacked, t.broker.dead))
  {
    var deliver, refuse := Deliver(tag, m), Refuse(tag);
    OneStepIsARun(s, deliver);
    var delivered := Next(s, deliver);
    RunGoesOn(s, [deliver], delivered, refuse);
    DeliveredAndAnswered(s.broker, tag, m, None, false);
    actions, t := [deliver] + [refuse], Next(delivered, refuse);
  }
}
