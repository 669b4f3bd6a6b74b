/**
 Progress of the pipeline: which orders can still get their receipts if nothing more goes wrong, and that one run gives
 all of them theirs.
 */
module PipelineProgress {
  import opened Options
  import opened Text
  import opened Checkout
  import opened OrderPlaced
  import opened OrderPlacedConsumer
  import OutboxRelay
  import opened RelayBooks
  import opened OrderPlacedPublisher
  import opened OrderPipeline

  /** Nobody dies or gives up, the broker takes and confirms what it is sent, and the database answers. */
  ghost predicate Smooth(s: State, a: Action) {
    && Enabled(s, a)
    && match a
       case Publish(_, answer) => answer.Accepted?
       case Apply(_, dbFails) => !dbFails
       case Redeliver(_, exhausted) => !exhausted
       case Abort(_) => false
       case Crash(_) => false
       case Commit(_, _, _, _) => false
       case Relabel(_, _) => false
       case AnnounceAgain(_, _) => false
       case _ => true
  }

  ghost predicate RunsSmoothly(s: State, actions: seq<Action>, t: State)
    decreases |actions|
  {
    if actions == [] then s == t
    else Smooth(s, actions[0]) && RunsSmoothly(Next(s, actions[0]), actions[1..], t)
  }

  // ----- hope -----

  /** The row has tries left, also once a return that is about to be counted has been counted. */
  ghost predicate HasTriesLeft(b: Books, r: nat) {
    && r in b.outbox && OutboxRelay.Eligible(b.outbox[r])
    && forall p | p in b.relays && b.relays[p].row == r && b.relays[p].phase.Unroutable? ::
         b.outbox[r].attempts + 1 < OutboxRelay.RELAY_MAX_ATTEMPTS
  }

  ghost predicate IsMarkedNext(b: Books, r: nat) {
    exists p :: p in b.relays && b.relays[p] == Relay(r, Confirmed)
  }

  ghost predicate CanBeTried(b: Books, r: nat) {
    HasTriesLeft(b, r) && !IsMarkedNext(b, r)
  }

  /** The message is queued, or delivered and not answered. */
  ghost predicate IsLive(k: Broker, m: Message) {
    m in k.queue || exists tag :: tag in k.unacked && k.unacked[tag].message == m
  }

  ghost predicate RowIsHopeful(s: State, r: nat)
    requires r in s.books.announced
  {
    CanBeTried(s.books, r) || IsLive(s.broker, MessageOf(r, s.books.announced[r]))
  }

  /** The order has its receipt, or one of its rows can still be tried, or a message about it is live. */
  ghost predicate Hopeful(s: State, o: nat) {
    || o in s.inbox.receipts
    || exists r :: r in s.books.announced && s.books.announced[r].orderId == o && RowIsHopeful(s, r)
  }

  // ----- a smooth step neither gives hope nor takes it -----

  lemma SelectKeepsTries(s: State, a: Action, r: nat)
    requires Enabled(s, a) && a.Select?
    ensures CanBeTried(Next(s, a).books, r) <==> CanBeTried(s.books, r)
  {
    var b, c := s.books, Next(s, a).books;
    assert c.relays[a.relay] == Relay(a.row, Locked);
    assert forall p | p in b.relays :: c.relays[p] == b.relays[p];
  }

  /** What the holders of a row can do with it depends on nothing else. */
  lemma SameHoldersSameTries(b: Books, c: Books, relay: nat, r: nat)
    requires b.relays - {relay} == c.relays - {relay}
    requires relay in b.relays ==> b.relays[relay].row != r
    requires relay in c.relays ==> c.relays[relay].row != r
    requires r in b.outbox <==> r in c.outbox
    requires r in b.outbox ==> c.outbox[r] == b.outbox[r]
    ensures CanBeTried(c, r) <==> CanBeTried(b, r)
  {
    forall p
      ensures p in b.relays && b.relays[p].row == r <==> p in c.relays && c.relays[p].row == r
      ensures p in b.relays && b.relays[p].row == r ==> c.relays[p] == b.relays[p]
    {
      if p != relay {
        OtherRelay(b, c, relay, p);
      }
    }
  }

  lemma PublishKeepsOtherTries(b: Books, relay: nat, answer: Answer, r: nat)
    requires Holds(b, relay) && r != b.relays[relay].row
    ensures CanBeTried(Publishes(b, relay, answer), r) <==> CanBeTried(b, r)
  {
    PublishFrame(b, relay, answer, Publishes(b, relay, answer));
    SameHoldersSameTries(b, Publishes(b, relay, answer), relay, r);
  }

  lemma LockedRowCanBeTried(b: Books, relay: nat)
    requires LocksInv(b) && relay in b.relays && b.relays[relay].phase.Locked?
    ensures CanBeTried(b, b.relays[relay].row)
  {
  }

  lemma PublishKeepsOtherLive(s: State, a: Action, m: Message)
    requires Enabled(s, a) && a.Publish? && m.Event? && m.incoming.messageId != s.books.relays[a.relay].row
    ensures IsLive(Next(s, a).broker, m) <==> IsLive(s.broker, m)
  {
  }

  lemma AcceptedMessageIsLive(s: State, a: Action)
    requires RowsInv(s.books) && Enabled(s, a) && a.Publish? && a.answer.Accepted?
    ensures var row := s.books.relays[a.relay].row;
            row in s.books.announced && IsLive(Next(s, a).broker, MessageOf(row, s.books.announced[row]))
  {
    assert RowInv(s.books, s.books.relays[a.relay].row);
  }

  lemma PublishTurnsTryIntoMessage(s: State, a: Action, r: nat)
    requires Inv(s) && Smooth(s, a) && a.Publish? && r in s.books.announced
    ensures r in Next(s, a).books.announced && (RowIsHopeful(Next(s, a), r) <==> RowIsHopeful(s, r))
  {
    var b, row := s.books, s.books.relays[a.relay].row;
    AnnouncedStays(s, a, Next(s, a), r);
    if r == row {
      LockedRowCanBeTried(b, a.relay);
      AcceptedMessageIsLive(s, a);
    } else {
      PublishKeepsOtherTries(b, a.relay, a.answer, r);
      PublishKeepsOtherLive(s, a, MessageOf(r, b.announced[r]));
    }
  }

  lemma EndKeepsTries(s: State, a: Action, r: nat)
    requires LocksInv(s.books) && Enabled(s, a) && (a.Mark? || a.CountReturn?)
    ensures CanBeTried(Next(s, a).books, r) <==> CanBeTried(s.books, r)
  {
    var b, c := s.books, Next(s, a).books;
    var row := b.relays[a.relay].row;
    assert c.relays == b.relays - {a.relay};
    if r == row {
      assert forall p | p in c.relays :: c.relays[p].row != row;
      if a.Mark? {
        assert IsMarkedNext(b, r);
      } else {
        assert forall p | p in b.relays && b.relays[p].row == row :: p == a.relay;
      }
    } else {
      assert b.relays - {a.relay} == c.relays - {a.relay};
      SameHoldersSameTries(b, c, a.relay, r);
    }
  }

  lemma OtherStepKeepsTries(s: State, a: Action, r: nat)
    requires Smooth(s, a) && !a.Select? && !a.Publish? && !a.Mark? && !a.CountReturn?
    ensures CanBeTried(Next(s, a).books, r) <==> CanBeTried(s.books, r)
  {
    assert Next(s, a).books.relays == s.books.relays;
  }

  /** A message stays live until it is acknowledged, or refused as a foreign one. */
  lemma LiveStays(s: State, a: Action, m: Message)
    requires Smooth(s, a) && m.Event? && IsLive(s.broker, m)
    ensures IsLive(Next(s, a).broker, m) || (a.Ack? && s.broker.unacked[a.tag].message == m)
  {
    var k, after := s.broker, Next(s, a).broker;
    if tag :| tag in k.unacked && k.unacked[tag].message == m {
      if a.Redeliver? && a.tag == tag {
        assert m in after.queue;
      } else if !a.Ack? || a.tag != tag {
        assert tag in after.unacked && after.unacked[tag].message == m;
      }
    } else if a.Deliver? && a.message == m {
      assert after.unacked[a.tag].message == m;
    } else {
      assert m in after.queue;
    }
  }

  lemma LiveBefore(s: State, a: Action, m: Message)
    requires Smooth(s, a) && !a.Publish? && m.Event? && IsLive(Next(s, a).broker, m)
    ensures IsLive(s.broker, m)
  {
    var k, after := s.broker, Next(s, a).broker;
    if tag :| tag in after.unacked && after.unacked[tag].message == m {
      assert (a.Deliver? && a.tag == tag && m in k.queue) || (tag in k.unacked && k.unacked[tag].message == m);
    } else {
      assert m in k.queue || (a.Redeliver? && k.unacked[a.tag].message == m);
    }
  }

  lemma StepKeepsTries(s: State, a: Action, r: nat)
    requires LocksInv(s.books) && Smooth(s, a) && !a.Publish?
    ensures CanBeTried(Next(s, a).books, r) <==> CanBeTried(s.books, r)
  {
    if a.Select? {
      SelectKeepsTries(s, a, r);
    } else if a.Mark? || a.CountReturn? {
      EndKeepsTries(s, a, r);
    } else {
      OtherStepKeepsTries(s, a, r);
    }
  }

  lemma StepKeepsRowHope(s: State, a: Action, r: nat)
    requires Inv(s) && Smooth(s, a) && r in s.books.announced
    ensures r in Next(s, a).books.announced
    ensures RowIsHopeful(Next(s, a), r) ==> RowIsHopeful(s, r)
    ensures RowIsHopeful(s, r) ==> RowIsHopeful(Next(s, a), r) || s.books.announced[r].orderId in s.inbox.receipts
  {
    if a.Publish? {
      PublishTurnsTryIntoMessage(s, a, r);
    } else {
      StepKeepsTries(s, a, r);
      AnnouncedStays(s, a, Next(s, a), r);
      var m := MessageOf(r, s.books.announced[r]);
      if IsLive(Next(s, a).broker, m) {
        LiveBefore(s, a, m);
      }
      if IsLive(s.broker, m) {
        LiveStays(s, a, m);
        if a.Ack? && s.broker.unacked[a.tag].message == m {
          AckedIsReceipted(s, a.tag, r);
        }
      }
    }
  }

  /** A new receipt is for an order whose message was live. */
  lemma NewReceiptWasHoped(s: State, a: Action, o: nat)
    requires Inv(s) && Smooth(s, a) && o in Next(s, a).inbox.receipts && o !in s.inbox.receipts
    ensures Hopeful(s, o)
  {
    assert a.Apply?;
    ApplyEffect(s, a, Next(s, a));
    var message := s.broker.unacked[a.tag].message;
    assert Underway(s, message);
    ReceiptOfGenuine(s, message);
    assert RowIsHopeful(s, message.incoming.messageId);
  }

  lemma StepKeepsHope(s: State, a: Action, o: nat)
    requires Inv(s) && Smooth(s, a)
    ensures Hopeful(Next(s, a), o) <==> Hopeful(s, o)
  {
    var t := Next(s, a);
    ReceiptsStay(s, a, t);
    forall r | r in s.books.announced
      ensures r in t.books.announced
      ensures RowIsHopeful(t, r) ==> RowIsHopeful(s, r)
      ensures RowIsHopeful(s, r) ==> RowIsHopeful(t, r) || s.books.announced[r].orderId in s.inbox.receipts
    {
      StepKeepsRowHope(s, a, r);
    }
    SmoothStepAnnouncesNothing(s, a);
    if o in t.inbox.receipts && o !in s.inbox.receipts {
      NewReceiptWasHoped(s, a, o);
    }
  }

  lemma SmoothStepAnnouncesNothing(s: State, a: Action)
    requires Smooth(s, a)
    ensures Next(s, a).books.announced == s.books.announced && Next(s, a).db == s.db
  {
  }

  lemma {:induction false} RunKeepsHope(s: State, actions: seq<Action>, t: State, o: nat)
    requires Inv(s) && RunsSmoothly(s, actions, t)
    ensures Inv(t) && t.db == s.db && (o in s.inbox.receipts ==> o in t.inbox.receipts)
    ensures Hopeful(t, o) <==> Hopeful(s, o)
    decreases |actions|
  {
    if actions != [] {
      var next := Next(s, actions[0]);
      StepKeepsInv(s, actions[0], next);
      StepKeepsHope(s, actions[0], o);
      SmoothStepAnnouncesNothing(s, actions[0]);
      ReceiptsStay(s, actions[0], next);
      RunKeepsHope(next, actions[1..], t, o);
    }
  }

  // ----- the next step towards a receipt -----

  lemma {:induction false} FreshNat(used: set<nat>) returns (n: nat)
    ensures forall x | x in used :: x < n
  {
    if used == {} {
      n := 0;
    } else {
      var x :| x in used;
      var rest := FreshNat(used - {x});
      n := if x < rest then rest else x + 1;
      forall y | y in used
        ensures y < n
      {
        assert y == x || y in used - {x};
      }
    }
  }

  ghost predicate IsUnhandled(s: State, m: Message) {
    exists tag :: tag in s.broker.unacked && s.broker.unacked[tag] == Delivered(m, None)
  }

  /** How many steps the event of a row is from its receipt. */
  ghost function Stage(s: State, r: nat): nat
    requires r in s.books.announced
  {
    var m := MessageOf(r, s.books.announced[r]);
    if s.books.announced[r].orderId in s.inbox.receipts then 0
    else if IsUnhandled(s, m) then 1
    else if m in s.broker.queue then 2
    else if IsLive(s.broker, m) then 3
    else if exists p :: p in s.books.relays && s.books.relays[p] == Relay(r, Locked) then 4
    else if !IsLocked(s.books, r) then 5
    else 6
  }

  lemma ApplyGivesReceipt(s: State, tag: nat)
    requires Inv(s) && Enabled(s, Apply(tag, false))
    ensures Value(s.broker.unacked[tag].message.incoming.orderId) in Next(s, Apply(tag, false)).inbox.receipts
  {
    DeliveredIsReceipted(s, tag, false);
    DeliveredNeverViolates(s, tag);
    ResultMeansReceipt(s.inbox, s.broker.unacked[tag].message.incoming, false);
  }

  ghost predicate Advances(s: State, a: Action, r: nat)
    requires r in s.books.announced
  {
    Smooth(s, a) && r in Next(s, a).books.announced && Stage(Next(s, a), r) < Stage(s, r)
  }

  lemma UnhandledIsApplied(s: State, r: nat) returns (a: Action)
    requires Inv(s) && r in s.books.announced && IsUnhandled(s, MessageOf(r, s.books.announced[r]))
    requires s.books.announced[r].orderId !in s.inbox.receipts
    ensures Advances(s, a, r)
  {
    var tag :| tag in s.broker.unacked && s.broker.unacked[tag] == Delivered(MessageOf(r, s.books.announced[r]), None);
    a := Apply(tag, false);
    ValueOfDecimal(s.books.announced[r].orderId);
    ApplyGivesReceipt(s, tag);
    AnnouncedStays(s, a, Next(s, a), r);
  }

  lemma QueuedIsDelivered(s: State, r: nat) returns (a: Action)
    requires r in s.books.announced && MessageOf(r, s.books.announced[r]) in s.broker.queue
    requires s.books.announced[r].orderId !in s.inbox.receipts && !IsUnhandled(s, MessageOf(r, s.books.announced[r]))
    ensures Advances(s, a, r)
  {
    var tag := FreshNat(s.broker.unacked.Keys);
    assert tag !in s.broker.unacked.Keys;
    a := Deliver(tag, MessageOf(r, s.books.announced[r]));
    assert Next(s, a).broker.unacked[tag] == Delivered(a.message, None);
  }

  lemma FailedIsRedelivered(s: State, r: nat) returns (a: Action)
    requires HandledInv(s) && r in s.books.announced && IsLive(s.broker, MessageOf(r, s.books.announced[r]))
    requires MessageOf(r, s.books.announced[r]) !in s.broker.queue && !IsUnhandled(s, MessageOf(r, s.books.announced[r]))
    requires s.books.announced[r].orderId !in s.inbox.receipts
    ensures Advances(s, a, r)
  {
    var m := MessageOf(r, s.books.announced[r]);
    var tag :| tag in s.broker.unacked && s.broker.unacked[tag].message == m;
    a := Redeliver(tag, false);
    assert m in Next(s, a).broker.queue;
  }

  lemma IdleRowIsSelected(s: State, r: nat) returns (a: Action)
    requires r in s.books.announced && CanBeTried(s.books, r) && !IsLocked(s.books, r)
    requires !IsLive(s.broker, MessageOf(r, s.books.announced[r])) && s.books.announced[r].orderId !in s.inbox.receipts
    ensures Advances(s, a, r)
  {
    var p := FreshNat(s.books.relays.Keys);
    assert p !in s.books.relays.Keys;
    a := Select(p, r);
    assert Next(s, a).books.relays[p] == Relay(r, Locked);
  }

  lemma LockedRowIsPublished(s: State, p: nat, r: nat) returns (a: Action)
    requires RowsInv(s.books) && r in s.books.announced && p in s.books.relays && s.books.relays[p] == Relay(r, Locked)
    requires r in s.books.outbox
    requires !IsLive(s.broker, MessageOf(r, s.books.announced[r])) && s.books.announced[r].orderId !in s.inbox.receipts
    ensures Advances(s, a, r)
  {
    a := Publish(p, Accepted);
    AcceptedMessageIsLive(s, a);
    AnnouncedStays(s, a, Next(s, a), r);
  }

  lemma ReturnIsCounted(s: State, r: nat) returns (a: Action)
    requires LocksInv(s.books) && r in s.books.announced && CanBeTried(s.books, r) && IsLocked(s.books, r)
    requires !exists p :: p in s.books.relays && s.books.relays[p] == Relay(r, Locked)
    requires !IsLive(s.broker, MessageOf(r, s.books.announced[r])) && s.books.announced[r].orderId !in s.inbox.receipts
    ensures Advances(s, a, r)
  {
    var p :| p in s.books.relays && s.books.relays[p].row == r;
    assert s.books.relays[p] != Relay(r, Locked) && s.books.relays[p] != Relay(r, Confirmed);
    a := CountReturn(p);
    assert Next(s, a).books.relays == s.books.relays - {p};
    assert !IsLocked(Next(s, a).books, r);
  }

  /** A live message is handled, delivered, or sent back to the queue; a row is published, locked, or has a return counted. */
  lemma SomeStepAdvances(s: State, r: nat) returns (a: Action)
    requires Inv(s) && r in s.books.announced && RowIsHopeful(s, r) && s.books.announced[r].orderId !in s.inbox.receipts
    ensures Advances(s, a, r)
  {
    var m := MessageOf(r, s.books.announced[r]);
    if IsLive(s.broker, m) {
      if IsUnhandled(s, m) {
        a := UnhandledIsApplied(s, r);
      } else if m in s.broker.queue {
        a := QueuedIsDelivered(s, r);
      } else {
        a := FailedIsRedelivered(s, r);
      }
    } else if p :| p in s.books.relays && s.books.relays[p] == Relay(r, Locked) {
      a := LockedRowIsPublished(s, p, r);
    } else if IsLocked(s.books, r) {
      a := ReturnIsCounted(s, r);
    } else {
      a := IdleRowIsSelected(s, r);
    }
  }

  lemma {:induction false} RowReachesReceipt(s: State, r: nat) returns (actions: seq<Action>, t: State)
    requires Inv(s) && r in s.books.announced
    requires RowIsHopeful(s, r) || s.books.announced[r].orderId in s.inbox.receipts
    ensures RunsSmoothly(s, actions, t) && s.books.announced[r].orderId in t.inbox.receipts
    decreases Stage(s, r)
  {
    if s.books.announced[r].orderId in s.inbox.receipts {
      return [], s;
    }
    var a := SomeStepAdvances(s, r);
    var next := Next(s, a);
    StepKeepsInv(s, a, next);
    StepKeepsRowHope(s, a, r);
    AnnouncedStays(s, a, next, r);
    ReceiptsStay(s, a, next);
    var rest;
    rest, t := RowReachesReceipt(next, r);
    actions := [a] + rest;
    assert actions[1..] == rest;
  }

  // ----- results -----

  lemma OrderReachesReceipt(s: State, o: nat) returns (actions: seq<Action>, t: State)
    requires Inv(s) && Hopeful(s, o)
    ensures RunsSmoothly(s, actions, t) && o in t.inbox.receipts
  {
    if o in s.inbox.receipts {
      return [], s;
    }
    var r :| r in s.books.announced && s.books.announced[r].orderId == o && RowIsHopeful(s, r);
    actions, t := RowReachesReceipt(s, r);
  }

  lemma OnlyHopefulOrdersReachReceipts(s: State, actions: seq<Action>, t: State, o: nat)
    requires Inv(s) && RunsSmoothly(s, actions, t) && o in t.inbox.receipts
    ensures Hopeful(s, o)
  {
    RunKeepsHope(s, actions, t, o);
  }

  ghost predicate CanGetReceipt(s: State, o: nat) {
    exists actions, t :: RunsSmoothly(s, actions, t) && o in t.inbox.receipts
  }

  /**
   An order can get its receipt without anything going wrong if and only if it has it, one of its rows has tries left,
   or a message about it is live: a dead-lettered event and a row with ten attempts need somebody's help.
   */
  lemma ReceiptIsReachableIffHopeful(s: State, o: nat)
    requires Reachable(s)
    ensures CanGetReceipt(s, o) <==> Hopeful(s, o)
  {
    ReachableInv(s);
    if CanGetReceipt(s, o) {
      var actions, t :| RunsSmoothly(s, actions, t) && o in t.inbox.receipts;
      OnlyHopefulOrdersReachReceipts(s, actions, t, o);
    } else if Hopeful(s, o) {
      var actions, t := OrderReachesReceipt(s, o);
    }
  }

  lemma {:induction false} SmoothRunsCompose(s: State, first: seq<Action>, t: State, second: seq<Action>, u: State)
    requires RunsSmoothly(s, first, t) && RunsSmoothly(t, second, u)
    ensures RunsSmoothly(s, first + second, u)
    decreases |first|
  {
    if first == [] {
      assert first + second == second;
    } else {
      SmoothRunsCompose(Next(s, first[0]), first[1..], t, second, u);
      assert (first + second)[1..] == first[1..] + second;
    }
  }

  /** The orders that hope for a receipt and do not have it yet. */
  ghost function Waiting(s: State): set<nat> {
    set o | o in OrderIds(s.db.orders) && Hopeful(s, o) && o !in s.inbox.receipts
  }

  lemma RunLessWaiting(s: State, actions: seq<Action>, t: State)
    requires Inv(s) && RunsSmoothly(s, actions, t)
    ensures Inv(t) && t.db == s.db && Waiting(t) <= Waiting(s)
    ensures forall o :: Hopeful(t, o) <==> Hopeful(s, o)
  {
    RunKeepsHope(s, actions, t, 0);
    forall o
      ensures o in s.inbox.receipts ==> o in t.inbox.receipts
      ensures Hopeful(t, o) <==> Hopeful(s, o)
    {
      RunKeepsHope(s, actions, t, o);
    }
  }

  lemma {:induction false} AllWaitingGetReceipts(s: State) returns (actions: seq<Action>, t: State)
    requires Inv(s)
    ensures RunsSmoothly(s, actions, t) && Waiting(t) == {}
    decreases Waiting(s)
  {
    if Waiting(s) == {} {
      return [], s;
    }
    var o :| o in Waiting(s);
    var first, next := OrderReachesReceipt(s, o);
    RunLessWaiting(s, first, next);
    assert o !in Waiting(next);
    var rest;
    rest, t := AllWaitingGetReceipts(next);
    SmoothRunsCompose(s, first, next, rest, t);
    actions := first + rest;
  }

  lemma ReceiptIsForAnOrder(s: State, o: nat)
    requires Inv(s) && o in s.inbox.receipts
    ensures o in OrderIds(s.db.orders)
  {
    assert Receipted(s, o);
    var r :| r in s.books.announced && s.books.announced[r].orderId == o;
    var i :| 0 <= i < |s.db.orders| && s.db.orders[i].id == s.books.announced[r].orderId;
  }

  /** One run gives every order its receipt that can get one. */
  lemma OneRunGivesAllReceipts(s: State) returns (actions: seq<Action>, t: State)
    requires Reachable(s)
    ensures RunsSmoothly(s, actions, t)
    ensures t.inbox.receipts.Keys == set o | o in OrderIds(s.db.orders) && Hopeful(s, o)
  {
    ReachableInv(s);
    actions, t := AllWaitingGetReceipts(s);
    RunLessWaiting(s, actions, t);
    forall o
      ensures o in t.inbox.receipts <==> o in OrderIds(s.db.orders) && Hopeful(s, o)
    {
      if o in t.inbox.receipts {
        ReceiptIsForAnOrder(t, o);
        assert Hopeful(t, o);
      } else {
        assert o !in Waiting(t);
      }
    }
  }

  /** Every row that is still to be published has tries left, and no event has been dead-lettered. */
  ghost predicate NothingIsGivenUp(s: State) {
    && (forall r | r in s.books.outbox && s.books.outbox[r].publishedAt.None? :: HasTriesLeft(s.books, r))
    && (forall m | m in s.broker.dead :: m.Foreign?)
  }

  lemma CopiedRowIsHopeful(s: State, r: nat)
    requires Inv(s) && NothingIsGivenUp(s) && r in s.books.announced && r in s.books.copies
    ensures RowIsHopeful(s, r) || s.books.announced[r].orderId in s.inbox.receipts
  {
    assert Carried(s, r);
  }

  lemma NotGivenUpIsHopeful(s: State, o: nat)
    requires Inv(s) && NothingIsGivenUp(s) && o in OrderIds(s.db.orders)
    ensures Hopeful(s, o)
  {
    var r :| r in s.books.announced && s.books.announced[r].orderId == o;
    if r in s.books.copies {
      CopiedRowIsHopeful(s, r);
    } else {
      assert CopiesBalance(s.books, r);
      assert r in s.books.outbox && RowInv(s.books, r);
      assert !HoldsSent(s.books, r);
      assert CanBeTried(s.books, r);
    }
  }

  /** So where nothing has been given up, all orders can still get their receipts, in one run. */
  lemma AllOrdersCanGetReceipts(s: State) returns (actions: seq<Action>, t: State)
    requires Reachable(s) && NothingIsGivenUp(s)
    ensures RunsSmoothly(s, actions, t) && t.inbox.receipts.Keys == OrderIds(s.db.orders)
  {
    ReachableInv(s);
    forall o | o in OrderIds(s.db.orders)
      ensures Hopeful(s, o)
    {
      NotGivenUpIsHopeful(s, o);
    }
    actions, t := OneRunGivesAllReceipts(s);
  }
}
