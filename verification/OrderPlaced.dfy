/** The order.placed event: how checkout writes it and what the consumer demands of a message. */
module OrderPlaced {
  import opened Options
  import opened Sorting
  import opened Text
  import opened CanonicalJson
  import opened Checkout

  /** A text of ASCII characters. */
  function Ascii(s: string): Text
    requires forall i | 0 <= i < |s| :: s[i] < 128 as char
  {
    seq(|s|, i requires 0 <= i < |s| => s[i] as int)
  }

  /** What a message is read as. The id of the message may be a text or any other token. */
  datatype Incoming<M> = Incoming(messageId: M, eventId: Text, orderId: Id, total: int)

  // ----- writing -----

  function EventId(orderId: nat): Text {
    Ascii("order.placed:") + Decimal(orderId)
  }

  function ItemJson(item: Item): Json {
    Obj([Field(Ascii("productId"), Str(Decimal(item.productId))),
         Field(Ascii("quantity"), Num(item.quantity)),
         Field(Ascii("unitPrice"), Num(item.unitPrice))])
  }

  function DataJson(a: Announcement): Json {
    Obj([Field(Ascii("orderId"), Str(Decimal(a.orderId))),
         Field(Ascii("userId"), Str(Decimal(a.userId))),
         Field(Ascii("total"), Num(a.total)),
         Field(Ascii("items"), Arr(Mapped(ItemJson, a.items)))])
  }

  /** The event of a committed checkout; `occurredAt` is the order's creation time as text. */
  function ToOrderPlacedEvent(a: Announcement, occurredAt: Text): Json {
    Obj([Field(Ascii("eventId"), Str(EventId(a.orderId))),
         Field(Ascii("type"), Str(Ascii("order.placed"))),
         Field(Ascii("occurredAt"), Str(occurredAt)),
         Field(Ascii("data"), DataJson(a))])
  }

  // ----- reading -----

  function FieldNamed(fields: seq<Field>, key: Text): Option<Json> {
    if fields == [] then None
    else if fields[0].key == key then Some(fields[0].value)
    else FieldNamed(fields[1..], key)
  }

  /** Reading a property; anything but an object has none. */
  function Property(v: Json, key: Text): Option<Json> {
    if v.Obj? then FieldNamed(v.fields, key) else None
  }

  predicate IsHex(c: CodeUnit) {
    0x30 <= c <= 0x39 || 0x41 <= c <= 0x46 || 0x61 <= c <= 0x66
  }

  predicate IsUuid(t: Text) {
    |t| == 36
    && forall i | 0 <= i < 36 :: if i == 8 || i == 13 || i == 18 || i == 23 then t[i] == MINUS else IsHex(t[i])
  }

  /** `messageId` is None unless it is a string, `body` is None unless it is JSON. */
  function ParseMessage(messageId: Option<Text>, body: Option<Json>): Option<Incoming<Text>> {
    if messageId.None? || !IsUuid(messageId.value) || body.None? then None
    else
      var event := body.value;
      var data := Property(event, Ascii("data"));
      var eventId := Property(event, Ascii("eventId"));
      if Property(event, Ascii("type")) != Some(Str(Ascii("order.placed"))) then None
      else if eventId.None? || !eventId.value.Str? || data.None? then None
      else
        var orderId := Property(data.value, Ascii("orderId"));
        var total := Property(data.value, Ascii("total"));
        if orderId.None? || !orderId.value.Str? || !IsNumeral(orderId.value.s) then None
        else if total.None? || !total.value.Num? || total.value.n < 0 then None
        else Some(Incoming(messageId.value, eventId.value.s, orderId.value.s, total.value.n))
  }

  lemma AsciiTellsApart(s: string, t: string)
    requires (forall i | 0 <= i < |s| :: s[i] < 128 as char) && (forall i | 0 <= i < |t| :: t[i] < 128 as char)
    requires |s| != |t| || exists i | 0 <= i < |s| :: s[i] != t[i]
    ensures Ascii(s) != Ascii(t)
  {
    if |s| == |t| {
      var i :| 0 <= i < |s| && s[i] != t[i];
      assert Ascii(s)[i] != Ascii(t)[i];
    }
  }

  lemma {:induction false} FieldIsThere(fields: seq<Field>, key: Text)
    requires key in Keys(fields)
    ensures FieldNamed(fields, key).Some?
    ensures exists f :: f in fields && f.key == key && FieldNamed(fields, key) == Some(f.value)
  {
    if fields[0].key == key {
      assert fields[0] in fields;
    } else {
      var i :| 0 <= i < |fields| && Keys(fields)[i] == key;
      assert Keys(fields[1..])[i - 1] == key;
      FieldIsThere(fields[1..], key);
      var f :| f in fields[1..] && f.key == key && FieldNamed(fields[1..], key) == Some(f.value);
      assert f in fields;
    }
  }

  /** A property does not depend on the order of the keys. */
  lemma SamePropertyOfSameObject(v: Json, w: Json, i: nat)
    requires w.Obj? && Same(v, w) && i < |w.fields|
    ensures Property(v, w.fields[i].key).Some? && Same(Property(v, w.fields[i].key).value, w.fields[i].value)
  {
    var g := w.fields[i];
    assert Keys(w.fields)[i] == g.key;
    FieldIsThere(v.fields, g.key);
  }

  lemma SameDataReads(data: Json, a: Announcement)
    requires Same(data, DataJson(a))
    ensures Property(data, Ascii("orderId")) == Some(Str(Decimal(a.orderId)))
    ensures Property(data, Ascii("total")) == Some(Num(a.total))
  {
    SamePropertyOfSameObject(data, DataJson(a), 0);
    SamePropertyOfSameObject(data, DataJson(a), 2);
  }

  lemma SameEventReads(v: Json, a: Announcement, occurredAt: Text)
    requires Same(v, ToOrderPlacedEvent(a, occurredAt))
    ensures Property(v, Ascii("eventId")) == Some(Str(EventId(a.orderId)))
    ensures Property(v, Ascii("type")) == Some(Str(Ascii("order.placed")))
    ensures Property(v, Ascii("data")).Some? && Same(Property(v, Ascii("data")).value, DataJson(a))
  {
    var event := ToOrderPlacedEvent(a, occurredAt);
    SamePropertyOfSameObject(v, event, 0);
    SamePropertyOfSameObject(v, event, 1);
    SamePropertyOfSameObject(v, event, 3);
  }

  lemma ParsesFrom(messageId: Text, v: Json, data: Json, eventId: Text, orderId: Text, total: int)
    requires IsUuid(messageId) && IsNumeral(orderId) && total >= 0
    requires Property(v, Ascii("type")) == Some(Str(Ascii("order.placed")))
    requires Property(v, Ascii("eventId")) == Some(Str(eventId)) && Property(v, Ascii("data")) == Some(data)
    requires Property(data, Ascii("orderId")) == Some(Str(orderId)) && Property(data, Ascii("total")) == Some(Num(total))
    ensures ParseMessage(Some(messageId), Some(v)) == Some(Incoming(messageId, eventId, orderId, total))
  {
  }

  /**
   Whatever checkout announces, the consumer reads back: the same order and the same total. The event has passed through
   a column that keeps its value but not the order of its keys, so this holds for every object with the same value.
   */
  lemma AnnouncementsParse(a: Announcement, occurredAt: Text, messageId: Text, sent: Json)
    requires IsUuid(messageId) && a.total >= 0 && Same(sent, ToOrderPlacedEvent(a, occurredAt))
    ensures ParseMessage(Some(messageId), Some(sent))
         == Some(Incoming(messageId, EventId(a.orderId), Decimal(a.orderId), a.total))
  {
    SameEventReads(sent, a, occurredAt);
    var data := Property(sent, Ascii("data")).value;
    SameDataReads(data, a);
    ParsesFrom(messageId, sent, data, EventId(a.orderId), Decimal(a.orderId), a.total);
  }

  // ----- what an event states -----

  lemma SameItemReads(v: Json, item: Item)
    requires Same(v, ItemJson(item))
    ensures Property(v, Ascii("productId")) == Some(Str(Decimal(item.productId)))
    ensures Property(v, Ascii("quantity")) == Some(Num(item.quantity))
    ensures Property(v, Ascii("unitPrice")) == Some(Num(item.unitPrice))
  {
    SamePropertyOfSameObject(v, ItemJson(item), 0);
    SamePropertyOfSameObject(v, ItemJson(item), 1);
    SamePropertyOfSameObject(v, ItemJson(item), 2);
  }

  lemma SameItemsRead(data: Json, a: Announcement)
    requires Same(data, DataJson(a))
    ensures Property(data, Ascii("userId")) == Some(Str(Decimal(a.userId)))
    ensures Property(data, Ascii("items")).Some? && Property(data, Ascii("items")).value.Arr?
    ensures var items := Property(data, Ascii("items")).value.items;
            |items| == |a.items| && forall i | 0 <= i < |items| :: Same(items[i], ItemJson(a.items[i]))
  {
    SamePropertyOfSameObject(data, DataJson(a), 1);
    SamePropertyOfSameObject(data, DataJson(a), 3);
  }

  /** A reader's view of one item: product id, quantity and unit price under their names. */
  ghost predicate StatesItem(v: Json, productId: nat, quantity: int, unitPrice: int) {
    && Property(v, Ascii("productId")) == Some(Str(Decimal(productId)))
    && Property(v, Ascii("quantity")) == Some(Num(quantity))
    && Property(v, Ascii("unitPrice")) == Some(Num(unitPrice))
  }

  ghost predicate StatesItems(v: Json, items: seq<Item>) {
    && v.Arr? && |v.items| == |items|
    && forall i | 0 <= i < |items| :: StatesItem(v.items[i], items[i].productId, items[i].quantity, items[i].unitPrice)
  }

  ghost predicate StatesData(data: Json, orderId: nat, userId: nat, total: int, items: seq<Item>) {
    && Property(data, Ascii("orderId")) == Some(Str(Decimal(orderId)))
    && Property(data, Ascii("userId")) == Some(Str(Decimal(userId)))
    && Property(data, Ascii("total")) == Some(Num(total))
    && Property(data, Ascii("items")).Some? && StatesItems(Property(data, Ascii("items")).value, items)
  }

  /** A reader's view of the event of an order. */
  ghost predicate StatesOrder(sent: Json, orderId: nat, userId: nat, total: int, items: seq<Item>, occurredAt: Text) {
    && Property(sent, Ascii("eventId")) == Some(Str(Ascii("order.placed:") + Decimal(orderId)))
    && Property(sent, Ascii("type")) == Some(Str(Ascii("order.placed")))
    && Property(sent, Ascii("occurredAt")) == Some(Str(occurredAt))
    && Property(sent, Ascii("data")).Some?
    && StatesData(Property(sent, Ascii("data")).value, orderId, userId, total, items)
  }

  lemma SameDataStatesOrder(data: Json, a: Announcement)
    requires Same(data, DataJson(a))
    ensures StatesData(data, a.orderId, a.userId, a.total, a.items)
  {
    SameDataReads(data, a);
    SameItemsRead(data, a);
    var stated := Property(data, Ascii("items")).value.items;
    forall i | 0 <= i < |stated|
      ensures StatesItem(stated[i], a.items[i].productId, a.items[i].quantity, a.items[i].unitPrice)
    {
      SameItemReads(stated[i], a.items[i]);
    }
  }

  lemma SameEventReadsTime(sent: Json, a: Announcement, occurredAt: Text)
    requires Same(sent, ToOrderPlacedEvent(a, occurredAt))
    ensures Property(sent, Ascii("occurredAt")) == Some(Str(occurredAt))
  {
    SamePropertyOfSameObject(sent, ToOrderPlacedEvent(a, occurredAt), 2);
  }

  /** The event states the order: every part of the announcement can be read back from it, whatever the order of its keys. */
  lemma EventStatesTheOrder(a: Announcement, occurredAt: Text, sent: Json)
    requires Same(sent, ToOrderPlacedEvent(a, occurredAt))
    ensures StatesOrder(sent, a.orderId, a.userId, a.total, a.items, occurredAt)
  {
    SameEventReads(sent, a, occurredAt);
    SameEventReadsTime(sent, a, occurredAt);
    SameDataStatesOrder(Property(sent, Ascii("data")).value, a);
  }

  /** A string of decimal digits, as an id has to be. */
  ghost predicate IsIdText(v: Json) {
    v.Str? && v.s != [] && forall i | 0 <= i < |v.s| :: 0x30 <= v.s[i] <= 0x39
  }

  /**
   What is poison and what is not: a message is read exactly if its id is a uuid and its body states an event id, an order
   id and a total that is no negative number, and then it is read as these.
   */
  lemma MessageIsReadIffItStatesAnEvent(messageId: Option<Text>, body: Option<Json>)
    ensures ParseMessage(messageId, body).Some? <==>
              && messageId.Some? && IsUuid(messageId.value) && body.Some?
              && Property(body.value, Ascii("type")) == Some(Str(Ascii("order.placed")))
              && (exists e :: Property(body.value, Ascii("eventId")) == Some(Str(e)))
              && exists data, id, total :: Property(body.value, Ascii("data")) == Some(data)
                   && Property(data, Ascii("orderId")) == Some(id) && IsIdText(id)
                   && Property(data, Ascii("total")) == Some(Num(total)) && total >= 0
    ensures ParseMessage(messageId, body).Some? ==>
              var incoming := ParseMessage(messageId, body).value;
              && incoming.messageId == messageId.value
              && Property(body.value, Ascii("eventId")) == Some(Str(incoming.eventId))
              && Property(body.value, Ascii("data")).Some?
              && Property(Property(body.value, Ascii("data")).value, Ascii("orderId")) == Some(Str(incoming.orderId))
              && Property(Property(body.value, Ascii("data")).value, Ascii("total")) == Some(Num(incoming.total))
  {
    if body.Some? && Property(body.value, Ascii("eventId")).Some? && Property(body.value, Ascii("eventId")).value.Str? {
      assert Property(body.value, Ascii("eventId")) == Some(Str(Property(body.value, Ascii("eventId")).value.s));
    }
  }

  lemma UuidShape(t: Text)
    ensures IsUuid(t) <==>
              |t| == 36 && forall i | 0 <= i < 36 ::
                if i in {8, 13, 18, 23} then t[i] == 0x2D
                else 0x30 <= t[i] <= 0x39 || 0x41 <= t[i] <= 0x46 || 0x61 <= t[i] <= 0x66
  {
  }

  lemma ItemIsValid(item: Item)
    ensures Valid(ItemJson(item))
  {
    assert "productId"[0] != "unitPrice"[0];
    AsciiTellsApart("productId", "unitPrice");
  }

  lemma ItemsAreValid(items: seq<Item>)
    ensures Valid(Arr(Mapped(ItemJson, items)))
  {
    forall v | v in Mapped(ItemJson, items)
      ensures Valid(v)
    {
      var i :| 0 <= i < |items| && v == ItemJson(items[i]);
      ItemIsValid(items[i]);
    }
  }

  lemma DataIsValid(a: Announcement)
    ensures Valid(DataJson(a))
  {
    assert "total"[0] != "items"[0];
    AsciiTellsApart("total", "items");
    ItemsAreValid(a.items);
  }

  /** The event as written has each key once at every level, and is one of the values that may be sent. */
  lemma AnnouncedEventIsValid(a: Announcement, occurredAt: Text)
    ensures Valid(ToOrderPlacedEvent(a, occurredAt))
    ensures Same(ToOrderPlacedEvent(a, occurredAt), ToOrderPlacedEvent(a, occurredAt))
  {
    assert "type"[0] != "data"[0];
    AsciiTellsApart("type", "data");
    DataIsValid(a);
    var event := ToOrderPlacedEvent(a, occurredAt);
    assert Valid(event);
    CanonicalTextDecidesSameness(event, event);
  }

  /** Another order of an object's keys is the same value. */
  lemma ReorderedObjectIsSame(fields: seq<Field>, reordered: seq<Field>)
    requires multiset(fields) == multiset(reordered) && Valid(Obj(fields))
    ensures Same(Obj(reordered), Obj(fields))
  {
    SameElements(fields, reordered);
    forall f, g | f in reordered && g in fields && f.key == g.key
      ensures Same(f.value, g.value)
    {
      var i :| 0 <= i < |fields| && fields[i] == f;
      var j :| 0 <= j < |fields| && fields[j] == g;
      assert Keys(fields)[i] == Keys(fields)[j];
      CanonicalTextDecidesSameness(f.value, g.value);
    }
    forall k
      ensures k in Keys(reordered) <==> k in Keys(fields)
    {
      KeyIsOfAField(reordered, k);
      KeyIsOfAField(fields, k);
    }
  }

  lemma KeyIsOfAField(fields: seq<Field>, k: Text)
    ensures k in Keys(fields) <==> exists f :: f in fields && f.key == k
  {
    if k in Keys(fields) {
      var i :| 0 <= i < |fields| && Keys(fields)[i] == k;
      assert fields[i] in fields;
    }
    if f :| f in fields && f.key == k {
      var i :| 0 <= i < |fields| && fields[i] == f;
      assert Keys(fields)[i] == k;
    }
  }

  lemma EventIdTellsOrdersApart(a: nat, b: nat)
    requires EventId(a) == EventId(b)
    ensures a == b
  {
    var n := |Ascii("order.placed:")|;
    assert EventId(a)[n..] == Decimal(a) && EventId(b)[n..] == Decimal(b);
    DecimalInjective(a, b);
  }
}
