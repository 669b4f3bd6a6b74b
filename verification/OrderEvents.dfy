/**
 Status events of orders: the last hundred of each order, kept for the thousand orders that published last, and the
 streams that replay what a client missed before they go on with what is published.
 */
module OrderEvents {
  import opened Sorting
  import opened Text
  import opened Checkout

  const BUFFER_SIZE: nat := 100
  const MAX_ORDERS: nat := 1000

  datatype StatusEvent = StatusEvent(id: nat, orderId: Text, status: Status, changedAt: int)

  /** A call of `publish`. */
  datatype Publication = Publication(orderId: Text, status: Status, changedAt: int)

  function Suffix<T>(s: seq<T>, n: nat): seq<T> {
    if |s| <= n then s else s[|s| - n..]
  }

  function Remove<T(==)>(s: seq<T>, x: T): seq<T> {
    if s == [] then []
    else Remove(s[..|s| - 1], x) + if s[|s| - 1] == x then [] else [s[|s| - 1]]
  }

  // ----- what is kept, as a function of everything that was published -----

  /** The orders, by their latest publication. */
  function Recent(h: seq<Publication>): seq<Text> {
    if h == [] then []
    else
      var last := h[|h| - 1].orderId;
      Remove(Recent(h[..|h| - 1]), last) + [last]
  }

  /** The orders that have a buffer. */
  function Present(h: seq<Publication>): seq<Text> {
    Suffix(Recent(h), MAX_ORDERS)
  }

  /** The publications of an order since its buffer was created. */
  function Current(h: seq<Publication>, o: Text): seq<Publication> {
    if h == [] then []
    else
      var front, last := h[..|h| - 1], h[|h| - 1];
      if last.orderId == o then Current(front, o) + [last]
      else if o in Present(h) then Current(front, o)
      else []
  }

  function Numbered(ps: seq<Publication>): seq<StatusEvent> {
    seq(|ps|, i requires 0 <= i < |ps| => StatusEvent(i + 1, ps[i].orderId, ps[i].status, ps[i].changedAt))
  }

  function Buffer(h: seq<Publication>, o: Text): seq<StatusEvent> {
    Suffix(Numbered(Current(h, o)), BUFFER_SIZE)
  }

  function Newer(events: seq<StatusEvent>, lastSeen: nat): seq<StatusEvent> {
    if events == [] then []
    else
      var last := events[|events| - 1];
      Newer(events[..|events| - 1], lastSeen) + if last.id > lastSeen then [last] else []
  }

  /** The map of buffers holds what is to be kept: its keys in the order of their insertion, and its values. */
  ghost predicate Holds(order: seq<Text>, buffers: map<Text, seq<StatusEvent>>, h: seq<Publication>) {
    && order == Present(h)
    && (forall o :: o in buffers <==> o in order)
    && (forall o | o in buffers :: buffers[o] == Buffer(h, o))
  }

  // ----- the service -----

  class OrderEvents {
    /** A map that remembers the order in which its keys were inserted. */
    var order: seq<Text>
    var buffers: map<Text, seq<StatusEvent>>
    ghost var history: seq<Publication>
    /** The events the subject has emitted to whoever was subscribed. */
    var emitted: seq<StatusEvent>

    ghost predicate Valid()
      reads this
    {
      Holds(order, buffers, history)
    }

    constructor ()
      ensures Valid() && history == [] && emitted == []
    {
      order := [];
      buffers := map[];
      history := [];
      emitted := [];
    }

    method Publish(orderId: Text, status: Status, changedAt: int) returns (event: StatusEvent)
      requires Valid()
      modifies this
      ensures Valid() && history == old(history) + [Publication(orderId, status, changedAt)]
      ensures var current := Current(history, orderId);
              current != [] && event == StatusEvent(|current|, orderId, status, changedAt)
      ensures emitted == old(emitted) + [event]
    {
      PublicationKeepsBuffers(order, buffers, history, Publication(orderId, status, changedAt));
      var buffer := if orderId in buffers then buffers[orderId] else [];
      event := StatusEvent((if buffer == [] then 0 else buffer[|buffer| - 1].id) + 1, orderId, status, changedAt);
      buffer := buffer + [event];
      if |buffer| > BUFFER_SIZE {
        buffer := buffer[1..];
      }
      Reinsert(orderId, buffer);
      history := history + [Publication(orderId, status, changedAt)];
      emitted := emitted + [event];
    }

    /** The order's buffer becomes the last of the map, and the first goes if there are too many. */
    method Reinsert(orderId: Text, buffer: seq<StatusEvent>)
      modifies this
      ensures order == Touched(old(order), orderId) && buffers == Stored(old(order), old(buffers), orderId, buffer)
      ensures history == old(history) && emitted == old(emitted)
    {
      order := Remove(order, orderId) + [orderId];
      buffers := buffers[orderId := buffer];
      if |order| > MAX_ORDERS {
        var oldest := order[0];
        order := order[1..];
        buffers := buffers - {oldest};
      }
    }

    method MissedSince(orderId: Text, lastEventId: nat) returns (missed: seq<StatusEvent>)
      requires Valid()
      ensures missed == Newer(Buffer(history, orderId), lastEventId)
    {
      PresentHasCurrent(history, orderId);
      var buffer := if orderId in buffers then buffers[orderId] else [];
      missed := Newer(buffer, lastEventId);
    }
  }

  // ----- removing and cutting -----

  lemma {:induction false} RemoveKeepsOthers<T>(s: seq<T>, x: T)
    requires Distinct(s)
    ensures Distinct(Remove(s, x))
    ensures forall y :: y in Remove(s, x) <==> y in s && y != x
    ensures |Remove(s, x)| == if x in s then |s| - 1 else |s|
    ensures x !in s ==> Remove(s, x) == s
  {
    if s != [] {
      var front, last := s[..|s| - 1], s[|s| - 1];
      RemoveKeepsOthers(front, x);
      assert s == front + [last];
      assert last !in front;
    }
  }

  lemma {:induction false} RemoveAppend<T>(a: seq<T>, b: seq<T>, x: T)
    ensures Remove(a + b, x) == Remove(a, x) + Remove(b, x)
  {
    if b == [] {
      assert a + b == a;
    } else {
      var front, last := b[..|b| - 1], b[|b| - 1];
      RemoveAppend(a, front, x);
      assert (a + b)[..|a + b| - 1] == a + front;
    }
  }

  ghost predicate Published(h: seq<Publication>, o: Text) {
    exists p :: p in h && p.orderId == o
  }

  lemma {:induction false} RecentIsDistinct(h: seq<Publication>)
    ensures Distinct(Recent(h))
    ensures forall o :: o in Recent(h) <==> Published(h, o)
  {
    if h != [] {
      var front, last := h[..|h| - 1], h[|h| - 1];
      RecentIsDistinct(front);
      RemoveKeepsOthers(Recent(front), last.orderId);
      assert h == front + [last];
      assert forall p :: p in h <==> p in front || p == last;
      assert last in h;
      forall o
        ensures Published(h, o) <==> o == last.orderId || Published(front, o)
      {
        assert Published(front, o) ==> exists p :: p in front && p.orderId == o && p in h;
      }
    }
  }

  /** The keys of the map after a publication: the order moves to the end, and the first goes if there are too many. */
  function Touched(keys: seq<Text>, o: Text): seq<Text> {
    var moved := Remove(keys, o) + [o];
    if |moved| > MAX_ORDERS then moved[1..] else moved
  }

  /** Cutting off the oldest keys commutes with moving one to the end. */
  lemma CutMoved(all: seq<Text>, o: Text)
    requires Distinct(all)
    ensures Suffix(Remove(all, o) + [o], MAX_ORDERS) == Touched(Suffix(all, MAX_ORDERS), o)
  {
    RemoveKeepsOthers(all, o);
    if |all| > MAX_ORDERS {
      CutMovedOfMany(all, o);
    }
  }

  lemma SuffixOfAppend<T>(a: seq<T>, b: seq<T>, n: nat)
    requires |b| >= n
    ensures Suffix(a + b, n) == Suffix(b, n)
  {
  }

  lemma FullKeysTouched(kept: seq<Text>, o: Text)
    requires Distinct(kept) && |kept| == MAX_ORDERS
    ensures |Remove(kept, o) + [o]| >= MAX_ORDERS
    ensures Suffix(Remove(kept, o) + [o], MAX_ORDERS) == Touched(kept, o)
  {
    RemoveKeepsOthers(kept, o);
  }

  lemma CutMovedOfMany(all: seq<Text>, o: Text)
    requires Distinct(all) && |all| > MAX_ORDERS
    ensures Suffix(Remove(all, o) + [o], MAX_ORDERS) == Touched(Suffix(all, MAX_ORDERS), o)
  {
    var gone, kept := all[..|all| - MAX_ORDERS], all[|all| - MAX_ORDERS..];
    assert all == gone + kept && Suffix(all, MAX_ORDERS) == kept;
    FullKeysTouched(kept, o);
    RemoveAppend(gone, kept, o);
    SuffixOfAppend(Remove(gone, o), Remove(kept, o) + [o], MAX_ORDERS);
    assert Remove(all, o) + [o] == Remove(gone, o) + (Remove(kept, o) + [o]);
  }

  lemma PresentStep(h: seq<Publication>, p: Publication)
    ensures Present(h + [p]) == Touched(Present(h), p.orderId)
    ensures Distinct(Present(h))
  {
    assert (h + [p])[..|h|] == h;
    RecentIsDistinct(h);
    CutMoved(Recent(h), p.orderId);
  }

  lemma TailElements(s: seq<Text>)
    requires Distinct(s) && s != []
    ensures forall q :: q in s[1..] <==> q in s && q != s[0]
  {
    assert s == [s[0]] + s[1..];
    assert s[0] !in s[1..];
  }

  lemma TouchedElements(keys: seq<Text>, o: Text)
    requires Distinct(keys)
    ensures o in Touched(keys, o)
    ensures forall q | q in Touched(keys, o) && q != o :: q in keys
  {
    RemoveKeepsOthers(keys, o);
    var moved := Remove(keys, o) + [o];
    assert moved[|moved| - 1] == o;
    if |moved| > MAX_ORDERS {
      assert moved == [moved[0]] + moved[1..];
      assert moved[1..][|moved| - 2] == o;
    }
  }

  lemma MovedKeys(keys: seq<Text>, o: Text)
    requires Distinct(keys)
    ensures var moved := Remove(keys, o) + [o];
            && (forall q :: q in moved <==> q in keys || q == o)
            && (forall q :: q in moved[1..] <==> q in moved && q != moved[0])
            && Distinct(moved)
  {
    RemoveKeepsOthers(keys, o);
    var moved := Remove(keys, o) + [o];
    assert Distinct(moved);
    TailElements(moved);
  }

  lemma {:induction false} PresentHasCurrent(h: seq<Publication>, o: Text)
    ensures Current(h, o) != [] <==> o in Present(h)
  {
    if h != [] {
      var front, last := h[..|h| - 1], h[|h| - 1];
      assert h == front + [last];
      PresentHasCurrent(front, o);
      PresentStep(front, last);
      TouchedElements(Present(front), last.orderId);
    }
  }

  lemma BufferGrows(h: seq<Publication>, p: Publication)
    ensures var buffer := Buffer(h, p.orderId);
            var event := NextEvent(buffer, p);
            && event.id == |Current(h, p.orderId)| + 1 == |Current(h + [p], p.orderId)|
            && Buffer(h + [p], p.orderId) == Pushed(buffer, event)
            && (buffer == [] <==> Current(h, p.orderId) == [])
  {
    assert (h + [p])[..|h|] == h;
    NumberedPushed(Current(h, p.orderId), p);
  }

  lemma NumberedPushed(ps: seq<Publication>, p: Publication)
    ensures var buffer := Suffix(Numbered(ps), BUFFER_SIZE);
            NextEvent(buffer, p).id == |ps| + 1
            && Suffix(Numbered(ps + [p]), BUFFER_SIZE) == Pushed(buffer, NextEvent(buffer, p))
  {
    assert Numbered(ps + [p]) == Numbered(ps) + [StatusEvent(|ps| + 1, p.orderId, p.status, p.changedAt)];
  }

  lemma OthersKeepTheirBuffers(h: seq<Publication>, p: Publication)
    ensures forall o | o in Present(h + [p]) && o != p.orderId :: Buffer(h + [p], o) == Buffer(h, o)
  {
    assert (h + [p])[..|h|] == h;
  }

  /** Storing the order's new buffer under its moved key, without the oldest key if there are too many. */
  function Stored(order: seq<Text>, buffers: map<Text, seq<StatusEvent>>, o: Text, buffer: seq<StatusEvent>)
    : map<Text, seq<StatusEvent>>
  {
    var moved := Remove(order, o) + [o];
    if |moved| > MAX_ORDERS then buffers[o := buffer] - {moved[0]} else buffers[o := buffer]
  }

  lemma StoredKeys(order: seq<Text>, buffers: map<Text, seq<StatusEvent>>, o: Text, buffer: seq<StatusEvent>)
    requires Distinct(order) && forall q :: q in buffers <==> q in order
    ensures var stored := Stored(order, buffers, o, buffer);
            && (forall q :: q in stored <==> q in Touched(order, o))
            && (forall q | q in stored :: if q == o then stored[q] == buffer else q in buffers && stored[q] == buffers[q])
  {
    MovedKeys(order, o);
  }

  lemma StillHolds(order: seq<Text>, buffers: map<Text, seq<StatusEvent>>, h: seq<Publication>, p: Publication,
                   buffer: seq<StatusEvent>)
    requires Holds(order, buffers, h) && buffer == Buffer(h + [p], p.orderId)
    ensures Holds(Touched(order, p.orderId), Stored(order, buffers, p.orderId, buffer), h + [p])
  {
    PresentStep(h, p);
    StoredKeys(order, buffers, p.orderId, buffer);
    var stored := Stored(order, buffers, p.orderId, buffer);
    OthersKeepTheirBuffers(h, p);
    forall q | q in stored
      ensures stored[q] == Buffer(h + [p], q)
    {
      assert q in Present(h + [p]);
    }
  }

  /** The event a publication adds to the buffer, and the buffer with it. */
  function NextEvent(buffer: seq<StatusEvent>, p: Publication): StatusEvent {
    StatusEvent((if buffer == [] then 0 else buffer[|buffer| - 1].id) + 1, p.orderId, p.status, p.changedAt)
  }

  function Pushed(buffer: seq<StatusEvent>, event: StatusEvent): seq<StatusEvent> {
    var grown := buffer + [event];
    if |grown| > BUFFER_SIZE then grown[1..] else grown
  }

  lemma PublicationKeepsBuffers(order: seq<Text>, buffers: map<Text, seq<StatusEvent>>, h: seq<Publication>,
                                p: Publication)
    requires Holds(order, buffers, h)
    ensures var buffer := if p.orderId in buffers then buffers[p.orderId] else [];
            var event := NextEvent(buffer, p);
            && Holds(Touched(order, p.orderId), Stored(order, buffers, p.orderId, Pushed(buffer, event)), h + [p])
            && |Current(h + [p], p.orderId)| == event.id
  {
    PresentHasCurrent(h, p.orderId);
    BufferGrows(h, p);
    StillHolds(order, buffers, h, p, Buffer(h + [p], p.orderId));
  }

  // ----- which orders are kept -----

  /** What stands after x. */
  function After<T(==)>(s: seq<T>, x: T): seq<T> {
    if s == [] || s[|s| - 1] == x then [] else After(s[..|s| - 1], x) + [s[|s| - 1]]
  }

  /** The orders that published after the last publication of `o`. */
  ghost function PublishedSince(h: seq<Publication>, o: Text): set<Text> {
    set k | 0 <= k < |h| && (forall j | k <= j < |h| :: h[j].orderId != o) :: h[k].orderId
  }

  lemma PublishedSinceNext(h: seq<Publication>, p: Publication, o: Text)
    ensures PublishedSince(h + [p], o) == if p.orderId == o then {} else PublishedSince(h, o) + {p.orderId}
  {
    var longer := h + [p];
    var n := |h|;
    assert longer[n] == p;
    if p.orderId != o {
      forall q | q in PublishedSince(h, o)
        ensures q in PublishedSince(longer, o)
      {
        var k :| 0 <= k < |h| && (forall j | k <= j < |h| :: h[j].orderId != o) && h[k].orderId == q;
        assert longer[k].orderId == q;
        assert forall j | k <= j < |longer| :: longer[j].orderId != o;
      }
      assert forall j | n <= j < |longer| :: longer[j].orderId != o;
      forall q | q in PublishedSince(longer, o)
        ensures q in PublishedSince(h, o) + {p.orderId}
      {
        var k :| 0 <= k < |longer| && (forall j | k <= j < |longer| :: longer[j].orderId != o) && longer[k].orderId == q;
        if k < n {
          assert h[k].orderId == q && forall j | k <= j < n :: h[j] == longer[j];
        }
      }
    }
  }

  lemma {:induction false} AfterRemove(s: seq<Text>, x: Text, o: Text)
    requires x != o
    ensures After(Remove(s, x), o) == Remove(After(s, o), x)
  {
    if s != [] {
      var front, last := s[..|s| - 1], s[|s| - 1];
      AfterRemove(front, x, o);
      if last == o {
        assert Remove(s, x)[..|Remove(s, x)| - 1] == Remove(front, x);
      } else {
        assert After(s, o)[..|After(s, o)| - 1] == After(front, o);
        if last == x {
          assert Remove(s, x) == Remove(front, x);
        } else {
          assert Remove(s, x)[..|Remove(s, x)| - 1] == Remove(front, x);
        }
      }
    }
  }

  lemma AfterMoved(s: seq<Text>, x: Text, o: Text)
    ensures After(Remove(s, x) + [x], o) == if x == o then [] else Remove(After(s, o), x) + [x]
  {
    var moved := Remove(s, x);
    assert (moved + [x])[..|moved|] == moved;
    if x != o {
      AfterRemove(s, x, o);
    }
  }

  lemma {:induction false} AfterIsPublishedSince(h: seq<Publication>, o: Text)
    ensures Distinct(After(Recent(h), o))
    ensures forall q :: q in After(Recent(h), o) <==> q in PublishedSince(h, o)
  {
    if h != [] {
      var front, last := h[..|h| - 1], h[|h| - 1];
      assert h == front + [last];
      AfterIsPublishedSince(front, o);
      PublishedSinceNext(front, last, o);
      AfterMoved(Recent(front), last.orderId, o);
      MovedKeys(After(Recent(front), o), last.orderId);
    }
  }

  lemma {:induction false} InSuffixIffFewAfter(s: seq<Text>, o: Text, n: nat)
    requires Distinct(s) && o in s
    ensures o in Suffix(s, n) <==> |After(s, o)| < n
    ensures |After(s, o)| < |s|
  {
    var front, last := s[..|s| - 1], s[|s| - 1];
    assert s == front + [last];
    if last == o {
      assert n > 0 ==> Suffix(s, n)[|Suffix(s, n)| - 1] == o;
    } else {
      assert Distinct(front);
      InSuffixIffFewAfter(front, o, if n == 0 then 0 else n - 1);
      if n > 0 {
        assert Suffix(s, n) == Suffix(front, n - 1) + [last];
      }
    }
  }

  lemma {:induction false} DistinctCardinality(s: seq<Text>, elements: set<Text>)
    requires Distinct(s) && forall q :: q in s <==> q in elements
    ensures |s| == |elements|
  {
    if s == [] {
      assert elements == {};
    } else {
      var front, last := s[..|s| - 1], s[|s| - 1];
      assert s == front + [last];
      DistinctCardinality(front, elements - {last});
    }
  }

  /** An order has a buffer exactly if it published, and fewer than a thousand others have published since. */
  lemma KeptIffRecentlyPublished(h: seq<Publication>, o: Text)
    ensures o in Present(h) <==> Published(h, o) && |PublishedSince(h, o)| < 1000
  {
    RecentIsDistinct(h);
    if o in Recent(h) {
      InSuffixIffFewAfter(Recent(h), o, MAX_ORDERS);
      AfterIsPublishedSince(h, o);
      DistinctCardinality(After(Recent(h), o), PublishedSince(h, o));
    }
  }

  lemma LaterElementIsAfter(s: seq<Text>, i: nat, j: nat)
    requires Distinct(s) && i < j < |s|
    ensures s[j] in s[i + 1..] && s[i] !in s[j + 1..]
  {
    assert s[i + 1..][j - i - 1] == s[j];
  }

  lemma SuffixAt(s: seq<Text>, n: nat, i: nat)
    requires i < |Suffix(s, n)|
    ensures Suffix(s, n)[i] == s[|s| - |Suffix(s, n)| + i]
  {
  }

  lemma LaterIsAfter(s: seq<Text>, i: nat, j: nat)
    requires Distinct(s) && i < j < |s|
    ensures s[j] in After(s, s[i]) && s[i] !in After(s, s[j])
  {
    AfterElement(s, i);
    AfterElement(s, j);
    LaterElementIsAfter(s, i, j);
  }

  lemma LaterKeyIsAfter(all: seq<Text>, i: nat, j: nat)
    requires Distinct(all) && i < j < |Suffix(all, MAX_ORDERS)|
    ensures var kept := Suffix(all, MAX_ORDERS);
            kept[j] in After(all, kept[i]) && kept[i] !in After(all, kept[j])
  {
    var d := |all| - |Suffix(all, MAX_ORDERS)|;
    SuffixAt(all, MAX_ORDERS, i);
    SuffixAt(all, MAX_ORDERS, j);
    LaterIsAfter(all, d + i, d + j);
  }

  /** Of two orders with buffers, the map lists first the one that published last less recently. */
  lemma KeysAreInOrderOfPublication(h: seq<Publication>, i: nat, j: nat)
    requires i < j < |Present(h)|
    ensures Present(h)[i] !in PublishedSince(h, Present(h)[j])
    ensures Present(h)[j] in PublishedSince(h, Present(h)[i])
  {
    RecentIsDistinct(h);
    LaterKeyIsAfter(Recent(h), i, j);
    AfterIsPublishedSince(h, Present(h)[i]);
    AfterIsPublishedSince(h, Present(h)[j]);
  }

  lemma {:induction false} AfterElement(s: seq<Text>, k: nat)
    requires Distinct(s) && k < |s|
    ensures After(s, s[k]) == s[k + 1..]
  {
    var front := s[..|s| - 1];
    if k < |s| - 1 {
      AfterElement(front, k);
      assert front[k] == s[k];
    }
  }

  // ----- what a buffer holds -----

  lemma SuffixOfNumbered(ps: seq<Publication>, i: nat)
    requires i < |Suffix(Numbered(ps), BUFFER_SIZE)|
    ensures var b := Suffix(Numbered(ps), BUFFER_SIZE);
            && |b| == (if |ps| < BUFFER_SIZE then |ps| else BUFFER_SIZE)
            && b[i].id == |ps| - |b| + i + 1
            && b[i] == StatusEvent(b[i].id, ps[b[i].id - 1].orderId, ps[b[i].id - 1].status, ps[b[i].id - 1].changedAt)
  {
  }

  /** A buffer ends with the order's latest event; its ids are consecutive, and its contents are what was published. */
  lemma BufferEndsWithLatest(h: seq<Publication>, o: Text, i: nat)
    requires i < |Buffer(h, o)|
    ensures var b, ps := Buffer(h, o), Current(h, o);
            && |b| == (if |ps| < 100 then |ps| else 100)
            && b[i].id == |ps| - |b| + i + 1
            && b[i] == StatusEvent(b[i].id, ps[b[i].id - 1].orderId, ps[b[i].id - 1].status, ps[b[i].id - 1].changedAt)
  {
    SuffixOfNumbered(Current(h, o), i);
  }

  /** The events with ids up to `seen`, of events numbered from base + 1. */
  function SeenAmong(base: nat, count: nat, seen: nat): nat {
    if seen >= base + count then count else if seen < base then 0 else seen - base
  }

  lemma {:induction false} NewerCuts(events: seq<StatusEvent>, base: nat, seen: nat)
    requires forall i | 0 <= i < |events| :: events[i].id == base + i + 1
    ensures Newer(events, seen) == events[SeenAmong(base, |events|, seen)..]
  {
    if events != [] {
      var n := |events| - 1;
      var front := events[..n];
      NewerCuts(front, base, seen);
      assert events[n].id == base + n + 1;
      if seen >= base + n + 1 {
        assert Newer(events, seen) == [];
      } else {
        assert events[SeenAmong(base, n, seen)..] == front[SeenAmong(base, n, seen)..] + [events[n]];
      }
    }
  }

  /** The end of the buffer: exactly its events with a higher id, in their order. */
  ghost predicate AreTheNewer(buffer: seq<StatusEvent>, lastSeen: nat, missed: seq<StatusEvent>) {
    && |missed| <= |buffer| && missed == buffer[|buffer| - |missed|..]
    && forall i | 0 <= i < |buffer| :: i >= |buffer| - |missed| <==> buffer[i].id > lastSeen
  }

  /** What a client has missed is the end of the buffer. */
  lemma NewerAreTheLast(h: seq<Publication>, o: Text, lastSeen: nat)
    ensures AreTheNewer(Buffer(h, o), lastSeen, Newer(Buffer(h, o), lastSeen))
  {
    var b := Buffer(h, o);
    forall i | 0 <= i < |b|
      ensures b[i].id == |Current(h, o)| - |b| + i + 1
    {
      BufferEndsWithLatest(h, o, i);
    }
    NewerCuts(b, |Current(h, o)| - |b|, lastSeen);
  }

  /** The publications of one order. */
  function Of(h: seq<Publication>, o: Text): seq<Publication> {
    if h == [] then []
    else Of(h[..|h| - 1], o) + if h[|h| - 1].orderId == o then [h[|h| - 1]] else []
  }

  /** The publication that created the order's buffer: the order had none before it and has had one ever since. */
  ghost predicate Creates(h: seq<Publication>, o: Text, c: nat) {
    && c < |h| && h[c].orderId == o && o !in Present(h[..c])
    && forall k | c < k <= |h| :: o in Present(h[..k])
  }

  lemma CreatesStill(h: seq<Publication>, p: Publication, o: Text, c: nat)
    requires Creates(h, o, c) && o in Present(h + [p])
    ensures Creates(h + [p], o, c)
  {
    var longer := h + [p];
    assert longer[..c] == h[..c] && longer[..|longer|] == longer;
    assert forall k | c < k <= |h| :: longer[..k] == h[..k];
  }

  lemma CreatesNow(h: seq<Publication>, p: Publication)
    requires p.orderId !in Present(h)
    ensures Creates(h + [p], p.orderId, |h|)
  {
    var longer := h + [p];
    assert longer[..|h|] == h && longer[..|longer|] == longer;
    PresentHasCurrent(longer, p.orderId);
  }

  lemma OfNext(h: seq<Publication>, p: Publication, c: nat, o: Text)
    requires c <= |h|
    ensures Of((h + [p])[c..], o) == Of(h[c..], o) + if p.orderId == o then [p] else []
  {
    assert (h + [p])[c..] == h[c..] + [p];
    assert (h[c..] + [p])[..|h[c..]|] == h[c..];
  }

  /** `Current` is what the order has published since its buffer was created. */
  lemma {:induction false} CurrentIsSinceCreation(h: seq<Publication>, o: Text) returns (c: nat)
    requires o in Present(h)
    ensures Creates(h, o, c) && Current(h, o) == Of(h[c..], o)
  {
    PresentHasCurrent(h, o);
    var front, last := h[..|h| - 1], h[|h| - 1];
    assert h == front + [last];
    PresentHasCurrent(front, o);
    PresentStep(front, last);
    TouchedElements(Present(front), last.orderId);
    if o in Present(front) {
      c := CurrentIsSinceCreation(front, o);
      CreatesStill(front, last, o, c);
      OfNext(front, last, c, o);
    } else {
      c := |front|;
      CreatesNow(front, last);
      OfNext(front, last, c, o);
      assert front[c..] == [];
    }
  }
}
