/** A client's stream of one order's events: what it missed is replayed, what is published afterwards follows. */
module OrderStreams {
  import opened Options
  import opened Text
  import opened Checkout
  import opened OrderEvents

  /** The Last-Event-ID header as a number; anything that is not a numeral counts as no header. */
  function ToLastEventId(header: Option<Text>): Option<nat> {
    if header.Some? && IsNumeral(header.value) then Some(JsNumber(Value(header.value))) else None
  }

  datatype Stream = Stream(orderId: Text, sent: seq<StatusEvent>, open: bool)

  function Started(h: seq<Publication>, orderId: Text, header: Option<Text>): Stream {
    Stream(orderId,
           match ToLastEventId(header) case None => [] case Some(lastSeen) => Newer(Buffer(h, orderId), lastSeen),
           true)
  }

  /** An event the service emits; `allowed` is the check of the session that precedes each write. */
  function Received(stream: Stream, event: StatusEvent, allowed: bool): Stream {
    if !stream.open || event.orderId != stream.orderId then stream
    else if allowed then stream.(sent := stream.sent + [event])
    else stream.(open := false)
  }

  class EventStream {
    const orderId: Text
    var sent: seq<StatusEvent>
    var open: bool

    function State(): Stream
      reads this
    {
      Stream(orderId, sent, open)
    }

    constructor (events: OrderEvents, orderId: Text, header: Option<Text>)
      requires events.Valid()
      ensures State() == Started(events.history, orderId, header)
    {
      this.orderId := orderId;
      sent := [];
      open := true;
      new;
      var lastSeen := ToLastEventId(header);
      if lastSeen.Some? {
        var missed := events.MissedSince(orderId, lastSeen.value);
        for i := 0 to |missed|
          invariant State() == Stream(orderId, missed[..i], true)
        {
          sent := sent + [missed[i]];
        }
      }
    }

    method Receive(event: StatusEvent, allowed: bool)
      modifies this
      ensures State() == Received(old(State()), event, allowed)
      ensures sent == old(sent) + if old(open) && event.orderId == orderId && allowed then [event] else []
      ensures open <==> old(open) && (event.orderId != orderId || allowed)
    {
      if open && event.orderId == orderId {
        if allowed {
          sent := sent + [event];
        } else {
          open := false;
        }
      }
    }
  }

  // ----- a stream over its life -----

  datatype Heard = Heard(publication: Publication, allowed: bool)

  function HistoryAfter(h: seq<Publication>, heard: seq<Heard>): seq<Publication> {
    h + seq(|heard|, i requires 0 <= i < |heard| => heard[i].publication)
  }

  /** The event `publish` returns and emits. */
  function EventOf(h: seq<Publication>, p: Publication): StatusEvent {
    StatusEvent(|Current(h + [p], p.orderId)|, p.orderId, p.status, p.changedAt)
  }

  function StreamAfter(h: seq<Publication>, stream: Stream, heard: seq<Heard>): Stream {
    if heard == [] then stream
    else
      var front, last := heard[..|heard| - 1], heard[|heard| - 1];
      Received(StreamAfter(h, stream, front), EventOf(HistoryAfter(h, front), last.publication), last.allowed)
  }

  /** Once the order has a buffer, it keeps it. */
  ghost predicate NotEvicted(h: seq<Publication>, heard: seq<Heard>, o: Text) {
    heard == []
    || var front := heard[..|heard| - 1];
       NotEvicted(h, front, o) && (o in Present(HistoryAfter(h, front)) ==> o in Present(HistoryAfter(h, heard)))
  }

  ghost predicate AllAllowed(heard: seq<Heard>) {
    forall k | 0 <= k < |heard| :: heard[k].allowed
  }

  /** How many of the order's n events a new stream leaves out: those the client has, and those the buffer has lost. */
  function Skipped(n: nat, lastSeen: Option<nat>): nat {
    match lastSeen
    case None => n
    case Some(seen) =>
      var lost := if n > BUFFER_SIZE then n - BUFFER_SIZE else 0;
      if seen >= n then n else if seen < lost then lost else seen
  }

  lemma ReplayIsSuffix(ps: seq<Publication>, seen: nat)
    ensures Newer(Suffix(Numbered(ps), BUFFER_SIZE), seen) == Numbered(ps)[Skipped(|ps|, Some(seen))..]
  {
    var n := |ps|;
    var lost := if n > BUFFER_SIZE then n - BUFFER_SIZE else 0;
    NewerCuts(Suffix(Numbered(ps), BUFFER_SIZE), lost, seen);
  }

  lemma HistoryNext(h: seq<Publication>, heard: seq<Heard>)
    requires heard != []
    ensures HistoryAfter(h, heard)
         == HistoryAfter(h, heard[..|heard| - 1]) + [heard[|heard| - 1].publication]
  {
  }

  /** While the order is not evicted, its numbered events only grow. */
  lemma CurrentGrows(h: seq<Publication>, p: Publication, o: Text)
    requires o in Present(h) ==> o in Present(h + [p])
    ensures Numbered(Current(h + [p], o)) == Numbered(Current(h, o)) + if p.orderId == o then [EventOf(h, p)] else []
  {
    assert (h + [p])[..|h|] == h;
    PresentHasCurrent(h, o);
  }

  lemma NextIsSent(stream: Stream, events: seq<StatusEvent>, skipped: nat, event: StatusEvent, allowed: bool)
    requires skipped <= |events| && stream.sent <= events[skipped..]
    requires stream.open ==> stream.sent == events[skipped..]
    ensures var after := Received(stream, event, allowed);
            var all := events + if event.orderId == stream.orderId then [event] else [];
            && after.orderId == stream.orderId && after.sent <= all[skipped..]
            && (after.open ==> after.sent == all[skipped..])
            && (stream.open && allowed ==> after.open)
  {
    var all := events + if event.orderId == stream.orderId then [event] else [];
    assert all[skipped..] == events[skipped..] + if event.orderId == stream.orderId then [event] else [];
  }

  /**
   While the order is not evicted, a stream sends the order's events from the first one not skipped, each once and
   without a gap: all of them if every check passes, and otherwise those before the first check that fails.
   */
  lemma {:induction false} StreamSendsEachEventOnce(h: seq<Publication>, o: Text, header: Option<Text>, heard: seq<Heard>)
    requires NotEvicted(h, heard, o)
    ensures var skipped := Skipped(|Current(h, o)|, ToLastEventId(header));
            var events := Numbered(Current(HistoryAfter(h, heard), o));
            var stream := StreamAfter(h, Started(h, o, header), heard);
            && skipped <= |Current(h, o)| <= |events|
            && stream.orderId == o
            && stream.sent <= events[skipped..]
            && (stream.open ==> stream.sent == events[skipped..])
            && (AllAllowed(heard) ==> stream.open)
  {
    if heard == [] {
      assert HistoryAfter(h, heard) == h;
      if ToLastEventId(header).Some? {
        ReplayIsSuffix(Current(h, o), ToLastEventId(header).value);
      }
    } else {
      var front, last := heard[..|heard| - 1], heard[|heard| - 1];
      StreamSendsEachEventOnce(h, o, header, front);
      HistoryNext(h, heard);
      CurrentGrows(HistoryAfter(h, front), last.publication, o);
      NextIsSent(StreamAfter(h, Started(h, o, header), front), Numbered(Current(HistoryAfter(h, front), o)),
                 Skipped(|Current(h, o)|, ToLastEventId(header)), EventOf(HistoryAfter(h, front), last.publication),
                 last.allowed);
      assert AllAllowed(heard) ==> AllAllowed(front);
    }
  }

  /** The event heard at k is the order's, and the check before it fails. */
  ghost predicate FailsAt(heard: seq<Heard>, o: Text, k: nat) {
    k < |heard| && heard[k].publication.orderId == o && !heard[k].allowed
  }

  lemma {:induction false} StreamKeepsItsOrder(h: seq<Publication>, stream: Stream, heard: seq<Heard>)
    ensures StreamAfter(h, stream, heard).orderId == stream.orderId
  {
    if heard != [] {
      StreamKeepsItsOrder(h, stream, heard[..|heard| - 1]);
    }
  }

  lemma {:induction false} OpenUnlessACheckFails(h: seq<Publication>, stream: Stream, heard: seq<Heard>)
    requires stream.open && forall k :: !FailsAt(heard, stream.orderId, k)
    ensures StreamAfter(h, stream, heard).open
  {
    if heard != [] {
      var front, n := heard[..|heard| - 1], |heard| - 1;
      forall k
        ensures !FailsAt(front, stream.orderId, k)
      {
        assert FailsAt(front, stream.orderId, k) ==> FailsAt(heard, stream.orderId, k);
      }
      OpenUnlessACheckFails(h, stream, front);
      StreamKeepsItsOrder(h, stream, front);
      assert !FailsAt(heard, stream.orderId, n);
    }
  }

  /** As long as every check before an event of the order passes, the stream is open and has sent all that is not skipped. */
  lemma PassingChecksKeepStreamOpen(h: seq<Publication>, o: Text, header: Option<Text>, heard: seq<Heard>)
    requires NotEvicted(h, heard, o) && forall k :: !FailsAt(heard, o, k)
    ensures var stream := StreamAfter(h, Started(h, o, header), heard);
            var skipped := Skipped(|Current(h, o)|, ToLastEventId(header));
            && stream.open && stream.orderId == o
            && skipped <= |Current(HistoryAfter(h, heard), o)|
            && stream.sent == Numbered(Current(HistoryAfter(h, heard), o))[skipped..]
  {
    StreamSendsEachEventOnce(h, o, header, heard);
    OpenUnlessACheckFails(h, Started(h, o, header), heard);
  }

  lemma {:induction false} ClosedStreamStaysAsItIs(h: seq<Publication>, stream: Stream, heard: seq<Heard>, k: nat)
    requires k <= |heard| && !StreamAfter(h, stream, heard[..k]).open
    ensures StreamAfter(h, stream, heard) == StreamAfter(h, stream, heard[..k])
  {
    if k == |heard| {
      assert heard[..k] == heard;
    } else {
      assert heard[..|heard| - 1][..k] == heard[..k];
      ClosedStreamStaysAsItIs(h, stream, heard[..|heard| - 1], k);
    }
  }

  lemma FailingCheckCloses(h: seq<Publication>, stream: Stream, heard: seq<Heard>, k: nat)
    requires FailsAt(heard, stream.orderId, k)
    ensures var before := StreamAfter(h, stream, heard[..k]);
            StreamAfter(h, stream, heard[..k + 1]) == before.(open := false)
  {
    assert heard[..k + 1][..k] == heard[..k];
    StreamKeepsItsOrder(h, stream, heard[..k]);
  }

  /**
   The first failing check ends the stream: whatever is published and checked afterwards, it is closed, and it sends nothing
   more. Unless the order is evicted before, it has sent exactly the events before that one, from the first not skipped.
   */
  lemma StreamEndsAtFirstFailingCheck(h: seq<Publication>, o: Text, header: Option<Text>, heard: seq<Heard>, k: nat)
    requires FailsAt(heard, o, k) && forall j | 0 <= j < k :: !FailsAt(heard, o, j)
    ensures var stream := StreamAfter(h, Started(h, o, header), heard);
            !stream.open && stream.sent == StreamAfter(h, Started(h, o, header), heard[..k]).sent
    ensures NotEvicted(h, heard[..k], o) ==>
              var skipped := Skipped(|Current(h, o)|, ToLastEventId(header));
              && skipped <= |Current(HistoryAfter(h, heard[..k]), o)|
              && StreamAfter(h, Started(h, o, header), heard).sent
                 == Numbered(Current(HistoryAfter(h, heard[..k]), o))[skipped..]
  {
    FailingCheckCloses(h, Started(h, o, header), heard, k);
    ClosedStreamStaysAsItIs(h, Started(h, o, header), heard, k + 1);
    if NotEvicted(h, heard[..k], o) {
      forall j
        ensures !FailsAt(heard[..k], o, j)
      {
        assert FailsAt(heard[..k], o, j) ==> FailsAt(heard, o, j);
      }
      PassingChecksKeepStreamOpen(h, o, header, heard[..k]);
    }
  }

  /** A header with the number n, as a client sends back the id it saw last, is read as n. */
  lemma CanonicalHeaderIsRead(n: nat)
    requires n <= 0x20_0000_0000_0000
    ensures ToLastEventId(Some(Decimal(n))) == Some(n)
  {
    ValueOfDecimal(n);
    JsNumberIsExact(n);
  }

  /** Without a header, or with one that is not all digits, nothing is replayed. */
  lemma OtherHeadersReplayNothing(h: seq<Publication>, o: Text, header: Option<Text>)
    requires header.Some? ==> header.value == [] || exists i | 0 <= i < |header.value| :: !(0x30 <= header.value[i] <= 0x39)
    ensures Started(h, o, header).sent == [] && Started(h, o, header).open
  {
  }

  /** The header of a client that saw events up to n makes the stream begin with the next one, if the buffer still has it. */
  lemma ReplayFollowsHeader(h: seq<Publication>, o: Text, n: nat)
    requires n <= 0x20_0000_0000_0000 && |Current(h, o)| - 100 <= n <= |Current(h, o)|
    ensures Started(h, o, Some(Decimal(n))).sent == Numbered(Current(h, o))[n..]
  {
    CanonicalHeaderIsRead(n);
    ReplayIsSuffix(Current(h, o), n);
  }

  /**
   The ids a stream sends are consecutive, and they continue those the client has exactly if the client's last id is one
   that this numbering has given out and the buffer still reaches back to it.
   */
  lemma StreamContinuesClient(h: seq<Publication>, o: Text, header: Option<Text>, heard: seq<Heard>, i: nat)
    requires NotEvicted(h, heard, o) && ToLastEventId(header).Some?
    requires i < |StreamAfter(h, Started(h, o, header), heard).sent|
    ensures var n, seen := |Current(h, o)|, ToLastEventId(header).value;
            var sent := StreamAfter(h, Started(h, o, header), heard).sent;
            && sent[i].id == sent[0].id + i
            && (sent[0].id == seen + 1 <==> n - BUFFER_SIZE <= seen <= n)
  {
    StreamSendsEachEventOnce(h, o, header, heard);
  }
}
