/** Changing an order's status: one guarded UPDATE, and an event under the id by which the order was addressed. */
module OrderStatus {
  import opened Options
  import opened Text
  import opened Checkout
  import opened OrderEvents
  import opened OrderStreams

  datatype ChangeResult =
    | StatusChanged(event: StatusEvent)
    | OrderNotFound
    | InvalidTransition(current: Status)
    | IdOutOfRange
    | RefreshFailed

  predicate Exists(orders: seq<Order>, id: nat) {
    exists i | 0 <= i < |orders| :: orders[i].id == id
  }

  /** The UPDATE finds its row. */
  predicate MayChange(orders: seq<Order>, id: nat, status: Status) {
    exists i | 0 <= i < |orders| :: orders[i].id == id && MayBecome(orders[i].status, status)
  }

  /** The id is good for the column, and the order may take the status. */
  predicate Changes(orders: seq<Order>, path: Id, status: Status) {
    Value(path) <= MAX_BIGINT && MayChange(orders, Value(path), status)
  }

  class OrderStatusService {
    const store: Store
    const events: OrderEvents

    constructor (store: Store, events: OrderEvents)
      ensures this.store == store && this.events == events
    {
      this.store := store;
      this.events := events;
    }

    /**
     `path` is the id of the request. A committed change is published at once; `refreshFails` says that finding the
     order for its product cards fails afterwards, which takes neither back.
     */
    method Change(path: Id, status: Status, changedAt: int, refreshFails: bool) returns (result: ChangeResult)
      requires events.Valid()
      modifies store, events
      ensures events.Valid()
      ensures !Changes(old(store.orders), path, status) ==>
                && store.State() == old(store.State())
                && events.history == old(events.history) && events.emitted == old(events.emitted)
                && match result
                   case IdOutOfRange => Value(path) > MAX_BIGINT
                   case OrderNotFound => Value(path) <= MAX_BIGINT && !Exists(old(store.orders), Value(path))
                   case InvalidTransition(current) =>
                     && Value(path) <= MAX_BIGINT && !MayBecome(current, status)
                     && exists i :: 0 <= i < |old(store.orders)| && old(store.orders)[i].id == Value(path)
                          && old(store.orders)[i].status == current
                   case _ => false
      ensures Changes(old(store.orders), path, status) ==>
                var p := Publication(path, status, changedAt);
                var event := EventOf(old(events.history), p);
                && store.State() == StatusAfter(old(store.State()), Value(path), status)
                && events.history == old(events.history) + [p] && events.emitted == old(events.emitted) + [event]
                && result == if refreshFails then RefreshFailed else StatusChanged(event)
    {
      if Value(path) > MAX_BIGINT {
        return IdOutOfRange;
      }
      var changed := store.ChangeStatus(Value(path), status);
      if changed {
        var event := events.Publish(path, status, changedAt);
        return if refreshFails then RefreshFailed else StatusChanged(event);
      }
      NothingChanges(old(store.State()), Value(path), status);
      var current := store.FindStatus(Value(path));
      result := match current
        case None => OrderNotFound
        case Some(status) => InvalidTransition(status);
    }
  }

  lemma NothingChanges(db: Db, id: nat, status: Status)
    requires !MayChange(db.orders, id, status)
    ensures StatusAfter(db, id, status) == db
  {
    assert StatusAfter(db, id, status).orders == db.orders;
  }

  // ----- changes and streams -----

  /** The stream is open and gets to write the event. */
  predicate Reaches(event: StatusEvent, stream: Stream) {
    Received(stream, event, true).sent == stream.sent + [event]
  }

  /**
   A change is written to exactly those open streams of the order that were opened under the spelling of its id that the
   change was made under.
   */
  lemma ChangeReachesStreamsOfItsSpelling(h: seq<Publication>, path: Id, status: Status, changedAt: int, stream: Stream)
    requires stream.open
    ensures Reaches(EventOf(h, Publication(path, status, changedAt)), stream) <==> stream.orderId == path
  {
    var event := EventOf(h, Publication(path, status, changedAt));
    assert |stream.sent + [event]| != |stream.sent|;
  }

  /** So the streams opened under the order's own id hear of a change exactly if its path is that id: 007 is not 7. */
  lemma ChangeReachesStreamsIffPathIsCanonical(h: seq<Publication>, path: Id, status: Status, changedAt: int,
                                               stream: Stream)
    requires stream.open && stream.orderId == Decimal(Value(path))
    ensures Reaches(EventOf(h, Publication(path, status, changedAt)), stream) <==> IsCanonical(path)
  {
    ChangeReachesStreamsOfItsSpelling(h, path, status, changedAt, stream);
    DecimalOfValue(path);
  }
}
