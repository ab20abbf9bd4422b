/** The asynchronous inventory service's reservation consumer.

    Each `OrderPlaced` delivery is decided against two tables, the stock
    per item and the orders already processed, and ends in one of three
    ways: rejected (dead-lettered, never requeued), acknowledged (possibly
    after publishing an inventory event), or an exception escaping the
    callback before any write, leaving the delivery unsettled.  Recording
    every acknowledged order except a repeated one is what makes a
    redelivery harmless. */
module AsyncInventory {
  import opened Common

  /** A `qty` value as `int()` sees it: converted, or rejected (`null`,
      a non-numeric string). */
  datatype Quantity = Converts(n: int) | Unconvertible

  /** The fields of an `OrderPlaced` message the consumer reads; a missing
      or `null` id or item is `None`, and a missing `qty` is `None`. */
  datatype OrderPlaced = OrderPlaced(
    orderId: Option<string>,
    requestId: Option<string>,
    item: Option<string>,
    qty: Option<Quantity>)

  /** A delivery body: not JSON at all, JSON that is not an object (a list,
      a number, a string, `null`), or a decoded message object. */
  datatype Body = Malformed | NotAnObject | Decoded(message: OrderPlaced)

  /** A `processed_orders` row (its creation time is not modelled). */
  datatype ProcessedRow = ProcessedRow(reservationId: Option<string>, status: string)

  /** The two tables the consumer owns. */
  datatype Tables = Tables(inventory: map<string, int>, processed: map<string, ProcessedRow>)

  /** What the consumer publishes to the inventory exchange. */
  datatype InventoryEvent =
    | Reserved(orderId: string, reservationId: string, item: string, qty: int, remaining: int,
               requestId: Option<string>)
    | Failed(orderId: string, reason: string, requestId: Option<string>)

  /** How a delivery ends at the broker; `Raised` is an exception escaping
      the callback, which neither acknowledges nor rejects the delivery. */
  datatype Outcome = Rejected | Acked(published: Option<InventoryEvent>) | Raised

  /** The tables after a delivery and how the delivery ended. */
  datatype Step = Step(tables: Tables, outcome: Outcome)

  const InitialItems: seq<string> := ["burger", "pizza", "sushi", "taco", "salad"]
  const InitialQty: int := 100

  /** The stock a fresh database is seeded with. */
  function SeedStock(): (m: map<string, int>)
    ensures forall item :: item in m <==> item in InitialItems
    ensures forall item :: item in m ==> m[item] == InitialQty
  {
    map item | item in InitialItems :: InitialQty
  }

  /** `init_db`: the inventory table is seeded only when it is empty. */
  function Seeded(inventory: map<string, int>): (r: map<string, int>)
    ensures |inventory| == 0 ==> r == SeedStock()
    ensures |inventory| > 0 ==> r == inventory
  {
    if |inventory| == 0 then SeedStock() else inventory
  }

  /** Restarting the service never resets stock: seeding twice is seeding once. */
  lemma SeedingIsIdempotent(inventory: map<string, int>)
    ensures Seeded(Seeded(inventory)) == Seeded(inventory)
  {
    assert "burger" in SeedStock();
  }

  /** `"RES-" + order_id`. */
  function ReservationId(orderId: string): string {
    "RES-" + orderId
  }

  /** Whether `int(payload.get('qty', 1))` succeeds. */
  predicate QtyConverts(m: OrderPlaced) {
    m.qty != Some(Unconvertible)
  }

  /** The converted quantity, 1 when the message carries none. */
  function Qty(m: OrderPlaced): int
    requires QtyConverts(m)
  {
    match m.qty
    case None => 1
    case Some(q) => q.n
  }

  /** A message the consumer refuses: `not order_id or not item`. */
  predicate Incomplete(m: OrderPlaced) {
    m.orderId.None? || m.orderId.value == "" || m.item.None? || m.item.value == ""
  }

  predicate NonNegative(inventory: map<string, int>) {
    forall item :: item in inventory ==> inventory[item] >= 0
  }

  /** The decision `callback` takes on one delivery. */
  function HandleDelivery(t: Tables, body: Body): (r: Step)
    // an exception escapes exactly for a JSON body that is not an object or a `qty` that `int()` rejects
    ensures r.outcome.Raised? <==> body.NotAnObject? || (body.Decoded? && !QtyConverts(body.message))
    // rejected exactly when the body is not JSON or lacks an order id or item
    ensures r.outcome.Rejected? <==>
      body.Malformed? || (body.Decoded? && QtyConverts(body.message) && Incomplete(body.message))
    // neither path writes anything
    ensures r.outcome.Raised? || r.outcome.Rejected? ==> r.tables == t
    // an acknowledged order is on record afterwards, whatever happened to it
    ensures r.outcome.Acked? ==> body.Decoded? && QtyConverts(body.message) && !Incomplete(body.message)
    ensures r.outcome.Acked? ==> body.message.orderId.value in r.tables.processed
    // rows are only ever added, and only for this order
    ensures forall o :: o in t.processed ==> o in r.tables.processed && r.tables.processed[o] == t.processed[o]
    ensures forall o :: o in r.tables.processed && o !in t.processed ==>
      body.Decoded? && body.message.orderId == Some(o)
    // the set of stocked items never changes, and at most the ordered item's stock does
    ensures r.tables.inventory.Keys == t.inventory.Keys
    ensures forall item :: item in t.inventory && (!body.Decoded? || body.message.item != Some(item)) ==>
      r.tables.inventory[item] == t.inventory[item]
    // no stock is driven below zero
    ensures NonNegative(t.inventory) ==> NonNegative(r.tables.inventory)
    // a reservation takes exactly the ordered quantity, and says what is left
    ensures r.outcome.Acked? && r.outcome.published.Some? && r.outcome.published.value.Reserved? ==>
      var e := r.outcome.published.value;
      && e.orderId == body.message.orderId.value && Some(e.item) == body.message.item
      && e.qty == Qty(body.message) && e.requestId == body.message.requestId
      && e.reservationId == ReservationId(e.orderId)
      && e.item in t.inventory
      && e.qty <= t.inventory[e.item]
      && r.tables.inventory[e.item] == e.remaining == t.inventory[e.item] - e.qty
      && r.tables.processed[e.orderId] == ProcessedRow(Some(e.reservationId), "reserved")
    // a failure is recorded with no reservation and published with its reason
    ensures r.outcome.Acked? && r.outcome.published.Some? && r.outcome.published.value.Failed? ==>
      var e := r.outcome.published.value;
      && e.orderId == body.message.orderId.value && e.requestId == body.message.requestId
      && r.tables.inventory == t.inventory
      && r.tables.processed[e.orderId].reservationId.None?
      && (e.reason == "item_not_found" || e.reason == "insufficient_stock")
    // an order already on record is acknowledged with nothing written and nothing published
    ensures r.outcome == Acked(None) <==>
      body.Decoded? && QtyConverts(body.message) && !Incomplete(body.message)
      && body.message.orderId.value in t.processed
    ensures r.outcome == Acked(None) ==> r.tables == t
  {
    match body
    case Malformed => Step(t, Rejected)
    case NotAnObject => Step(t, Raised)
    case Decoded(m) =>
      if !QtyConverts(m) then Step(t, Raised)
      else if Incomplete(m) then Step(t, Rejected)
      else
        var orderId, item, qty := m.orderId.value, m.item.value, Qty(m);
        if orderId in t.processed then
          Step(t, Acked(None))
        else if item !in t.inventory then
          Step(t.(processed := t.processed[orderId := ProcessedRow(None, "failed_item_not_found")]),
               Acked(Some(Failed(orderId, "item_not_found", m.requestId))))
        else if t.inventory[item] < qty then
          Step(t.(processed := t.processed[orderId := ProcessedRow(None, "failed_insufficient")]),
               Acked(Some(Failed(orderId, "insufficient_stock", m.requestId))))
        else
          var remaining := t.inventory[item] - qty;
          Step(Tables(t.inventory[item := remaining],
                      t.processed[orderId := ProcessedRow(Some(ReservationId(orderId)), "reserved")]),
               Acked(Some(Reserved(orderId, ReservationId(orderId), item, qty, remaining, m.requestId))))
  }

  /** Which row a first delivery of a complete message records: the
      reservation when the item is stocked deeply enough, otherwise the
      reason it failed. */
  lemma FirstDeliveryRecords(t: Tables, m: OrderPlaced)
    requires QtyConverts(m) && !Incomplete(m) && m.orderId.value !in t.processed
    ensures var r := HandleDelivery(t, Decoded(m));
      var orderId, item, qty := m.orderId.value, m.item.value, Qty(m);
      && (item !in t.inventory ==>
            r.tables.processed[orderId] == ProcessedRow(None, "failed_item_not_found")
            && r.outcome == Acked(Some(Failed(orderId, "item_not_found", m.requestId))))
      && (item in t.inventory && t.inventory[item] < qty ==>
            r.tables.processed[orderId] == ProcessedRow(None, "failed_insufficient")
            && r.outcome == Acked(Some(Failed(orderId, "insufficient_stock", m.requestId))))
      && (item in t.inventory && t.inventory[item] >= qty ==>
            r.tables.processed[orderId] == ProcessedRow(Some(ReservationId(orderId)), "reserved")
            && r.tables.inventory[item] == t.inventory[item] - qty
            && r.outcome.published.value.requestId == m.requestId)
  {
  }

  /** A redelivery of any acknowledged message is acknowledged again with
      no effect and no publication: the consumer is idempotent. */
  lemma RedeliveryIsNoOp(t: Tables, body: Body)
    requires HandleDelivery(t, body).outcome.Acked?
    ensures var once := HandleDelivery(t, body).tables;
      HandleDelivery(once, body) == Step(once, Acked(None))
  {
  }

  /** Two deliveries of one order reserve stock once: the stock after both
      is the stock after the first. */
  lemma StockReservedOnce(t: Tables, body: Body)
    ensures var once := HandleDelivery(t, body).tables;
      HandleDelivery(once, body).tables == once
  {
    if HandleDelivery(t, body).outcome.Acked? {
      RedeliveryIsNoOp(t, body);
    }
  }

  /** The consumer with its two tables. */
  class InventoryConsumer {
    var inventory: map<string, int>
    var processed: map<string, ProcessedRow>

    /** Opening the database: the tables as found, with the inventory
        seeded if it is empty. */
    constructor (inventory0: map<string, int>, processed0: map<string, ProcessedRow>)
      ensures inventory == Seeded(inventory0) && processed == processed0
    {
      processed := processed0;
      if |inventory0| == 0 {
        inventory := SeedStock();
      } else {
        inventory := inventory0;
      }
    }

    function Contents(): Tables
      reads this
    {
      Tables(inventory, processed)
    }

    /** `callback`: checks the body, then the order record, then the stock,
        writing to the tables only on the paths that acknowledge a new order. */
    method Callback(body: Body) returns (outcome: Outcome)
      modifies this
      ensures Step(Contents(), outcome) == HandleDelivery(old(Contents()), body)
    {
      if body.Malformed? {
        return Rejected;
      }
      if body.NotAnObject? {
        return Raised;
      }
      var m := body.message;
      if m.qty == Some(Unconvertible) {
        return Raised;
      }
      var qty := if m.qty.Some? then m.qty.value.n else 1;
      if m.orderId.None? || m.orderId.value == "" || m.item.None? || m.item.value == "" {
        return Rejected;
      }
      var orderId, item := m.orderId.value, m.item.value;
      if orderId in processed {
        return Acked(None);
      }
      if item !in inventory {
        processed := processed[orderId := ProcessedRow(None, "failed_item_not_found")];
        return Acked(Some(Failed(orderId, "item_not_found", m.requestId)));
      }
      var available := inventory[item];
      if available < qty {
        processed := processed[orderId := ProcessedRow(None, "failed_insufficient")];
        return Acked(Some(Failed(orderId, "insufficient_stock", m.requestId)));
      }
      var newQty := available - qty;
      inventory := inventory[item := newQty];
      var reservationId := ReservationId(orderId);
      processed := processed[orderId := ProcessedRow(Some(reservationId), "reserved")];
      return Acked(Some(Reserved(orderId, reservationId, item, qty, newQty, m.requestId)));
    }
  }
}
