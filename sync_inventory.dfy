/** The synchronous inventory service: an in-memory stock dictionary,
    the reservations made against it, and the runtime fault-injection
    settings.  `reserve` answers 404 for an unknown item, 409 when the
    stock is short, and otherwise takes the stock and records a
    reservation. */
module SyncInventory {
  import opened Common

  /** The body of a reservation request; `None` is a field the request
      does not carry. */
  datatype ReserveRequest = ReserveRequest(
    orderId: Option<string>,
    requestId: Option<string>,
    item: Option<string>,
    qty: Option<int>)

  /** A `reservations` record. */
  datatype Reservation = Reservation(orderId: string, item: string, qty: int)

  /** The three answers `reserve` gives. */
  datatype ReserveResponse =
    | NotFound(item: string, requestId: string)
    | Insufficient(item: string, available: int, requestId: string)
    | Reserved(reservationId: string, item: string, qty: int, remaining: int, requestId: string)
  {
    function StatusCode(): int {
      match this
      case NotFound(_, _) => 404
      case Insufficient(_, _, _) => 409
      case Reserved(_, _, _, _, _) => 200
    }
  }

  /** The service's state. */
  datatype Store = Store(inventory: map<string, int>, reservations: map<string, Reservation>)

  /** The state after a request and the answer given. */
  datatype Answer = Answer(store: Store, response: ReserveResponse)

  /** The fault-injection settings. */
  datatype FaultConfig = FaultConfig(delay: real, failureRate: real)

  /** A value sent for a setting, as `float()` sees it: a number it
      converts, or something it rejects (`null`, a non-numeric string). */
  datatype SettingValue = Convertible(number: real) | Inconvertible

  /** The body of a `configure` request; `None` is a key it does not carry. */
  datatype ConfigureRequest = ConfigureRequest(delay: Option<SettingValue>, failureRate: Option<SettingValue>)

  /** The settings after a `configure` request, and whether it failed with
      a 500 because a value did not convert. */
  datatype Configured = Configured(config: FaultConfig, failed: bool)

  /** The stock the service starts with. */
  const InitialInventory: map<string, int> :=
    map["burger" := 100, "pizza" := 100, "sushi" := 100, "taco" := 100, "salad" := 100]

  const InitialFaultConfig: FaultConfig := FaultConfig(0.0, 0.0)

  /** The stock key a request names: its `item` lower-cased, `""` if absent. */
  function ItemKey(req: ReserveRequest): (key: string)
    ensures Lower(key) == key
  {
    LowerIdempotent(req.item.GetOr(""));
    Lower(req.item.GetOr(""))
  }

  /** `"RES-" + order_id`, with the order id defaulting to `"unknown"`. */
  function ReservationId(req: ReserveRequest): string {
    "RES-" + req.orderId.GetOr("unknown")
  }

  predicate NonNegative(inventory: map<string, int>) {
    forall item :: item in inventory ==> inventory[item] >= 0
  }

  /** The business logic of `reserve`. */
  function Reserve(s: Store, req: ReserveRequest): (a: Answer)
    // an unknown item is a 404 that changes nothing
    ensures a.response.NotFound? <==> ItemKey(req) !in s.inventory
    // a short stock is a 409 that reports what is available and changes nothing
    ensures a.response.Insufficient? <==> ItemKey(req) in s.inventory && s.inventory[ItemKey(req)] < req.qty.GetOr(1)
    ensures a.response.Insufficient? ==> a.response.available == s.inventory[ItemKey(req)]
    ensures !a.response.Reserved? ==> a.store == s
    // every answer echoes the request id, defaulting to "unknown", and names the lower-cased item
    ensures a.response.requestId == req.requestId.GetOr("unknown")
    ensures a.response.item == ItemKey(req)
    // a reservation takes exactly `qty` from that item and no other
    ensures a.response.Reserved? ==>
      var key, qty := ItemKey(req), req.qty.GetOr(1);
      && key in s.inventory && qty <= s.inventory[key]
      && a.store.inventory == s.inventory[key := s.inventory[key] - qty]
      && a.response.qty == qty
      && a.response.remaining == a.store.inventory[key]
    // ... and records it under "RES-" + order id, replacing any earlier record there
    ensures a.response.Reserved? ==>
      && a.response.reservationId == ReservationId(req)
      && a.store.reservations == s.reservations[ReservationId(req) :=
           Reservation(req.orderId.GetOr("unknown"), ItemKey(req), req.qty.GetOr(1))]
    // the stocked items never change, and no stock is driven below zero
    ensures a.store.inventory.Keys == s.inventory.Keys
    ensures NonNegative(s.inventory) ==> NonNegative(a.store.inventory)
  {
    var key, qty := ItemKey(req), req.qty.GetOr(1);
    var requestId := req.requestId.GetOr("unknown");
    if key !in s.inventory then
      Answer(s, NotFound(key, requestId))
    else if s.inventory[key] < qty then
      Answer(s, Insufficient(key, s.inventory[key], requestId))
    else
      var remaining := s.inventory[key] - qty;
      Answer(Store(s.inventory[key := remaining],
                   s.reservations[ReservationId(req) := Reservation(req.orderId.GetOr("unknown"), key, qty)]),
             Reserved(ReservationId(req), key, qty, remaining, requestId))
  }

  /** Item names are case-insensitive: requests that differ only in the
      case of their item get the same answer and leave the same state. */
  lemma ReserveIgnoresCase(s: Store, r1: ReserveRequest, r2: ReserveRequest)
    requires r1.item.Some? && r2.item.Some? && SameIgnoringCase(r1.item.value, r2.item.value)
    requires r1.(item := None) == r2.(item := None)
    ensures Reserve(s, r1) == Reserve(s, r2)
  {
    LowerEqualIffSameIgnoringCase(r1.item.value, r2.item.value);
    assert ItemKey(r1) == ItemKey(r2);
    assert ReservationId(r1) == ReservationId(r2);
  }

  /** Reservations are not deduplicated: retrying a successful request
      whose stock still suffices takes the quantity a second time, and the
      second record replaces the first. */
  lemma RetryReservesAgain(s: Store, req: ReserveRequest)
    requires Reserve(s, req).response.Reserved?
    requires var once := Reserve(s, req).store;
      once.inventory[ItemKey(req)] >= req.qty.GetOr(1)
    ensures var once := Reserve(s, req).store;
      var twice := Reserve(once, req).store;
      && twice.inventory[ItemKey(req)] == s.inventory[ItemKey(req)] - 2 * req.qty.GetOr(1)
      && twice.reservations == once.reservations
  {
  }

  /** A carried setting that `float()` rejects. */
  predicate Rejects(v: Option<SettingValue>) {
    v == Some(Inconvertible)
  }

  /** `configure`: `delay` is converted and written first, then
      `failure_rate`; a value that does not convert aborts the request with
      a 500, keeping whatever was already written. */
  function Reconfigure(c: FaultConfig, req: ConfigureRequest): (r: Configured)
    // the request fails exactly when a carried value does not convert
    ensures r.failed <==> Rejects(req.delay) || Rejects(req.failureRate)
    // a bad delay aborts before anything is written
    ensures Rejects(req.delay) ==> r.config == c
    // a convertible delay is written, even if the failure rate then aborts
    ensures req.delay.Some? && !Rejects(req.delay) ==> r.config.delay == req.delay.value.number
    ensures req.delay.None? ==> r.config.delay == c.delay
    // the failure rate is written only when it converts and the delay did
    ensures !Rejects(req.delay) && req.failureRate.Some? && !Rejects(req.failureRate) ==>
      r.config.failureRate == req.failureRate.value.number
    ensures Rejects(req.delay) || req.failureRate.None? || Rejects(req.failureRate) ==>
      r.config.failureRate == c.failureRate
  {
    if Rejects(req.delay) then Configured(c, true)
    else
      var c1 := if req.delay.Some? then c.(delay := req.delay.value.number) else c;
      if Rejects(req.failureRate) then Configured(c1, true)
      else if req.failureRate.Some? then Configured(c1.(failureRate := req.failureRate.value.number), false)
      else Configured(c1, false)
  }

  /** Sending the same settings twice is sending them once (a failed
      request fails again the same way), and requests that set different
      keys leave the same settings in either order, failed or not. */
  lemma ReconfigureIdempotentAndCommuting(c: FaultConfig, r1: ConfigureRequest, r2: ConfigureRequest)
    ensures Reconfigure(Reconfigure(c, r1).config, r1) == Reconfigure(c, r1)
    ensures (r1.delay.None? || r2.delay.None?) && (r1.failureRate.None? || r2.failureRate.None?) ==>
      Reconfigure(Reconfigure(c, r1).config, r2).config == Reconfigure(Reconfigure(c, r2).config, r1).config
  {
  }

  /** The service's module-level dictionaries. */
  class InventoryService {
    var inventory: map<string, int>
    var reservations: map<string, Reservation>
    var faultConfig: FaultConfig

    constructor ()
      ensures inventory == InitialInventory && reservations == map[] && faultConfig == InitialFaultConfig
    {
      inventory := InitialInventory;
      reservations := map[];
      faultConfig := InitialFaultConfig;
    }

    function Contents(): Store
      reads this
    {
      Store(inventory, reservations)
    }

    /** `POST /reserve`, past fault injection. */
    method HandleReserve(req: ReserveRequest) returns (response: ReserveResponse)
      modifies this
      ensures Answer(Contents(), response) == Reserve(old(Contents()), req)
      ensures faultConfig == old(faultConfig)
    {
      var orderId := req.orderId.GetOr("unknown");
      var requestId := req.requestId.GetOr("unknown");
      var item := ItemKey(req);
      var qty := req.qty.GetOr(1);
      if item !in inventory {
        return NotFound(item, requestId);
      }
      if inventory[item] < qty {
        return Insufficient(item, inventory[item], requestId);
      }
      inventory := inventory[item := inventory[item] - qty];
      var reservationId := "RES-" + orderId;
      reservations := reservations[reservationId := Reservation(orderId, item, qty)];
      return Reserved(reservationId, item, qty, inventory[item], requestId);
    }

    /** `POST /configure`: answers with the settings now in force, or
        fails with a 500 part-way through. */
    method HandleConfigure(req: ConfigureRequest) returns (failed: bool, config: FaultConfig)
      modifies this
      ensures Configured(faultConfig, failed) == Reconfigure(old(faultConfig), req) && config == faultConfig
      ensures inventory == old(inventory) && reservations == old(reservations)
    {
      if req.delay.Some? {
        if req.delay.value.Inconvertible? {
          return true, faultConfig;
        }
        faultConfig := faultConfig.(delay := req.delay.value.number);
      }
      if req.failureRate.Some? {
        if req.failureRate.value.Inconvertible? {
          return true, faultConfig;
        }
        faultConfig := faultConfig.(failureRate := req.failureRate.value.number);
      }
      return false, faultConfig;
    }
  }
}
