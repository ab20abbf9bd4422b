/** The analytics consumer's in-memory state: the duplicate filter, the
    two sliding windows and the metrics aggregator that owns them.

    Every operation that reads the clock in the source takes the reading as
    a parameter `now`.  Callers promise the clock does not go back past an
    entry still held (`StampedBy(now)`); every operation re-establishes
    that promise for the same `now`. */
module Analytics {
  import opened Common
  import opened Sliding

  /** `count * 60 / window`: distinct active orders scaled to a per-minute rate. */
  function RatePerMinute(count: nat, window: real): (rate: real)
    requires window >= 1.0
    ensures rate * window == count as real * 60.0
    ensures 0.0 <= rate <= count as real * 60.0
  {
    (count as real * 60.0) / window
  }

  /** `failures / total * 100`, or 0 for an empty window: never a division by zero. */
  function FailurePercent(failures: nat, total: nat): (pct: real)
    ensures total == 0 ==> pct == 0.0
    ensures total > 0 ==> pct * total as real == failures as real * 100.0
    ensures failures <= total ==> 0.0 <= pct <= 100.0
  {
    if total == 0 then 0.0 else failures as real / total as real * 100.0
  }

  /** A set of event identities with a time-to-live: `_seen` maps an
      identity to the instant it was registered, `_order` is the FIFO of
      registrations used for eviction. */
  class DuplicateFilter {
    const ttl: real
    var seen: map<string, real>
    var order: seq<Stamped<string>>

    ghost predicate Valid()
      reads this
    {
      ttl >= 1.0 && Sorted(order) && Distinct(order) && Latest(seen, order)
    }

    /** Nothing held was registered after `now`. */
    ghost predicate StampedBy(now: real)
      reads this
    {
      NotAfter(order, now)
    }

    constructor (ttlSeconds: real)
      ensures Valid() && ttl == AtLeastOne(ttlSeconds)
      ensures seen == map[] && order == []
    {
      ttl := AtLeastOne(ttlSeconds);
      seen := map[];
      order := [];
    }

    /** Forgets every registration older than `now - ttl`. */
    method Evict(now: real)
      requires Valid()
      modifies this
      ensures Valid()
      ensures seen == Unexpired(old(seen), now - ttl)
      ensures order == old(order)[ExpiredCount(old(order), now - ttl)..]
    {
      var cutoff := now - ttl;
      var q, m := order, seen;
      ghost var q0, m0 := q, m;
      ghost var n := 0;
      while q != [] && q[0].ts < cutoff
        invariant Distinct(q) && Latest(m, q)
        invariant n <= |q0| && q == q0[n..]
        invariant forall i :: 0 <= i < n ==> q0[i].ts < cutoff
        decreases |q|
      {
        PopDistinct(m, q);
        var eventId := q[0].item;
        q := q[1..];
        m := m - {eventId};
        n := n + 1;
      }
      PoppedIsExpiredCount(q0, cutoff, n);
      SuffixSorted(q0, n);
      ExpireLatest(m0, q0, cutoff);
      LatestUnique(m, Unexpired(m0, cutoff), q);
      order, seen := q, m;
    }

    /** The state after looking `eventId` up at `now`, given the state
        before: the expired registrations are gone, and `eventId` is
        registered at `now` unless it was still live. */
    ghost predicate RegisteredFrom(seen0: map<string, real>, order0: seq<Stamped<string>>, eventId: string, now: real)
      reads this
    {
      var live := Unexpired(seen0, now - ttl);
      var kept := order0[ExpiredCount(order0, now - ttl)..];
      if eventId in live then seen == live && order == kept
      else seen == live[eventId := now] && order == kept + [Stamped(now, eventId)]
    }

    /** Reports whether `eventId` is still registered once the expired
        registrations are forgotten; if it is not, registers it at `now`. */
    method Register(eventId: string, now: real) returns (duplicate: bool)
      requires Valid() && StampedBy(now)
      modifies this
      ensures Valid() && StampedBy(now)
      ensures duplicate == (eventId in Unexpired(old(seen), now - ttl))
      ensures RegisteredFrom(old(seen), old(order), eventId, now)
    {
      ghost var live, kept := Unexpired(seen, now - ttl), order[ExpiredCount(order, now - ttl)..];
      SuffixKeepsOrder(order, ExpiredCount(order, now - ttl), now);
      Evict(now);
      assert seen == live && order == kept;
      if eventId in seen {
        return true;
      }
      PushLatest(seen, order, eventId, now);
      PushDistinct(seen, order, eventId, now);
      AppendKeepsSorted(order, Stamped(now, eventId));
      seen := seen[eventId := now];
      order := order + [Stamped(now, eventId)];
      return false;
    }
  }

  /** What `UniqueOrderWindow.track` leaves in `_entries`: nothing changes
      for a missing or empty id; otherwise the id is stamped `now` and the
      keys whose latest stamp left the window are gone. */
  ghost function TrackEntries(m: map<string, real>, orderId: Option<string>, now: real, window: real): map<string, real> {
    if orderId.None? || orderId.value == "" then m
    else Unexpired(m[orderId.value := now], now - window)
  }

  /** What `UniqueOrderWindow.track` leaves in `_order`. */
  function TrackOrder(q: seq<Stamped<string>>, orderId: Option<string>, now: real, window: real): seq<Stamped<string>> {
    if orderId.None? || orderId.value == "" then q
    else
      var appended := q + [Stamped(now, orderId.value)];
      appended[ExpiredCount(appended, now - window)..]
  }

  /** The pop loop of `UniqueOrderWindow._evict`: pops the entries older
      than `cutoff` from the head of the deque, dropping a popped id from
      the dictionary only while the popped stamp is its latest. */
  method PopExpiredGuarded(order: seq<Stamped<string>>, entries: map<string, real>, cutoff: real)
    returns (q: seq<Stamped<string>>, m: map<string, real>)
    ensures q == order[ExpiredCount(order, cutoff)..]
    ensures m == GuardedReplay(entries, order, ExpiredCount(order, cutoff))
  {
    q, m := order, entries;
    ghost var n := 0;
    while q != [] && q[0].ts < cutoff
      invariant n <= |order| && q == order[n..]
      invariant forall i :: 0 <= i < n ==> order[i].ts < cutoff
      invariant m == GuardedReplay(entries, order, n)
      decreases |q|
    {
      var ts, orderId := q[0].ts, q[0].item;
      PopSuffix(order, n);
      q := q[1..];
      if orderId in m && m[orderId] == ts {
        m := m - {orderId};
      }
      n := n + 1;
    }
    PoppedIsExpiredCount(order, cutoff, n);
  }

  /** The distinct order ids seen within the trailing window, each with the
      instant it was last seen. */
  class UniqueOrderWindow {
    const window: real
    var entries: map<string, real>
    var order: seq<Stamped<string>>

    ghost predicate Valid()
      reads this
    {
      window >= 1.0 && Sorted(order) && Latest(entries, order)
    }

    ghost predicate StampedBy(now: real)
      reads this
    {
      NotAfter(order, now)
    }

    /** The state a lazy eviction at `now` leaves behind, starting from
        `entries0` and `order0`: the ids whose latest stamp is within the
        window, and the deque without its expired prefix. */
    ghost predicate EvictedFrom(entries0: map<string, real>, order0: seq<Stamped<string>>, now: real)
      reads this
    {
      entries == Unexpired(entries0, now - window) && order == order0[ExpiredCount(order0, now - window)..]
    }

    constructor (windowSeconds: real)
      ensures Valid() && window == AtLeastOne(windowSeconds)
      ensures entries == map[] && order == []
    {
      window := AtLeastOne(windowSeconds);
      entries := map[];
      order := [];
    }

    /** Pops the expired deque prefix; a popped entry removes its id only
        if the id was not seen again since, so an id survives exactly when
        its latest stamp is within the window. */
    method Evict(now: real)
      requires Valid()
      modifies this
      ensures Valid()
      ensures EvictedFrom(old(entries), old(order), now)
    {
      var cutoff := now - window;
      ghost var q0, m0 := order, entries;
      var q, m := PopExpiredGuarded(order, entries, cutoff);
      SuffixSorted(q0, ExpiredCount(q0, cutoff));
      GuardedReplayDone(m0, q0, cutoff);
      order, entries := q, m;
    }

    /** Stamps a non-empty id with `now` (re-tracking refreshes it), then
        evicts; a missing or empty id is ignored. */
    method Track(orderId: Option<string>, now: real)
      requires Valid() && StampedBy(now)
      modifies this
      ensures Valid() && StampedBy(now)
      ensures entries == TrackEntries(old(entries), orderId, now, window)
      ensures order == TrackOrder(old(order), orderId, now, window)
      ensures orderId.Some? && orderId.value != "" ==>
        orderId.value in entries && entries[orderId.value] == now
    {
      if orderId.None? || orderId.value == "" {
        return;
      }
      PushLatest(entries, order, orderId.value, now);
      AppendKeepsSorted(order, Stamped(now, orderId.value));
      entries := entries[orderId.value := now];
      order := order + [Stamped(now, orderId.value)];
      SuffixKeepsOrder(order, ExpiredCount(order, now - window), now);
      Evict(now);
    }

    /** The number of active orders after eviction. */
    method ActiveOrders(now: real) returns (count: nat)
      requires Valid() && StampedBy(now)
      modifies this
      ensures Valid() && StampedBy(now)
      ensures EvictedFrom(old(entries), old(order), now)
      ensures count == |entries|
      ensures forall k :: k in entries ==> entries[k] >= now - window
    {
      SuffixKeepsOrder(order, ExpiredCount(order, now - window), now);
      Evict(now);
      count := |entries|;
    }

    /** Active orders scaled to a per-minute rate. */
    method PerMinute(now: real) returns (rate: real)
      requires Valid() && StampedBy(now)
      modifies this
      ensures Valid() && StampedBy(now)
      ensures EvictedFrom(old(entries), old(order), now)
      ensures rate == RatePerMinute(|entries|, window)
    {
      SuffixKeepsOrder(order, ExpiredCount(order, now - window), now);
      Evict(now);
      rate := RatePerMinute(|entries|, window);
    }
  }

  /** What `FailureWindow.track` leaves in `_events`. */
  function TrackEvents(q: seq<Stamped<bool>>, isFailure: bool, now: real, window: real): seq<Stamped<bool>> {
    var appended := q + [Stamped(now, isFailure)];
    appended[ExpiredCount(appended, now - window)..]
  }

  /** Inventory outcomes seen within the trailing window, with a running
      count of the failures among them. */
  class FailureWindow {
    const window: real
    var events: seq<Stamped<bool>>
    var failures: int

    ghost predicate Valid()
      reads this
    {
      window >= 1.0 && Sorted(events) && failures == CountTrue(events)
    }

    ghost predicate StampedBy(now: real)
      reads this
    {
      NotAfter(events, now)
    }

    /** The deque a lazy eviction at `now` leaves behind, starting from `events0`. */
    ghost predicate EvictedFrom(events0: seq<Stamped<bool>>, now: real)
      reads this
    {
      events == events0[ExpiredCount(events0, now - window)..]
    }

    constructor (windowSeconds: real)
      ensures Valid() && window == AtLeastOne(windowSeconds)
      ensures events == [] && failures == 0
    {
      window := AtLeastOne(windowSeconds);
      events := [];
      failures := 0;
    }

    /** Pops the expired events, lowering the failure count (never below
        zero) for each popped failure. */
    method Evict(now: real)
      requires Valid()
      modifies this
      ensures Valid()
      ensures EvictedFrom(old(events), now)
      ensures 0 <= failures <= |events|
    {
      var cutoff := now - window;
      ghost var q0 := events;
      ghost var n := 0;
      while events != [] && events[0].ts < cutoff
        invariant Valid()
        invariant n <= |q0| && events == q0[n..]
        invariant forall i :: 0 <= i < n ==> q0[i].ts < cutoff
        decreases |events|
      {
        var isFailure := events[0].item;
        events := events[1..];
        if isFailure {
          failures := if failures - 1 < 0 then 0 else failures - 1;
        }
        n := n + 1;
      }
      PoppedIsExpiredCount(q0, cutoff, n);
    }

    /** Records one outcome at `now`, then evicts. */
    method Track(isFailure: bool, now: real)
      requires Valid() && StampedBy(now)
      modifies this
      ensures Valid() && StampedBy(now)
      ensures events == TrackEvents(old(events), isFailure, now, window)
      ensures failures == CountTrue(events)
    {
      CountTrueAppend(events, Stamped(now, isFailure));
      AppendKeepsSorted(events, Stamped(now, isFailure));
      events := events + [Stamped(now, isFailure)];
      if isFailure {
        failures := failures + 1;
      }
      SuffixKeepsOrder(events, ExpiredCount(events, now - window), now);
      Evict(now);
    }

    /** The number of events and of failures in the window after eviction. */
    method Totals(now: real) returns (total: nat, failed: nat)
      requires Valid() && StampedBy(now)
      modifies this
      ensures Valid() && StampedBy(now)
      ensures EvictedFrom(old(events), now)
      ensures total == |events| && failed == CountTrue(events) && failed <= total
    {
      SuffixKeepsOrder(events, ExpiredCount(events, now - window), now);
      Evict(now);
      total, failed := |events|, failures;
    }

    /** The failure percentage over the window after eviction. */
    method FailureRatePct(now: real) returns (pct: real)
      requires Valid() && StampedBy(now)
      modifies this
      ensures Valid() && StampedBy(now)
      ensures EvictedFrom(old(events), now)
      ensures pct == FailurePercent(CountTrue(events), |events|)
      ensures 0.0 <= pct <= 100.0
    {
      var total, failed := Totals(now);
      pct := FailurePercent(failed, total);
    }
  }

  /** The lifetime counters. */
  datatype Stats = Stats(orders: nat, inventory: nat, duplicates: nat)

  /** The document the query endpoint serves. */
  datatype MetricsSnapshot = MetricsSnapshot(
    ordersPerMin: real,
    inventoryEvents: nat,
    failures: nat,
    failureRatePct: real,
    windowSeconds: int,
    generatedAt: real)

  /** Two seconds between the readings can make the reported percentage
      disagree with the counts beside it: a failure counted at 59 s has left
      a 60-second window by 61 s, so one failure out of one event is
      reported at 0 %. */
  lemma PercentCanTrailCounts()
    ensures var e := [Stamped(0.0, true)];
      var counted := e[ExpiredCount(e, 59.0 - 60.0)..];
      var rated := counted[ExpiredCount(counted, 61.0 - 60.0)..];
      && |counted| == 1 && CountTrue(counted) == 1
      && FailurePercent(CountTrue(rated), |rated|) == 0.0
      && FailurePercent(CountTrue(counted), |counted|) == 100.0
  {
    var e := [Stamped(0.0, true)];
    assert ExpiredCount(e, 59.0 - 60.0) == 0;
    assert ExpiredCount(e, 61.0 - 60.0) == 1;
  }

  /** Owns the two windows and the lifetime counters. */
  class MetricsAggregator {
    const orderWindow: UniqueOrderWindow
    const failureWindow: FailureWindow
    const windowSeconds: int
    var stats: Stats

    ghost predicate Valid()
      reads orderWindow, failureWindow
    {
      orderWindow.Valid() && failureWindow.Valid()
    }

    ghost predicate StampedBy(now: real)
      reads orderWindow, failureWindow
    {
      orderWindow.StampedBy(now) && failureWindow.StampedBy(now)
    }

    /** Both windows get the clamped length; the reported `window_seconds`
        is the unclamped length truncated to an integer. */
    constructor (windowSecs: real)
      ensures Valid() && fresh(orderWindow) && fresh(failureWindow)
      ensures orderWindow.window == AtLeastOne(windowSecs) && failureWindow.window == AtLeastOne(windowSecs)
      ensures orderWindow.entries == map[] && orderWindow.order == [] && failureWindow.events == []
      ensures windowSeconds == TruncateTowardZero(windowSecs)
      ensures stats == Stats(0, 0, 0)
    {
      orderWindow := new UniqueOrderWindow(windowSecs);
      failureWindow := new FailureWindow(windowSecs);
      windowSeconds := TruncateTowardZero(windowSecs);
      stats := Stats(0, 0, 0);
    }

    /** Counts an order event (even one without an id) and tracks its id. */
    method RecordOrder(orderId: Option<string>, now: real)
      requires Valid() && StampedBy(now)
      modifies this, orderWindow
      ensures Valid() && StampedBy(now)
      ensures stats == old(stats).(orders := old(stats).orders + 1)
      ensures orderWindow.entries == TrackEntries(old(orderWindow.entries), orderId, now, orderWindow.window)
      ensures orderWindow.order == TrackOrder(old(orderWindow.order), orderId, now, orderWindow.window)
      ensures unchanged(failureWindow)
    {
      stats := stats.(orders := stats.orders + 1);
      orderWindow.Track(orderId, now);
    }

    /** Counts an inventory event and tracks whether it was a failure. */
    method RecordInventory(isFailure: bool, now: real)
      requires Valid() && StampedBy(now)
      modifies this, failureWindow
      ensures Valid() && StampedBy(now)
      ensures stats == old(stats).(inventory := old(stats).inventory + 1)
      ensures failureWindow.events == TrackEvents(old(failureWindow.events), isFailure, now, failureWindow.window)
      ensures unchanged(orderWindow)
    {
      stats := stats.(inventory := stats.inventory + 1);
      failureWindow.Track(isFailure, now);
    }

    /** Counts a suppressed redelivery; the windows are untouched. */
    method RecordDuplicate()
      modifies this
      ensures stats == old(stats).(duplicates := old(stats).duplicates + 1)
      ensures unchanged(orderWindow, failureWindow)
    {
      stats := stats.(duplicates := stats.duplicates + 1);
    }

    /** Reports both windows.  The source reads the clock four times, in
        order: for the failure totals, for the order rate, again for the
        failure percentage (which evicts the failure window a second time),
        and for the report's own timestamp.  The percentage is therefore
        over the window at the third reading, while the event and failure
        counts are over the window at the first. */
    method Snapshot(t1: real, t2: real, t3: real, t4: real) returns (s: MetricsSnapshot)
      requires Valid() && StampedBy(t1) && t1 <= t2 <= t3 <= t4
      modifies orderWindow, failureWindow
      ensures Valid() && StampedBy(t4)
      ensures orderWindow.EvictedFrom(old(orderWindow.entries), old(orderWindow.order), t2)
      ensures var counted := old(failureWindow.events)[ExpiredCount(old(failureWindow.events), t1 - failureWindow.window)..];
        && failureWindow.EvictedFrom(counted, t3)
        && s.inventoryEvents == |counted| && s.failures == CountTrue(counted)
      ensures s.ordersPerMin == RatePerMinute(|orderWindow.entries|, orderWindow.window)
      ensures s.failureRatePct == FailurePercent(CountTrue(failureWindow.events), |failureWindow.events|)
      ensures s.windowSeconds == windowSeconds && s.generatedAt == t4
      // read at one instant, the percentage agrees with the counts reported beside it
      ensures t1 == t3 ==> s.failureRatePct == FailurePercent(s.failures, s.inventoryEvents)
    {
      ghost var events0 := failureWindow.events;
      var inventoryEvents, failures := failureWindow.Totals(t1);
      var perMinute := orderWindow.PerMinute(t2);
      if t1 == t3 {
        // the second eviction at the same instant removes nothing
        EvictionIsIdempotent(events0, t1 - failureWindow.window);
      }
      var pct := failureWindow.FailureRatePct(t3);
      s := MetricsSnapshot(perMinute, inventoryEvents, failures, pct, windowSeconds, t4);
    }
  }
}
