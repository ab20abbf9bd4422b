# Order pipeline: analytics consumer and inventory services

A model of the parts of the order-processing demo system that make decisions. The
system wires the same order flow three ways: synchronous REST calls, RabbitMQ
messaging and Kafka streaming. Three components are modelled here.

- **The streaming analytics consumer** (`streaming-kafka/analytics_consumer/main.py`).
  It reads order and inventory events. It suppresses redeliveries with a
  time-to-live duplicate filter. It keeps two lazily evicted sliding windows: the
  distinct orders seen recently, and the recent inventory outcomes with a running
  failure count. It reports orders per minute and the failure percentage.
  It is modelled as the classes `DuplicateFilter`, `UniqueOrderWindow`,
  `FailureWindow` and `MetricsAggregator` (module `Analytics`). Their deques are
  `seq<Stamped<T>>` and their dictionaries are `map`s. The worker's per-message
  decision, the event identity and the environment loader are in module
  `Messages`. The theory of eviction lives in module `Sliding`:
  - which prefix is popped (`ExpiredCount`);
  - which keys survive (`Unexpired`);
  - the invariant tying a dictionary to its deque (`Latest`);
  - the failure count (`CountTrue`).
- **The synchronous inventory service** (`sync-rest/inventory_service/app.py`).
  `reserve` answers 404 for an unknown item, 409 for short stock, and 200 after
  taking the stock and recording a reservation. `configure` overwrites the
  fault-injection settings. Module `SyncInventory` has a pure `Reserve`
  specification and a class `InventoryService` whose methods are proved against it.
- **The asynchronous inventory consumer** (`async-rabbitmq/inventory_service/app.py`).
  Its `callback` rejects malformed deliveries and acknowledges a repeated order
  without effect. For a new order it records the outcome and publishes either a
  reservation or a failure. Module `AsyncInventory` has the pure `HandleDelivery`
  decision and a class `InventoryConsumer` whose step-by-step `Callback` is
  proved equal to it.

The clock is a `now` parameter. Callers promise that it has not gone back past
any entry still held (`StampedBy(now)`). Every operation that reads the clock
re-establishes that promise.

Module `Scenarios` checks a few concrete cases statically through the
classes, with no contracts of its own:
- an order leaves the window after 61 seconds;
- a redelivery inside the TTL is a duplicate and is new again after it;
- the async consumer ignores a second delivery;
- a reserve request without an item is a 404.

## Model

| member | source | states |
|---|---|---|
| Common.AtLeastOne | streaming-kafka/analytics_consumer/main.py:19 | the clamped TTL or window is at least one second and at least the configured value, and equals one of the two |
| Common.TruncateTowardZero | streaming-kafka/analytics_consumer/main.py:106 | `int()` of the window length rounds toward zero: down for non-negative values, up for negative ones |
| Common.Lower | sync-rest/inventory_service/app.py:46 | lower-casing keeps the length and maps each character independently |
| Common.LowerEqualIffSameIgnoringCase | streaming-kafka/analytics_consumer/main.py:205-206 | two strings lower-case to the same text exactly when they agree letter by letter up to case |
| Common.Strip | streaming-kafka/analytics_consumer/main.py:295 | `strip()` yields a contiguous slice of the input with only white space cut from either side; it is empty exactly for all-white-space input, and otherwise neither end is white space |
| Sliding.ExpiredCount | streaming-kafka/analytics_consumer/main.py:94-99 | the eviction loop pops the longest prefix stamped before the cutoff and stops at the first entry that is not |
| Sliding.ExpiredAreExactlyTheOld | streaming-kafka/analytics_consumer/main.py:64-69 | on a time-ordered deque an entry is popped if and only if it is older than the cutoff |
| Sliding.EvictionIsIdempotent | streaming-kafka/analytics_consumer/main.py:85-92 | evicting twice at the same instant pops nothing the second time (`failure_rate_pct` calls `totals` again) |
| Sliding.LatestUnique | streaming-kafka/analytics_consumer/main.py:17-38 | a deque determines the dictionary it is kept in step with: two dictionaries both `Latest` for it are equal |
| Sliding.LatestKeys | streaming-kafka/analytics_consumer/main.py:41-69 | the dictionary's keys are exactly the ids queued in the deque |
| Sliding.ExpireLatest | streaming-kafka/analytics_consumer/main.py:64-69 | after popping the expired prefix, the ids whose latest stamp is in the window are still in step with the remaining deque |
| Sliding.PopDistinct | streaming-kafka/analytics_consumer/main.py:36-38 | with each id queued once, popping the head and dropping its id unconditionally keeps dictionary and deque in step |
| Sliding.PushDistinct | streaming-kafka/analytics_consumer/main.py:28-31 | an id registered only when it is absent is never queued twice |
| Sliding.PushLatest | streaming-kafka/analytics_consumer/main.py:51-52 | stamping an id `now` and appending it keeps dictionary and deque in step, even for an id already present |
| Sliding.GuardedPopStep | streaming-kafka/analytics_consumer/main.py:66-69 | one guarded pop removes the popped id only when its recorded stamp is the popped one; re-tracked ids are kept |
| Sliding.GuardedPopsDone | streaming-kafka/analytics_consumer/main.py:64-69 | after the guarded loop the dictionary holds exactly the ids last seen within the window, in step with the deque |
| Sliding.GuardedReplayPops | streaming-kafka/analytics_consumer/main.py:66-69 | replaying the guarded pop over the first `n` entries is one run of the loop's first `n` iterations |
| Sliding.GuardedReplayDone | streaming-kafka/analytics_consumer/main.py:64-69 | replaying the guarded pop over the expired prefix leaves exactly the ids last seen within the window, in step with the rest of the deque |
| Sliding.CountTrue | streaming-kafka/analytics_consumer/main.py:75-76 | the number of failures in the deque never exceeds its length |
| Sliding.CountTrueAppend | streaming-kafka/analytics_consumer/main.py:80-82 | appending an event raises the failure count by one exactly when the event is a failure |
| Sliding.CountTrueIsFlaggedPositions | streaming-kafka/analytics_consumer/main.py:72-99 | the failure count equals the number of failure-flagged positions in the deque |
| Analytics.RatePerMinute | streaming-kafka/analytics_consumer/main.py:58 | the rate times the window is sixty times the count; it lies between 0 and sixty times the count |
| Analytics.FailurePercent | streaming-kafka/analytics_consumer/main.py:92 | zero for an empty window, otherwise the failure share times 100; within 0..100 when failures do not exceed the total |
| Analytics.PopExpiredGuarded | streaming-kafka/analytics_consumer/main.py:64-69 | the loop pops exactly the expired prefix, and the dictionary is the guarded replay over it |
| Analytics.DuplicateFilter.constructor | streaming-kafka/analytics_consumer/main.py:18-21 | an empty filter whose TTL is the configured one clamped to at least one second |
| Analytics.DuplicateFilter.Evict | streaming-kafka/analytics_consumer/main.py:34-38 | the dictionary keeps exactly the registrations not older than `now - ttl`, and the deque loses exactly its expired prefix |
| Analytics.DuplicateFilter.Register | streaming-kafka/analytics_consumer/main.py:24-32 | reports a duplicate exactly when the id is registered within the TTL; otherwise registers it at `now`; the expired registrations are gone either way |
| Analytics.UniqueOrderWindow.constructor | streaming-kafka/analytics_consumer/main.py:42-45 | an empty window whose length is clamped to at least one second |
| Analytics.UniqueOrderWindow.Evict | streaming-kafka/analytics_consumer/main.py:64-69 | exactly the orders whose latest sighting is within the window remain, and the deque loses exactly its expired prefix |
| Analytics.UniqueOrderWindow.Track | streaming-kafka/analytics_consumer/main.py:47-53 | a missing or empty id changes nothing; otherwise the id is stamped `now` (refreshing an earlier sighting), then eviction runs |
| Analytics.UniqueOrderWindow.ActiveOrders | streaming-kafka/analytics_consumer/main.py:60-62 | after eviction, the count of distinct orders, each seen within the window |
| Analytics.UniqueOrderWindow.PerMinute | streaming-kafka/analytics_consumer/main.py:55-58 | after eviction, the distinct active orders scaled to a per-minute rate |
| Analytics.FailureWindow.constructor | streaming-kafka/analytics_consumer/main.py:73-76 | an empty window with no failures and a clamped length |
| Analytics.FailureWindow.Evict | streaming-kafka/analytics_consumer/main.py:94-99 | pops exactly the expired prefix; the clamped decrement keeps the count equal to the failures still held |
| Analytics.FailureWindow.Track | streaming-kafka/analytics_consumer/main.py:78-83 | appends the outcome at `now`, evicts, and the running count equals the failures in the window |
| Analytics.FailureWindow.Totals | streaming-kafka/analytics_consumer/main.py:85-87 | after eviction, the number of events and of failures in the window, failures never exceeding events |
| Analytics.FailureWindow.FailureRatePct | streaming-kafka/analytics_consumer/main.py:89-92 | after eviction, the failure percentage of the window, within 0..100 |
| Analytics.MetricsAggregator.constructor | streaming-kafka/analytics_consumer/main.py:103-107 | two fresh empty windows of the clamped length, zero counters, and the reported window truncated to an integer |
| Analytics.MetricsAggregator.RecordOrder | streaming-kafka/analytics_consumer/main.py:110-113 | counts one order even without an id, tracks the id, and leaves the failure window alone |
| Analytics.MetricsAggregator.RecordInventory | streaming-kafka/analytics_consumer/main.py:115-118 | counts one inventory event, tracks its outcome, and leaves the order window alone |
| Analytics.MetricsAggregator.RecordDuplicate | streaming-kafka/analytics_consumer/main.py:120-122 | only the duplicate counter moves |
| Analytics.MetricsAggregator.Snapshot | streaming-kafka/analytics_consumer/main.py:124-134 | the clock is read four times, in order: the counts come from the failure window evicted at the first reading, the rate from the order window evicted at the second, the percentage from the failure window evicted again at the third, the time stamp from the fourth; the percentage agrees with the counts when the first and third readings coincide |
| Analytics.PercentCanTrailCounts | streaming-kafka/analytics_consumer/main.py:126-131 | with two seconds between the first and third readings, one failure out of one event can be reported at 0 % |
| Messages.DecodePayload | streaming-kafka/analytics_consumer/main.py:252-258 | an absent value is `{}`; invalid UTF-8 or JSON is an error and nothing else is; a decoded object is returned as it is, and any other document is returned as a non-object |
| Messages.ResolveOrderId | streaming-kafka/analytics_consumer/main.py:261-266 | the payload's `order_id`, stringified, takes precedence; otherwise the key, absent when the key is missing or empty |
| Messages.Identifier | streaming-kafka/analytics_consumer/main.py:270-274 | a non-null payload `order_id` names the event when truthy and gives "na" otherwise; without one, a non-empty key names it, and "na" stands in for a missing or empty key |
| Messages.EventId | streaming-kafka/analytics_consumer/main.py:269-274 | the identity is the topic, the identifier and the digest, joined by two colons, each recoverable from its place |
| Messages.EventIdSeparatesTopics | streaming-kafka/analytics_consumer/main.py:269-274 | events on different topics (without colons) never share an identity |
| Messages.EventIdSeparatesDigests | streaming-kafka/analytics_consumer/main.py:269-274 | payloads with different fixed-length digests never share an identity |
| Messages.EventIdIgnoresKeyGivenOrderId | streaming-kafka/analytics_consumer/main.py:270-272 | a non-null payload `order_id` makes the message key irrelevant to the identity |
| Messages.IsFailureStatus | streaming-kafka/analytics_consumer/main.py:205-206 | an inventory event is a failure exactly when its `status` reads "failure" ignoring case |
| Messages.MissingNames | streaming-kafka/analytics_consumer/main.py:278-280 | lists exactly the required names that are unset or empty |
| Messages.InstanceId | streaming-kafka/analytics_consumer/main.py:295 | the stripped instance id, none exactly when the value is blank |
| Messages.ReadSettings | streaming-kafka/analytics_consumer/main.py:284-296 | required values are copied, absent settings take their defaults, an unparsable number is an error, and the instance id is the stripped value or none |
| Messages.ReadSettingsFailsOnFirstBadNumber | streaming-kafka/analytics_consumer/main.py:290-294 | numbers are read in source order and the first one that does not parse is the error; reading succeeds exactly when every present number parses |
| Messages.ReadSettingsUsesPresentValues | streaming-kafka/analytics_consumer/main.py:289-293 | on success, every present number is its parsed text, and `AUTO_OFFSET_RESET` and `HTTP_HOST` are copied as given |
| Messages.LoadEnv | streaming-kafka/analytics_consumer/main.py:277-296 | fails with the missing names exactly when a required variable is unset or empty, naming all of them; otherwise the result is exactly that of reading the settings |
| Messages.AnalyticsWorker.constructor | streaming-kafka/analytics_consumer/main.py:138-146 | a worker over the given aggregator with a fresh, empty duplicate filter whose TTL is the configured window |
| Messages.AnalyticsWorker.Count | streaming-kafka/analytics_consumer/main.py:198-208 | a duplicate only bumps its counter; an order is counted and its resolved id tracked; an inventory event is counted with its failure flag; other topics change nothing |
| Messages.AnalyticsWorker.HandleDecoded | streaming-kafka/analytics_consumer/main.py:197-208 | the event's identity is looked up and registered in the filter, and the aggregator changes by whether it was a live duplicate |
| Messages.AnalyticsWorker.HandleMessage | streaming-kafka/analytics_consumer/main.py:190-208 | an undecodable value is skipped and a JSON document that is not an object raises, both changing nothing; any other value, an absent one decoding to `{}`, is deduplicated and counted as above |
| AsyncInventory.SeedStock | async-rabbitmq/inventory_service/app.py:54 | the seed stock holds exactly the five menu items, 100 of each |
| AsyncInventory.Seeded | async-rabbitmq/inventory_service/app.py:52-55 | an empty inventory is seeded; a non-empty one is kept as it is |
| AsyncInventory.SeedingIsIdempotent | async-rabbitmq/inventory_service/app.py:52-55 | restarting never resets stock: seeding twice is seeding once |
| AsyncInventory.HandleDelivery | async-rabbitmq/inventory_service/app.py:97-173 | raises exactly for a non-object body or a `qty` that `int()` rejects, and is rejected exactly for malformed or incomplete messages, both changing nothing; a repeat is acked silently with the tables unchanged; a new order is recorded with the converted quantity and its reservation or failure published |
| AsyncInventory.FirstDeliveryRecords | async-rabbitmq/inventory_service/app.py:136-173 | a first delivery records `failed_item_not_found`, `failed_insufficient` or `reserved` according to the stock |
| AsyncInventory.RedeliveryIsNoOp | async-rabbitmq/inventory_service/app.py:126-134 | redelivering any acknowledged message is acked again with no effect and no publication |
| AsyncInventory.StockReservedOnce | async-rabbitmq/inventory_service/app.py:126-173 | two deliveries of one message leave the tables as one delivery does |
| AsyncInventory.InventoryConsumer.constructor | async-rabbitmq/inventory_service/app.py:34-57 | the tables as found, with an empty inventory seeded |
| AsyncInventory.InventoryConsumer.Callback | async-rabbitmq/inventory_service/app.py:97-173 | the new tables and the broker outcome are exactly those `HandleDelivery` decides |
| SyncInventory.ItemKey | sync-rest/inventory_service/app.py:46 | the stock key is already in lower case |
| SyncInventory.Reserve | sync-rest/inventory_service/app.py:41-87 | 404 exactly for an unknown item and 409 exactly for short stock, both changing nothing; otherwise takes exactly `qty` from that item, reports what remains and records the reservation |
| SyncInventory.ReserveIgnoresCase | sync-rest/inventory_service/app.py:46 | requests differing only in the case of the item get the same answer and leave the same state |
| SyncInventory.RetryReservesAgain | sync-rest/inventory_service/app.py:74-76 | a retried request takes the quantity twice, and its record replaces the first |
| SyncInventory.Reconfigure | sync-rest/inventory_service/app.py:95-98 | the request fails exactly when a carried value does not convert; `delay` is written first, so a bad failure rate fails after the delay is written, and a bad delay writes nothing; absent settings are kept |
| SyncInventory.ReconfigureIdempotentAndCommuting | sync-rest/inventory_service/app.py:90-101 | sending the same settings twice is sending them once, with the same failure; requests setting different keys leave the same settings in either order |
| SyncInventory.InventoryService.constructor | sync-rest/inventory_service/app.py:23-38 | five items with 100 each, no reservations, no injected faults |
| SyncInventory.InventoryService.HandleReserve | sync-rest/inventory_service/app.py:41-87 | the new state and the response are exactly those `Reserve` specifies; the fault settings are untouched |
| SyncInventory.InventoryService.HandleConfigure | sync-rest/inventory_service/app.py:90-101 | the settings and the failure flag are those `Reconfigure` gives for the old settings, and the new settings are echoed back; stock and reservations are untouched |

## Left out

- Kafka transport is not modelled: polling, commits, wake-up, close, the throttle sleep and the consumer construction (`_build_consumer`, `run`, `stop`).
- The periodic reporter, the HTTP metrics server, signal handling and `main` are not modelled. They only read snapshots or wire threads together.
- Threads and locks are not modelled. Each operation is one atomic step.
- The wall clock is a `now` parameter that callers promise does not go back (`StampedBy`).
- One clock reading per message serves both the duplicate filter and the window it updates, where the source reads the clock separately in each (lines 25, 50 and 79 of `streaming-kafka/analytics_consumer/main.py`).
- The SHA-1 digest of the canonical JSON is a function the worker is given.
- JSON decoding is foreign. A value arrives as absent, undecodable, a decoded object, or a document that is not an object (`NotAnObject`), which makes the worker raise. Non-string ids inside an object appear only as `Json.Other` with their rendering and truthiness.
- Message keys arrive already decoded. The byte decoding that drops invalid UTF-8 is not modelled.
- `float()` and `int()` parsing of environment text is given as the functions `parseReal` and `parseInt`.
- Floating-point numbers are modelled as reals, so no rounding is modelled.
- `str.lower()` and `str.strip()` are modelled for ASCII only.
- Printing and logging are not modelled.
- Fault injection is not modelled in either inventory service: the delay, the random 500 response, and the NACK-with-requeue branch.
- The async service's `created_at` timestamps are not modelled.
- The publishing transport is not modelled. The published event is returned as part of the outcome.
- SQLite connections are not modelled. The two tables are maps.
- AsyncInventory.HandleDelivery: `int()` is given by its result: a `qty` arrives absent, converted to an integer, or unconvertible (a `null` among them), which raises.
- AsyncInventory.HandleDelivery: order ids and items are modelled as strings. A non-string id, such as the number 0 that Python treats as false, is not modelled.
- SyncInventory.Reserve: a JSON `null` for `order_id` or `request_id` is treated as absent, giving "unknown". The source would format it as `None`.
- SyncInventory.Reserve: a `null` item, which makes `.lower()` raise and produces a 500, is not modelled.
- SyncInventory.Reserve: a non-integer `qty` is not modelled.
- The `/health` and `/inventory` endpoints, and the async service's own HTTP endpoints, are not modelled.
