/** The analytics consumer's message handling: what it reads out of a
    decoded message, the identity it deduplicates on, the configuration it
    starts from, and the per-message decision that feeds the aggregator.

    JSON decoding and the SHA-1 digest are foreign code: a message value
    arrives already classified as absent, undecodable, a JSON document that
    is not an object, or a decoded object, and the digest of a payload is a
    function the worker is given. */
module Messages {
  import opened Common
  import opened Sliding
  import opened Analytics

  /** A JSON value as far as the consumer looks at it: `null`, a string, or
      anything else, carried with its Python `str()` rendering and truthiness. */
  datatype Json = Null | Str(s: string) | Other(text: string, truthy: bool)

  /** A decoded message value: a JSON object. */
  type Payload = map<string, Json>

  /** `str(v)`. */
  function Text(v: Json): string {
    match v
    case Null => "None"
    case Str(s) => s
    case Other(t, _) => t
  }

  /** `bool(v)`. */
  predicate Truthy(v: Json) {
    match v
    case Null => false
    case Str(s) => s != ""
    case Other(_, b) => b
  }

  /** A message value as the decoder sees it: no value at all, bytes that
      are not UTF-8 JSON, JSON that is not an object (a list, a number, a
      string, `null`), or a JSON object. */
  datatype RawValue = Absent | Undecodable | NotAnObject | Encoded(payload: Payload)

  /** What `_decode_payload` returns: an object, or some other JSON value. */
  datatype Document = Object(fields: Payload) | NonObject

  /** `_decode_payload`: a missing value decodes to the empty object; bytes
      that are not JSON are a decode error; any JSON document is returned
      as it is, object or not. */
  function DecodePayload(raw: RawValue): (r: Result<Document, string>)
    ensures r.Failure? <==> raw.Undecodable?
    ensures raw.Absent? ==> r == Success(Object(map[]))
    ensures raw.Encoded? ==> r == Success(Object(raw.payload))
    ensures raw.NotAnObject? ==> r == Success(NonObject)
  {
    match raw
    case Absent => Success(Object(map[]))
    case Undecodable => Failure("Invalid JSON payload")
    case NotAnObject => Success(NonObject)
    case Encoded(p) => Success(Object(p))
  }

  /** `_resolve_order_id`: the payload's `order_id` (stringified) wins;
      otherwise the message key, unless it is missing or empty. */
  function ResolveOrderId(key: Option<string>, payload: Payload): (r: Option<string>)
    ensures "order_id" in payload ==> r.Some? && r.value == Text(payload["order_id"])
    ensures "order_id" !in payload ==> (r.Some? <==> key.Some? && key.value != "")
    ensures "order_id" !in payload && r.Some? ==> r == key
  {
    if "order_id" in payload then Some(Text(payload["order_id"]))
    else if key.Some? && key.value != "" then key
    else None
  }

  /** The middle component of an event identity: a non-null `order_id` from
      the payload, else the message key, and `"na"` when that is falsy. */
  function Identifier(key: Option<string>, payload: Payload): (r: string)
    // a present, non-null order id decides it, whatever the key
    ensures "order_id" in payload && !payload["order_id"].Null? ==>
      r == (if Truthy(payload["order_id"]) then Text(payload["order_id"]) else "na")
    // otherwise the key, or "na" when there is none or it is empty
    ensures ("order_id" !in payload || payload["order_id"].Null?) ==>
      r == (if key.Some? && key.value != "" then key.value else "na")
  {
    if "order_id" in payload && !payload["order_id"].Null? then
      (if Truthy(payload["order_id"]) then Text(payload["order_id"]) else "na")
    else if key.Some? && key.value != "" then key.value
    else "na"
  }

  /** `_event_id`: `topic:identifier:digest`. */
  function EventId(topic: string, key: Option<string>, payload: Payload, digest: string): (r: string)
    // the topic leads, followed by a colon
    ensures |r| > |topic| && r[..|topic|] == topic && r[|topic|] == ':'
    // the digest ends it, preceded by a colon
    ensures |r| > |digest| && r[|r| - |digest|..] == digest && r[|r| - |digest| - 1] == ':'
    // the identifier sits between the two colons
    ensures |r| == |topic| + |Identifier(key, payload)| + |digest| + 2
    ensures r[|topic| + 1..|r| - |digest| - 1] == Identifier(key, payload)
  {
    topic + ":" + Identifier(key, payload) + ":" + digest
  }

  /** Events from two different topics never share an identity, as long
      as topic names contain no colon. */
  lemma EventIdSeparatesTopics(t1: string, t2: string, k1: Option<string>, k2: Option<string>,
                               p1: Payload, p2: Payload, d1: string, d2: string)
    requires ':' !in t1 && ':' !in t2 && t1 != t2
    ensures EventId(t1, k1, p1, d1) != EventId(t2, k2, p2, d2)
  {
    var a, b := EventId(t1, k1, p1, d1), EventId(t2, k2, p2, d2);
    if |t1| < |t2| {
      assert a[|t1|] == ':';
      assert b[|t1|] == t2[|t1|] && t2[|t1|] in t2;
    } else if |t2| < |t1| {
      assert b[|t2|] == ':';
      assert a[|t2|] == t1[|t2|] && t1[|t2|] in t1;
    } else {
      assert a[..|t1|] == t1 && b[..|t2|] == t2;
    }
  }

  /** Payloads whose digests differ (digests all have one length, as
      hexadecimal SHA-1 strings do) never share an identity, whatever
      their topics and keys. */
  lemma EventIdSeparatesDigests(t1: string, t2: string, k1: Option<string>, k2: Option<string>,
                                p1: Payload, p2: Payload, d1: string, d2: string)
    requires |d1| == |d2| && d1 != d2
    ensures EventId(t1, k1, p1, d1) != EventId(t2, k2, p2, d2)
  {
    var a, b := EventId(t1, k1, p1, d1), EventId(t2, k2, p2, d2);
    assert a[|a| - |d1|..] == d1;
    assert b[|b| - |d2|..] == d2;
  }

  /** A non-null `order_id` in the payload decides the identity: the
      message key is then irrelevant. */
  lemma EventIdIgnoresKeyGivenOrderId(topic: string, k1: Option<string>, k2: Option<string>,
                                      payload: Payload, digest: string)
    requires "order_id" in payload && !payload["order_id"].Null?
    ensures EventId(topic, k1, payload, digest) == EventId(topic, k2, payload, digest)
  {
  }

  /** Whether an inventory event reports a failure:
      `str(payload.get("status", "")).lower() == "failure"`. */
  function IsFailureStatus(payload: Payload): (r: bool)
    ensures r <==> "status" in payload && SameIgnoringCase(Text(payload["status"]), "failure")
  {
    var status := if "status" in payload then Text(payload["status"]) else "";
    LowerEqualIffSameIgnoringCase(status, "failure");
    assert Lower("failure") == "failure";
    Lower(status) == "failure"
  }

  /** The validated process configuration. */
  datatype Config = Config(
    bootstrapServers: string,
    orderTopic: string,
    inventoryTopic: string,
    groupId: string,
    autoOffsetReset: string,
    windowSec: real,
    throttleMs: int,
    httpHost: string,
    httpPort: int,
    reportIntervalSec: real,
    groupInstanceId: Option<string>)

  datatype ConfigError = MissingVars(names: seq<string>) | NotANumber(name: string)

  const Required: seq<string> := ["BOOTSTRAP_SERVERS", "ORDER_TOPIC", "INVENTORY_TOPIC", "GROUP_ID"]

  /** An unset variable and a variable set to the empty string are both missing. */
  predicate IsMissing(env: map<string, string>, name: string) {
    name !in env || env[name] == ""
  }

  /** The missing names among `names`, in order. */
  function MissingNames(names: seq<string>, env: map<string, string>): (r: seq<string>)
    ensures |r| <= |names|
    ensures forall x :: x in r <==> x in names && IsMissing(env, x)
  {
    if names == [] then []
    else (if IsMissing(env, names[0]) then [names[0]] else []) + MissingNames(names[1..], env)
  }

  /** Nothing is missing exactly when every name is set and non-empty. */
  lemma {:induction false} NoneMissing(names: seq<string>, env: map<string, string>)
    ensures MissingNames(names, env) == [] <==> forall x :: x in names ==> !IsMissing(env, x)
  {
    if MissingNames(names, env) != [] {
      assert MissingNames(names, env)[0] in MissingNames(names, env);
    }
  }

  /** A numeric setting: the default when unset, otherwise the parsed text. */
  function NumberSetting<N>(env: map<string, string>, name: string, default: N, parse: string -> Option<N>): Option<N> {
    if name in env then parse(env[name]) else Some(default)
  }

  /** Every required variable is set and non-empty. */
  predicate RequiredSet(env: map<string, string>) {
    && !IsMissing(env, "BOOTSTRAP_SERVERS") && !IsMissing(env, "ORDER_TOPIC")
    && !IsMissing(env, "INVENTORY_TOPIC") && !IsMissing(env, "GROUP_ID")
  }

  lemma RequiredSetIffNoneMissing(env: map<string, string>)
    ensures RequiredSet(env) <==> forall x :: x in Required ==> !IsMissing(env, x)
  {
    assert Required[0] in Required && Required[1] in Required;
    assert Required[2] in Required && Required[3] in Required;
  }

  /** `GROUP_INSTANCE_ID` stripped, with a blank value meaning none. */
  function InstanceId(raw: string): (r: Option<string>)
    ensures r.None? <==> forall i :: 0 <= i < |raw| ==> IsSpace(raw[i])
    ensures r.Some? ==> r.value == Strip(raw) && r.value != ""
  {
    var id := Strip(raw);
    if id == "" then None else Some(id)
  }

  /** The part of `_load_env` after the required variables are known to be
      present: defaults, number parsing in the order the settings are read,
      and the optional static group membership id. */
  function ReadSettings(env: map<string, string>, parseReal: string -> Option<real>, parseInt: string -> Option<int>)
    : (r: Result<Config, ConfigError>)
    requires RequiredSet(env)
    ensures r.Failure? ==> r.error.NotANumber?
    ensures r.Success? ==>
      && r.value.bootstrapServers == env["BOOTSTRAP_SERVERS"]
      && r.value.orderTopic == env["ORDER_TOPIC"]
      && r.value.inventoryTopic == env["INVENTORY_TOPIC"]
      && r.value.groupId == env["GROUP_ID"]
    ensures r.Success? ==>
      && ("AUTO_OFFSET_RESET" !in env ==> r.value.autoOffsetReset == "earliest")
      && ("WINDOW_SEC" !in env ==> r.value.windowSec == 60.0)
      && ("THROTTLE_MS" !in env ==> r.value.throttleMs == 0)
      && ("HTTP_HOST" !in env ==> r.value.httpHost == "0.0.0.0")
      && ("HTTP_PORT" !in env ==> r.value.httpPort == 8080)
      && ("REPORT_INTERVAL_SEC" !in env ==> r.value.reportIntervalSec == 0.0)
      && r.value.groupInstanceId == InstanceId(if "GROUP_INSTANCE_ID" in env then env["GROUP_INSTANCE_ID"] else "")
  {
    var window := NumberSetting(env, "WINDOW_SEC", 60.0, parseReal);
    var throttle := NumberSetting(env, "THROTTLE_MS", 0, parseInt);
    var port := NumberSetting(env, "HTTP_PORT", 8080, parseInt);
    var report := NumberSetting(env, "REPORT_INTERVAL_SEC", 0.0, parseReal);
    if window.None? then Failure(NotANumber("WINDOW_SEC"))
    else if throttle.None? then Failure(NotANumber("THROTTLE_MS"))
    else if port.None? then Failure(NotANumber("HTTP_PORT"))
    else if report.None? then Failure(NotANumber("REPORT_INTERVAL_SEC"))
    else
      var instance := InstanceId(if "GROUP_INSTANCE_ID" in env then env["GROUP_INSTANCE_ID"] else "");
      Success(Config(
        env["BOOTSTRAP_SERVERS"], env["ORDER_TOPIC"], env["INVENTORY_TOPIC"], env["GROUP_ID"],
        if "AUTO_OFFSET_RESET" in env then env["AUTO_OFFSET_RESET"] else "earliest",
        window.value, throttle.value,
        if "HTTP_HOST" in env then env["HTTP_HOST"] else "0.0.0.0",
        port.value, report.value, instance))
  }

  /** A numeric setting that is set but does not parse. */
  predicate Unparsable<N>(env: map<string, string>, name: string, parse: string -> Option<N>) {
    name in env && parse(env[name]).None?
  }

  /** Numbers are read in the order WINDOW_SEC, THROTTLE_MS, HTTP_PORT,
      REPORT_INTERVAL_SEC, and the first one that does not parse is the
      error; reading succeeds exactly when all of them parse. */
  lemma ReadSettingsFailsOnFirstBadNumber(env: map<string, string>, parseReal: string -> Option<real>,
                                          parseInt: string -> Option<int>)
    requires RequiredSet(env)
    ensures var r := ReadSettings(env, parseReal, parseInt);
      var w, t, p, i := Unparsable(env, "WINDOW_SEC", parseReal), Unparsable(env, "THROTTLE_MS", parseInt),
                        Unparsable(env, "HTTP_PORT", parseInt), Unparsable(env, "REPORT_INTERVAL_SEC", parseReal);
      && (w ==> r == Failure(NotANumber("WINDOW_SEC")))
      && (!w && t ==> r == Failure(NotANumber("THROTTLE_MS")))
      && (!w && !t && p ==> r == Failure(NotANumber("HTTP_PORT")))
      && (!w && !t && !p && i ==> r == Failure(NotANumber("REPORT_INTERVAL_SEC")))
      && (r.Success? <==> !w && !t && !p && !i)
  {
  }

  /** A setting that is present is what the configuration holds: numbers
      as parsed, text as given, and the instance id stripped, with a blank
      one dropped. */
  lemma ReadSettingsUsesPresentValues(env: map<string, string>, parseReal: string -> Option<real>,
                                      parseInt: string -> Option<int>)
    requires RequiredSet(env)
    ensures var r := ReadSettings(env, parseReal, parseInt);
      r.Success? ==>
      && ("WINDOW_SEC" in env ==> parseReal(env["WINDOW_SEC"]) == Some(r.value.windowSec))
      && ("THROTTLE_MS" in env ==> parseInt(env["THROTTLE_MS"]) == Some(r.value.throttleMs))
      && ("HTTP_PORT" in env ==> parseInt(env["HTTP_PORT"]) == Some(r.value.httpPort))
      && ("REPORT_INTERVAL_SEC" in env ==> parseReal(env["REPORT_INTERVAL_SEC"]) == Some(r.value.reportIntervalSec))
      && ("AUTO_OFFSET_RESET" in env ==> r.value.autoOffsetReset == env["AUTO_OFFSET_RESET"])
      && ("HTTP_HOST" in env ==> r.value.httpHost == env["HTTP_HOST"])
  {
  }

  /** `_load_env`: the four required variables must be set and non-empty,
      and all missing ones are reported together; the rest take their
      defaults; a numeric variable that does not parse is an error.
      Text-to-number conversion is given as `parseReal` and `parseInt`. */
  function LoadEnv(env: map<string, string>, parseReal: string -> Option<real>, parseInt: string -> Option<int>)
    : (r: Result<Config, ConfigError>)
    ensures (r.Failure? && r.error.MissingVars?) <==> exists x :: x in Required && IsMissing(env, x)
    ensures r.Failure? && r.error.MissingVars? ==>
      forall x :: x in r.error.names <==> x in Required && IsMissing(env, x)
    ensures r.Success? ==> RequiredSet(env)
    ensures RequiredSet(env) ==> r == ReadSettings(env, parseReal, parseInt)
  {
    var missing := MissingNames(Required, env);
    NoneMissing(Required, env);
    RequiredSetIffNoneMissing(env);
    if missing != [] then Failure(MissingVars(missing))
    else ReadSettings(env, parseReal, parseInt)
  }

  /** How `_handle_message` ends: the message is skipped as corrupt, it is
      deduplicated and counted, or an exception escapes it (which stops the
      worker before the offset is committed). */
  datatype Handling = Skipped | Handled | Raised

  /** The consumer's per-message logic: decode, deduplicate, classify by
      topic and record into the aggregator. */
  class AnalyticsWorker {
    const config: Config
    const metrics: MetricsAggregator
    const deduper: DuplicateFilter
    const digest: Payload -> string

    ghost predicate Valid()
      reads metrics.orderWindow, metrics.failureWindow, deduper
    {
      metrics.Valid() && deduper.Valid()
    }

    ghost predicate StampedBy(now: real)
      reads metrics.orderWindow, metrics.failureWindow, deduper
    {
      metrics.StampedBy(now) && deduper.StampedBy(now)
    }

    /** The duplicate filter's TTL is the configured window length. */
    constructor (config: Config, metrics: MetricsAggregator, digest: Payload -> string)
      requires metrics.Valid()
      ensures Valid() && fresh(deduper)
      ensures this.config == config && this.metrics == metrics && this.digest == digest
      ensures deduper.ttl == AtLeastOne(config.windowSec) && deduper.seen == map[] && deduper.order == []
    {
      this.config := config;
      this.metrics := metrics;
      this.digest := digest;
      deduper := new DuplicateFilter(config.windowSec);
    }

    /** What counting a fresh event does to the aggregator, given its state
        before: an order event counts an order and tracks its resolved id; an
        inventory event counts an event, a failure exactly when its status
        says so; any other topic changes nothing. */
    ghost predicate Recorded(stats0: Stats, entries0: map<string, real>, order0: seq<Stamped<string>>,
                             events0: seq<Stamped<bool>>, topic: string, key: Option<string>,
                             payload: Payload, now: real)
      reads metrics, metrics.orderWindow, metrics.failureWindow
    {
      var ow, fw := metrics.orderWindow, metrics.failureWindow;
      if topic == config.orderTopic then
        && metrics.stats == stats0.(orders := stats0.orders + 1)
        && ow.entries == TrackEntries(entries0, ResolveOrderId(key, payload), now, ow.window)
        && ow.order == TrackOrder(order0, ResolveOrderId(key, payload), now, ow.window)
        && fw.events == events0
      else if topic == config.inventoryTopic then
        && metrics.stats == stats0.(inventory := stats0.inventory + 1)
        && ow.entries == entries0 && ow.order == order0
        && fw.events == TrackEvents(events0, IsFailureStatus(payload), now, fw.window)
      else
        && metrics.stats == stats0
        && ow.entries == entries0 && ow.order == order0
        && fw.events == events0
    }

    /** What counting a redelivery does: only the duplicate counter moves. */
    ghost predicate CountedDuplicate(stats0: Stats, entries0: map<string, real>, order0: seq<Stamped<string>>,
                                     events0: seq<Stamped<bool>>)
      reads metrics, metrics.orderWindow, metrics.failureWindow
    {
      && metrics.stats == stats0.(duplicates := stats0.duplicates + 1)
      && metrics.orderWindow.entries == entries0 && metrics.orderWindow.order == order0
      && metrics.failureWindow.events == events0
    }

    /** What `_handle_message` does to the aggregator once it knows whether
        the event is a duplicate. */
    ghost predicate Counted(duplicate: bool, stats0: Stats, entries0: map<string, real>,
                            order0: seq<Stamped<string>>, events0: seq<Stamped<bool>>,
                            topic: string, key: Option<string>, payload: Payload, now: real)
      reads metrics, metrics.orderWindow, metrics.failureWindow
    {
      if duplicate then CountedDuplicate(stats0, entries0, order0, events0)
      else Recorded(stats0, entries0, order0, events0, topic, key, payload, now)
    }

    /** The aggregator half of `_handle_message`: a duplicate is only
        counted; anything else is recorded by topic. */
    method Count(duplicate: bool, topic: string, key: Option<string>, payload: Payload, now: real)
      requires metrics.Valid() && metrics.StampedBy(now)
      modifies metrics, metrics.orderWindow, metrics.failureWindow
      ensures metrics.Valid() && metrics.StampedBy(now)
      ensures Counted(duplicate, old(metrics.stats), old(metrics.orderWindow.entries), old(metrics.orderWindow.order),
                      old(metrics.failureWindow.events), topic, key, payload, now)
    {
      if duplicate {
        metrics.RecordDuplicate();
      } else if topic == config.orderTopic {
        metrics.RecordOrder(ResolveOrderId(key, payload), now);
      } else if topic == config.inventoryTopic {
        metrics.RecordInventory(IsFailureStatus(payload), now);
      }
    }

    /** `_handle_message` once the value has decoded: the event is looked up
        in (and, unless a duplicate, registered with) the filter, then
        counted. */
    method HandleDecoded(topic: string, key: Option<string>, payload: Payload, now: real)
      requires Valid() && StampedBy(now)
      modifies metrics, metrics.orderWindow, metrics.failureWindow, deduper
      ensures Valid() && StampedBy(now)
      ensures var eventId := EventId(topic, key, payload, digest(payload));
        && deduper.RegisteredFrom(old(deduper.seen), old(deduper.order), eventId, now)
        && Counted(eventId in Unexpired(old(deduper.seen), now - deduper.ttl),
                   old(metrics.stats), old(metrics.orderWindow.entries), old(metrics.orderWindow.order),
                   old(metrics.failureWindow.events), topic, key, payload, now)
    {
      var eventId := EventId(topic, key, payload, digest(payload));
      var duplicate := deduper.Register(eventId, now);
      Count(duplicate, topic, key, payload, now);
    }

    /** `_handle_message`: a value that does not decode is skipped and
        changes nothing; a JSON document that is not an object makes the
        identity computation raise before anything changes; an object is
        handled as above. */
    method HandleMessage(topic: string, key: Option<string>, value: RawValue, now: real)
      returns (handling: Handling)
      requires Valid() && StampedBy(now)
      modifies metrics, metrics.orderWindow, metrics.failureWindow, deduper
      ensures Valid() && StampedBy(now)
      ensures handling == Skipped <==> value.Undecodable?
      ensures handling == Raised <==> value.NotAnObject?
      ensures handling != Handled ==>
        unchanged(metrics, metrics.orderWindow, metrics.failureWindow, deduper)
      ensures handling == Handled ==>
        var payload := if value.Encoded? then value.payload else map[];
        var eventId := EventId(topic, key, payload, digest(payload));
        && deduper.RegisteredFrom(old(deduper.seen), old(deduper.order), eventId, now)
        && Counted(eventId in Unexpired(old(deduper.seen), now - deduper.ttl),
                   old(metrics.stats), old(metrics.orderWindow.entries), old(metrics.orderWindow.order),
                   old(metrics.failureWindow.events), topic, key, payload, now)
    {
      var decoded := DecodePayload(value);
      if decoded.Failure? {
        return Skipped;
      }
      if decoded.value.NonObject? {
        return Raised;
      }
      HandleDecoded(topic, key, decoded.value.fields, now);
      return Handled;
    }
  }
}
