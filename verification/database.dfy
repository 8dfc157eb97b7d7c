/**
 * The data logger's write path. Each record the application logs becomes an
 * operation on a queue; a background loop hands batches of operations to
 * `_process_batch`, which writes them into the SQLite tables. Tables are
 * sequences of rows in insertion order; `INSERT OR REPLACE` on a UNIQUE
 * column removes the row holding the same key and appends the new one.
 * SQL `NULL` never equals anything, so a `NULL` key never conflicts.
 */
module Database {
  import opened Wrappers
  import opened Values
  import OrderedMap
  import BoundedQueue

  const SecondsPerDay := 86400
  const DefaultDaysToKeep := 30

  /** A row of `messages`; `message_id` is UNIQUE. */
  datatype MessageRow = MessageRow(
    messageId: Value, fromNode: Value, toNode: Value, text: Value, timestamp: Value,
    status: Value, hopCount: Value, rssi: Value, snr: Value, messageType: Value, channel: Value)

  /** A row of `nodes`; `node_id` is UNIQUE. */
  datatype NodeRow = NodeRow(
    nodeId: Value, name: Value, shortName: Value, hardware: Value, firmware: Value,
    firstSeen: Value, lastSeen: Value, isLocal: Value)

  /**
   * The parameters of the node upsert: the row's fields, the id the
   * `COALESCE((SELECT first_seen ...), ?)` subquery looks up, and the
   * `first_seen` used when that finds nothing.
   */
  datatype NodeUpdate = NodeUpdate(
    nodeId: Value, name: Value, shortName: Value, hardware: Value, firmware: Value,
    lookupId: Value, firstSeenIfNew: Value, lastSeen: Value, isLocal: Value)

  datatype PositionRow = PositionRow(
    nodeId: Value, latitude: Value, longitude: Value, altitude: Value, timestamp: Value, accuracy: Value)

  datatype MetricsRow = MetricsRow(
    nodeId: Value, timestamp: Value, batteryLevel: Value, voltage: Value, current: Value,
    utilization: Value, airtime: Value, channelUtilization: Value, rssi: Value, snr: Value)

  /** A row of `emergency_events`; `acknowledged` takes its column default. */
  datatype EmergencyRow = EmergencyRow(
    nodeId: Value, eventType: Value, latitude: Value, longitude: Value, message: Value,
    timestamp: Value, acknowledged: bool)

  datatype ConnectionEventRow = ConnectionEventRow(
    eventType: Value, devicePath: Value, timestamp: Value, success: Value, errorMessage: Value)

  /** A row of `config_profiles`; `profile_name` is UNIQUE. */
  datatype ProfileRow = ProfileRow(name: string, deviceConfig: string, createdDate: Value, lastUsed: Value)

  /** A queued operation: its `'type'` and its `'data'` tuple. */
  datatype Op =
    | LogMessage(message: MessageRow)
    | LogNodeUpdate(node: NodeUpdate)
    | LogMetrics(metrics: MetricsRow)
    | LogPosition(position: PositionRow)
    | LogEmergencyEvent(emergency: EmergencyRow)

  datatype Tables = Tables(
    messages: seq<MessageRow>,
    nodes: seq<NodeRow>,
    metrics: seq<MetricsRow>,
    positions: seq<PositionRow>,
    emergencies: seq<EmergencyRow>,
    connectionEvents: seq<ConnectionEventRow>,
    profiles: seq<ProfileRow>)

  const EmptyTables := Tables([], [], [], [], [], [], [])

  // ---------------------------------------------------------------------
  // Encoding records as operations
  // ---------------------------------------------------------------------

  /** `v` is what `d.get(key, dflt)` yields: the caller's binding when present, else the default. */
  predicate FieldFrom(d: Entries, key: string, dflt: Value, v: Value) {
    if Has(d, key) then OrderedMap.Lookup(d, key) == Some(v) else v == dflt
  }

  /** The operation `queue_message` enqueues; `now` is `datetime.now()`. */
  function MessageOp(data: Entries, now: int): (r: Op)
    ensures r.LogMessage?
    ensures FieldFrom(data, "message_id", Str(""), r.message.messageId)
    ensures FieldFrom(data, "from_node", Str(""), r.message.fromNode)
    ensures FieldFrom(data, "to_node", Str(""), r.message.toNode)
    ensures FieldFrom(data, "message_text", Str(""), r.message.text)
    ensures FieldFrom(data, "timestamp", Time(now), r.message.timestamp)
    ensures FieldFrom(data, "status", Str("received"), r.message.status)
    ensures FieldFrom(data, "hop_count", Int(0), r.message.hopCount)
    ensures FieldFrom(data, "rssi", Null, r.message.rssi)
    ensures FieldFrom(data, "snr", Null, r.message.snr)
    ensures FieldFrom(data, "message_type", Str("text"), r.message.messageType)
    ensures FieldFrom(data, "channel", Str("primary"), r.message.channel)
  {
    LogMessage(MessageRow(
      Get(data, "message_id", Str("")),
      Get(data, "from_node", Str("")),
      Get(data, "to_node", Str("")),
      Get(data, "message_text", Str("")),
      Get(data, "timestamp", Time(now)),
      Get(data, "status", Str("received")),
      Get(data, "hop_count", Int(0)),
      Get(data, "rssi", Null),
      Get(data, "snr", Null),
      Get(data, "message_type", Str("text")),
      Get(data, "channel", Str("primary"))))
  }

  /** The operation `log_emergency_event` enqueues. */
  function EmergencyOp(source: Value, eventType: Value, lat: Value, lon: Value, message: Value, now: int): (r: Op)
    ensures r.LogEmergencyEvent?
    ensures r.emergency.nodeId == source && r.emergency.eventType == eventType
    ensures r.emergency.latitude == lat && r.emergency.longitude == lon && r.emergency.message == message
    ensures r.emergency.timestamp == Time(now) && !r.emergency.acknowledged
  {
    LogEmergencyEvent(EmergencyRow(source, eventType, lat, lon, message, Time(now), false))
  }

  /** `'latitude' in node_data and 'longitude' in node_data`. */
  predicate HasPosition(data: Entries) {
    Has(data, "latitude") && Has(data, "longitude")
  }

  /** `'battery_level' in node_data or 'rssi' in node_data`. */
  predicate HasMetrics(data: Entries) {
    Has(data, "battery_level") || Has(data, "rssi")
  }

  function NodeOp(data: Entries, now: int): (r: Op)
    ensures r.LogNodeUpdate?
    ensures FieldFrom(data, "node_id", Str(""), r.node.nodeId) && r.node.lookupId == r.node.nodeId
    ensures r.node.firstSeenIfNew == r.node.lastSeen == Time(now)
    ensures FieldFrom(data, "node_name", Str(""), r.node.name)
    ensures FieldFrom(data, "is_local", Bool(false), r.node.isLocal)
  {
    var id := Get(data, "node_id", Str(""));
    LogNodeUpdate(NodeUpdate(
      id,
      Get(data, "node_name", Str("")),
      Get(data, "short_name", Str("")),
      Get(data, "hardware_model", Str("")),
      Get(data, "firmware_version", Str("")),
      id, Time(now), Time(now),
      Get(data, "is_local", Bool(false))))
  }

  function PositionOp(data: Entries, now: int): (r: Op)
    ensures r.LogPosition?
    ensures FieldFrom(data, "node_id", Str(""), r.position.nodeId)
    ensures FieldFrom(data, "latitude", Null, r.position.latitude)
    ensures FieldFrom(data, "longitude", Null, r.position.longitude)
    ensures FieldFrom(data, "altitude", Null, r.position.altitude)
    ensures r.position.timestamp == Time(now)
  {
    LogPosition(PositionRow(
      Get(data, "node_id", Str("")),
      Get(data, "latitude", Null),
      Get(data, "longitude", Null),
      Get(data, "altitude", Null),
      Time(now),
      Get(data, "accuracy", Null)))
  }

  function MetricsOp(data: Entries, now: int): (r: Op)
    ensures r.LogMetrics?
    ensures FieldFrom(data, "node_id", Str(""), r.metrics.nodeId)
    ensures FieldFrom(data, "battery_level", Null, r.metrics.batteryLevel)
    ensures FieldFrom(data, "rssi", Null, r.metrics.rssi)
    ensures r.metrics.timestamp == Time(now)
  {
    LogMetrics(MetricsRow(
      Get(data, "node_id", Str("")),
      Time(now),
      Get(data, "battery_level", Null),
      Get(data, "voltage", Null),
      Get(data, "current", Null),
      Get(data, "utilization", Null),
      Get(data, "airtime", Null),
      Get(data, "channel_utilization", Null),
      Get(data, "rssi", Null),
      Get(data, "snr", Null)))
  }

  /**
   * The operations `queue_node_update` enqueues, in order: the node itself,
   * then its position when both coordinates are given, then its metrics when
   * a battery level or an RSSI is given. All carry the same node id and the
   * same `now`.
   */
  function NodeUpdateOps(data: Entries, now: int): (r: seq<Op>)
    ensures |r| == 1 + (if HasPosition(data) then 1 else 0) + (if HasMetrics(data) then 1 else 0)
    ensures r[0].LogNodeUpdate?
    ensures FieldFrom(data, "node_id", Str(""), r[0].node.nodeId)
    ensures r[0].node.lookupId == r[0].node.nodeId
    ensures r[0].node.firstSeenIfNew == r[0].node.lastSeen == Time(now)
    ensures FieldFrom(data, "node_name", Str(""), r[0].node.name)
    ensures FieldFrom(data, "is_local", Bool(false), r[0].node.isLocal)
    ensures HasPosition(data) ==>
      r[1].LogPosition? && r[1].position.nodeId == r[0].node.nodeId &&
      OrderedMap.Lookup(data, "latitude") == Some(r[1].position.latitude) &&
      OrderedMap.Lookup(data, "longitude") == Some(r[1].position.longitude) &&
      FieldFrom(data, "altitude", Null, r[1].position.altitude) &&
      r[1].position.timestamp == Time(now)
    ensures HasMetrics(data) ==>
      r[|r| - 1].LogMetrics? && r[|r| - 1].metrics.nodeId == r[0].node.nodeId &&
      FieldFrom(data, "battery_level", Null, r[|r| - 1].metrics.batteryLevel) &&
      FieldFrom(data, "rssi", Null, r[|r| - 1].metrics.rssi) &&
      r[|r| - 1].metrics.timestamp == Time(now)
  {
    var n := NodeOp(data, now);
    var p := PositionOp(data, now);
    var m := MetricsOp(data, now);
    assert p.position.nodeId == n.node.nodeId && m.metrics.nodeId == n.node.nodeId;
    Assemble(n, p, m, HasPosition(data), HasMetrics(data))
  }

  /** Only the first operation of a node update touches the nodes table; the rest are position and metrics rows. */
  lemma NodeUpdateOpsRest(data: Entries, now: int)
    ensures var r := NodeUpdateOps(data, now);
      forall i :: 1 <= i < |r| ==> r[i].LogPosition? || r[i].LogMetrics?
  {
  }

  /** The node operation, then the position operation when wanted, then the metrics operation when wanted. */
  function Assemble(n: Op, p: Op, m: Op, withPosition: bool, withMetrics: bool): (r: seq<Op>)
    ensures |r| == 1 + (if withPosition then 1 else 0) + (if withMetrics then 1 else 0)
    ensures r[0] == n
    ensures withPosition ==> r[1] == p
    ensures withMetrics ==> r[|r| - 1] == m
    ensures forall i :: 1 <= i < |r| ==> r[i] == p || r[i] == m
  {
    if withPosition then
      if withMetrics then [n, p, m] else [n, p]
    else
      if withMetrics then [n, m] else [n]
  }

  // ---------------------------------------------------------------------
  // Table operations
  // ---------------------------------------------------------------------

  /** The rows of `rows` that `keep` accepts, in order. */
  function Filter<R(!new)>(rows: seq<R>, keep: R -> bool): (r: seq<R>)
    ensures |r| <= |rows|
    ensures forall x :: x in r <==> x in rows && keep(x)
  {
    if |rows| == 0 then []
    else Filter(rows[..|rows| - 1], keep) + (if keep(rows[|rows| - 1]) then [rows[|rows| - 1]] else [])
  }

  /** Filtering distributes over concatenation, so it keeps the rows' relative order. */
  lemma {:induction false} FilterAppend<R(!new)>(a: seq<R>, b: seq<R>, keep: R -> bool)
    ensures Filter(a + b, keep) == Filter(a, keep) + Filter(b, keep)
    decreases |b|
  {
    if |b| == 0 {
      assert a + b == a;
    } else {
      var b' := b[..|b| - 1];
      assert (a + b)[..|a + b| - 1] == a + b';
      assert (a + b)[|a + b| - 1] == b[|b| - 1];
      FilterAppend(a, b', keep);
    }
  }

  /** Filtering with a test every row passes changes nothing. */
  lemma {:induction false} FilterAll<R(!new)>(rows: seq<R>, keep: R -> bool)
    requires forall i :: 0 <= i < |rows| ==> keep(rows[i])
    ensures Filter(rows, keep) == rows
    decreases |rows|
  {
    if |rows| > 0 {
      var init, last := rows[..|rows| - 1], rows[|rows| - 1];
      assert forall i :: 0 <= i < |init| ==> keep(init[i]) by {
        forall i | 0 <= i < |init| ensures keep(init[i]) {
          assert init[i] == rows[i];
        }
      }
      FilterAll(init, keep);
      assert keep(last);
      assert Filter(rows, keep) == init + [last];
      assert rows == init + [last];
    }
  }

  /** No two rows share a non-`NULL` key: what a UNIQUE column guarantees. */
  predicate UniqueKeyed<R(!new)>(rows: seq<R>, key: R -> Value) {
    forall i, j :: 0 <= i < j < |rows| && key(rows[i]) != Null ==> key(rows[i]) != key(rows[j])
  }

  lemma {:induction false} FilterKeepsUniqueKeyed<R(!new)>(rows: seq<R>, key: R -> Value, keep: R -> bool)
    requires UniqueKeyed(rows, key)
    ensures UniqueKeyed(Filter(rows, keep), key)
    decreases |rows|
  {
    if |rows| > 0 {
      var init := rows[..|rows| - 1];
      var last := rows[|rows| - 1];
      FilterKeepsUniqueKeyed(init, key, keep);
      var f := Filter(init, keep);
      if keep(last) {
        var r := f + [last];
        forall i, j | 0 <= i < j < |r| && key(r[i]) != Null
          ensures key(r[i]) != key(r[j])
        {
          if j == |r| - 1 {
            assert r[i] in f;
            var k :| 0 <= k < |init| && init[k] == r[i];
            assert rows[k] == r[i] && rows[|rows| - 1] == last;
          } else {
            assert r[i] == f[i] && r[j] == f[j];
          }
        }
      }
    }
  }

  /** The first row whose key is `k`; `WHERE col = NULL` matches nothing. */
  function Find<R(!new)>(rows: seq<R>, key: R -> Value, k: Value): (r: Option<R>)
    ensures r.Some? ==> r.value in rows && key(r.value) == k && k != Null
    ensures r.None? ==> k == Null || forall x :: x in rows ==> key(x) != k
  {
    if k == Null || |rows| == 0 then None
    else if key(rows[0]) == k then Some(rows[0])
    else Find(rows[1..], key, k)
  }

  /** Under a UNIQUE key, the row a lookup finds is the only one with that key. */
  lemma {:induction false} FindUnique<R(!new)>(rows: seq<R>, key: R -> Value, i: nat)
    requires UniqueKeyed(rows, key) && i < |rows| && key(rows[i]) != Null
    ensures Find(rows, key, key(rows[i])) == Some(rows[i])
  {
    if i > 0 {
      assert key(rows[0]) != key(rows[i]);
      assert UniqueKeyed(rows[1..], key) by {
        forall a, b | 0 <= a < b < |rows[1..]| && key(rows[1..][a]) != Null
          ensures key(rows[1..][a]) != key(rows[1..][b])
        {
          assert rows[1..][a] == rows[a + 1] && rows[1..][b] == rows[b + 1];
        }
      }
      FindUnique(rows[1..], key, i - 1);
    }
  }

  /** The test `WHERE key <> k`, as a value. */
  function KeyIsNot<R>(key: R -> Value, k: Value): R -> bool {
    x => key(x) != k
  }

  /** Two tests that agree on every row keep the same rows. */
  lemma {:induction false} FilterSameTest<R(!new)>(rows: seq<R>, f: R -> bool, g: R -> bool)
    requires forall x :: f(x) == g(x)
    ensures Filter(rows, f) == Filter(rows, g)
    decreases |rows|
  {
    if |rows| > 0 {
      FilterSameTest(rows[..|rows| - 1], f, g);
    }
  }

  /** `INSERT OR REPLACE`: drop the row holding the new row's key, if any, and append the new row. */
  function Upsert<R(!new)>(rows: seq<R>, key: R -> Value, row: R): (r: seq<R>)
    ensures |r| > 0 && r[|r| - 1] == row
    ensures forall x :: x in r ==> x == row || (x in rows && (key(row) == Null || key(x) != key(row)))
    ensures forall x :: x in rows && (key(row) == Null || key(x) != key(row)) ==> x in r
  {
    var k := key(row);
    (if k == Null then rows else Filter(rows, KeyIsNot(key, k))) + [row]
  }

  /** An upsert keeps a UNIQUE column unique, and afterwards the new row is the one its key finds. */
  lemma UpsertKeepsUniqueKeyed<R(!new)>(rows: seq<R>, key: R -> Value, row: R)
    requires UniqueKeyed(rows, key)
    ensures UniqueKeyed(Upsert(rows, key, row), key)
    ensures key(row) != Null ==> Find(Upsert(rows, key, row), key, key(row)) == Some(row)
  {
    var k := key(row);
    var f := if k == Null then rows else Filter(rows, KeyIsNot(key, k));
    if k != Null {
      FilterKeepsUniqueKeyed(rows, key, KeyIsNot(key, k));
    }
    var r := f + [row];
    assert r == Upsert(rows, key, row);
    forall i, j | 0 <= i < j < |r| && key(r[i]) != Null
      ensures key(r[i]) != key(r[j])
    {
      if j < |f| {
        assert r[i] == f[i] && r[j] == f[j];
      } else {
        assert r[i] in f;
      }
    }
    if k != Null {
      FindUnique(r, key, |r| - 1);
    }
  }

  function MessageKey(m: MessageRow): Value { m.messageId }
  function NodeKey(n: NodeRow): Value { n.nodeId }
  function ProfileKey(p: ProfileRow): Value { Str(p.name) }

  /**
   * The node upsert. The `COALESCE` subquery is evaluated before the old row
   * is replaced, so a known node keeps its `first_seen`; a new node (or one
   * whose `first_seen` is `NULL`) takes the operation's fallback.
   */
  function UpsertNode(nodes: seq<NodeRow>, u: NodeUpdate): (r: seq<NodeRow>)
    ensures |r| > 0 && r[|r| - 1].nodeId == u.nodeId && r[|r| - 1].lastSeen == u.lastSeen
    ensures r[|r| - 1].name == u.name && r[|r| - 1].isLocal == u.isLocal
    ensures match Find(nodes, NodeKey, u.lookupId)
      case Some(prev) => prev.firstSeen != Null ==> r[|r| - 1].firstSeen == prev.firstSeen
      case None => r[|r| - 1].firstSeen == u.firstSeenIfNew
  {
    var found := Find(nodes, NodeKey, u.lookupId);
    var firstSeen := if found.Some? && found.value.firstSeen != Null then found.value.firstSeen else u.firstSeenIfNew;
    Upsert(nodes, NodeKey, NodeRow(u.nodeId, u.name, u.shortName, u.hardware, u.firmware, firstSeen, u.lastSeen, u.isLocal))
  }

  /** One operation written on its own: `_process_single_operation`, which handles every kind. */
  function ApplyOp(t: Tables, op: Op): (r: Tables)
    ensures op.LogMessage? ==> r == t.(messages := Upsert(t.messages, MessageKey, op.message))
    ensures op.LogNodeUpdate? ==> r == t.(nodes := UpsertNode(t.nodes, op.node))
    ensures op.LogMetrics? ==> r == t.(metrics := t.metrics + [op.metrics])
    ensures op.LogPosition? ==> r == t.(positions := t.positions + [op.position])
    ensures op.LogEmergencyEvent? ==> r == t.(emergencies := t.emergencies + [op.emergency])
    ensures r.connectionEvents == t.connectionEvents && r.profiles == t.profiles
  {
    match op
    case LogMessage(m) => t.(messages := Upsert(t.messages, MessageKey, m))
    case LogNodeUpdate(n) => t.(nodes := UpsertNode(t.nodes, n))
    case LogMetrics(x) => t.(metrics := t.metrics + [x])
    case LogPosition(p) => t.(positions := t.positions + [p])
    case LogEmergencyEvent(e) => t.(emergencies := t.emergencies + [e])
  }

  /** Operations applied one after another, in queue order: the reference for the batched writer. */
  function ApplyAll(t: Tables, ops: seq<Op>): Tables
  {
    if |ops| == 0 then t else ApplyOp(ApplyAll(t, ops[..|ops| - 1]), ops[|ops| - 1])
  }

  /** Applying `a` then `b` is applying `a + b`. */
  lemma {:induction false} ApplyAllAppend(t: Tables, a: seq<Op>, b: seq<Op>)
    ensures ApplyAll(ApplyAll(t, a), b) == ApplyAll(t, a + b)
    decreases |b|
  {
    if |b| == 0 {
      assert a + b == a;
    } else {
      var b' := b[..|b| - 1];
      assert (a + b)[..|a + b| - 1] == a + b';
      assert (a + b)[|a + b| - 1] == b[|b| - 1];
      ApplyAllAppend(t, a, b');
    }
  }

  // ---------------------------------------------------------------------
  // The batch writer's grouping
  // ---------------------------------------------------------------------

  function MessagesOf(batch: seq<Op>): seq<MessageRow> {
    if |batch| == 0 then []
    else MessagesOf(batch[..|batch| - 1]) + (if batch[|batch| - 1].LogMessage? then [batch[|batch| - 1].message] else [])
  }

  function NodeUpdatesOf(batch: seq<Op>): seq<NodeUpdate> {
    if |batch| == 0 then []
    else NodeUpdatesOf(batch[..|batch| - 1]) + (if batch[|batch| - 1].LogNodeUpdate? then [batch[|batch| - 1].node] else [])
  }

  function MetricsOf(batch: seq<Op>): seq<MetricsRow> {
    if |batch| == 0 then []
    else MetricsOf(batch[..|batch| - 1]) + (if batch[|batch| - 1].LogMetrics? then [batch[|batch| - 1].metrics] else [])
  }

  function PositionsOf(batch: seq<Op>): seq<PositionRow> {
    if |batch| == 0 then []
    else PositionsOf(batch[..|batch| - 1]) + (if batch[|batch| - 1].LogPosition? then [batch[|batch| - 1].position] else [])
  }

  function EmergenciesOf(batch: seq<Op>): seq<EmergencyRow> {
    if |batch| == 0 then []
    else EmergenciesOf(batch[..|batch| - 1]) + (if batch[|batch| - 1].LogEmergencyEvent? then [batch[|batch| - 1].emergency] else [])
  }

  /** `executemany` of the message upsert. */
  function UpsertMessages(rows: seq<MessageRow>, ms: seq<MessageRow>): seq<MessageRow> {
    if |ms| == 0 then rows else Upsert(UpsertMessages(rows, ms[..|ms| - 1]), MessageKey, ms[|ms| - 1])
  }

  /** `executemany` of the node upsert. */
  function UpsertNodes(rows: seq<NodeRow>, us: seq<NodeUpdate>): seq<NodeRow> {
    if |us| == 0 then rows else UpsertNode(UpsertNodes(rows, us[..|us| - 1]), us[|us| - 1])
  }

  /**
   * `_process_batch` as the source writes it: messages, node updates,
   * metrics and positions are each written in batch order, and every other
   * operation, emergency events included, is dropped.
   */
  function ProcessBatchAsWritten(t: Tables, batch: seq<Op>): (r: Tables)
    ensures r.emergencies == t.emergencies
    ensures r.connectionEvents == t.connectionEvents && r.profiles == t.profiles
    ensures r.metrics == t.metrics + MetricsOf(batch) && r.positions == t.positions + PositionsOf(batch)
  {
    t.(messages := UpsertMessages(t.messages, MessagesOf(batch)),
       nodes := UpsertNodes(t.nodes, NodeUpdatesOf(batch)),
       metrics := t.metrics + MetricsOf(batch),
       positions := t.positions + PositionsOf(batch))
  }

  /** `_process_batch` with the missing branch: emergency events are appended to their table too. */
  function ProcessBatch(t: Tables, batch: seq<Op>): (r: Tables)
    ensures r.emergencies == t.emergencies + EmergenciesOf(batch)
    ensures r.connectionEvents == t.connectionEvents && r.profiles == t.profiles
    ensures r.metrics == t.metrics + MetricsOf(batch) && r.positions == t.positions + PositionsOf(batch)
  {
    ProcessBatchAsWritten(t, batch).(emergencies := t.emergencies + EmergenciesOf(batch))
  }

  /** Each grouping function picks out its own kind of operation, in order. */
  lemma GroupsSnoc(batch: seq<Op>, op: Op)
    ensures MessagesOf(batch + [op]) == MessagesOf(batch) + (if op.LogMessage? then [op.message] else [])
    ensures NodeUpdatesOf(batch + [op]) == NodeUpdatesOf(batch) + (if op.LogNodeUpdate? then [op.node] else [])
    ensures MetricsOf(batch + [op]) == MetricsOf(batch) + (if op.LogMetrics? then [op.metrics] else [])
    ensures PositionsOf(batch + [op]) == PositionsOf(batch) + (if op.LogPosition? then [op.position] else [])
    ensures EmergenciesOf(batch + [op]) == EmergenciesOf(batch) + (if op.LogEmergencyEvent? then [op.emergency] else [])
  {
    var b := batch + [op];
    assert b[..|b| - 1] == batch && b[|b| - 1] == op;
  }

  lemma MessagesStep(rows: seq<MessageRow>, batch: seq<Op>, op: Op)
    ensures UpsertMessages(rows, MessagesOf(batch + [op])) ==
      if op.LogMessage? then Upsert(UpsertMessages(rows, MessagesOf(batch)), MessageKey, op.message)
      else UpsertMessages(rows, MessagesOf(batch))
  {
    GroupsSnoc(batch, op);
    var ms := MessagesOf(batch);
    if op.LogMessage? {
      assert (ms + [op.message])[..|ms|] == ms;
    } else {
      assert ms + [] == ms;
    }
  }

  lemma NodesStep(rows: seq<NodeRow>, batch: seq<Op>, op: Op)
    ensures UpsertNodes(rows, NodeUpdatesOf(batch + [op])) ==
      if op.LogNodeUpdate? then UpsertNode(UpsertNodes(rows, NodeUpdatesOf(batch)), op.node)
      else UpsertNodes(rows, NodeUpdatesOf(batch))
  {
    GroupsSnoc(batch, op);
    var us := NodeUpdatesOf(batch);
    if op.LogNodeUpdate? {
      assert (us + [op.node])[..|us|] == us;
    } else {
      assert us + [] == us;
    }
  }

  /** The batch writer's effect, table by table. */
  lemma ProcessBatchFields(t: Tables, batch: seq<Op>)
    ensures ProcessBatch(t, batch) == Tables(
      UpsertMessages(t.messages, MessagesOf(batch)),
      UpsertNodes(t.nodes, NodeUpdatesOf(batch)),
      t.metrics + MetricsOf(batch),
      t.positions + PositionsOf(batch),
      t.emergencies + EmergenciesOf(batch),
      t.connectionEvents,
      t.profiles)
  {
  }

  lemma MessagesAfter(t: Tables, batch: seq<Op>, op: Op)
    ensures ProcessBatch(t, batch + [op]).messages ==
      if op.LogMessage? then Upsert(ProcessBatch(t, batch).messages, MessageKey, op.message)
      else ProcessBatch(t, batch).messages
  {
    MessagesStep(t.messages, batch, op);
  }

  lemma NodesAfter(t: Tables, batch: seq<Op>, op: Op)
    ensures ProcessBatch(t, batch + [op]).nodes ==
      if op.LogNodeUpdate? then UpsertNode(ProcessBatch(t, batch).nodes, op.node)
      else ProcessBatch(t, batch).nodes
  {
    NodesStep(t.nodes, batch, op);
  }

  lemma MetricsAfter(t: Tables, batch: seq<Op>, op: Op)
    ensures ProcessBatch(t, batch + [op]).metrics ==
      ProcessBatch(t, batch).metrics + (if op.LogMetrics? then [op.metrics] else [])
  {
    GroupsSnoc(batch, op);
    var xs := MetricsOf(batch);
    assert t.metrics + (xs + (if op.LogMetrics? then [op.metrics] else [])) == (t.metrics + xs) + (if op.LogMetrics? then [op.metrics] else []);
  }

  lemma PositionsAfter(t: Tables, batch: seq<Op>, op: Op)
    ensures ProcessBatch(t, batch + [op]).positions ==
      ProcessBatch(t, batch).positions + (if op.LogPosition? then [op.position] else [])
  {
    GroupsSnoc(batch, op);
    var xs := PositionsOf(batch);
    assert t.positions + (xs + (if op.LogPosition? then [op.position] else [])) == (t.positions + xs) + (if op.LogPosition? then [op.position] else []);
  }

  lemma EmergenciesAfter(t: Tables, batch: seq<Op>, op: Op)
    ensures ProcessBatch(t, batch + [op]).emergencies ==
      ProcessBatch(t, batch).emergencies + (if op.LogEmergencyEvent? then [op.emergency] else [])
  {
    GroupsSnoc(batch, op);
    var xs := EmergenciesOf(batch);
    assert t.emergencies + (xs + (if op.LogEmergencyEvent? then [op.emergency] else [])) == (t.emergencies + xs) + (if op.LogEmergencyEvent? then [op.emergency] else []);
  }

  /** Adding one operation to a batch acts as applying it after the rest. */
  lemma ProcessBatchStep(t: Tables, batch: seq<Op>, op: Op)
    ensures ProcessBatch(t, batch + [op]) == ApplyOp(ProcessBatch(t, batch), op)
  {
    MessagesAfter(t, batch, op);
    NodesAfter(t, batch, op);
    MetricsAfter(t, batch, op);
    PositionsAfter(t, batch, op);
    EmergenciesAfter(t, batch, op);
  }

  /**
   * Grouping by kind does not change the outcome: the corrected batch
   * writer leaves the tables exactly as writing the operations one at a
   * time, in queue order, would.
   */
  lemma {:induction false} ProcessBatchIsSequential(t: Tables, batch: seq<Op>)
    ensures ProcessBatch(t, batch) == ApplyAll(t, batch)
    decreases |batch|
  {
    if |batch| > 0 {
      var init := batch[..|batch| - 1];
      ProcessBatchIsSequential(t, init);
      assert batch == init + [batch[|batch| - 1]];
      ProcessBatchStep(t, init, batch[|batch| - 1]);
    }
  }

  /** How a stream is cut into batches does not matter: two batches in a row act as their concatenation. */
  lemma ProcessBatchSplit(t: Tables, a: seq<Op>, b: seq<Op>)
    ensures ProcessBatch(ProcessBatch(t, a), b) == ProcessBatch(t, a + b)
  {
    ProcessBatchIsSequential(t, a);
    ProcessBatchIsSequential(ProcessBatch(t, a), b);
    ProcessBatchIsSequential(t, a + b);
    ApplyAllAppend(t, a, b);
  }

  /** The emergency operations a batch holds are exactly its `LogEmergencyEvent` entries, in order. */
  lemma {:induction false} EmergenciesOfAppend(a: seq<Op>, b: seq<Op>)
    ensures EmergenciesOf(a + b) == EmergenciesOf(a) + EmergenciesOf(b)
    decreases |b|
  {
    if |b| == 0 {
      assert a + b == a;
    } else {
      var b' := b[..|b| - 1];
      assert (a + b)[..|a + b| - 1] == a + b';
      assert (a + b)[|a + b| - 1] == b[|b| - 1];
      EmergenciesOfAppend(a, b');
    }
  }

  /** As written, no batch ever writes an emergency event, however many it holds. */
  lemma EmergencyEventsDroppedAsWritten(t: Tables, batch: seq<Op>, e: EmergencyRow)
    requires LogEmergencyEvent(e) in batch
    ensures e in EmergenciesOf(batch)
    ensures e in ProcessBatch(t, batch).emergencies
    ensures ProcessBatchAsWritten(t, batch).emergencies == t.emergencies
  {
    var i :| 0 <= i < |batch| && batch[i] == LogEmergencyEvent(e);
    assert batch == batch[..i] + [batch[i]] + batch[i + 1..];
    EmergenciesOfAppend(batch[..i] + [batch[i]], batch[i + 1..]);
    EmergenciesOfAppend(batch[..i], [batch[i]]);
    assert [batch[i]][..0] == [];
  }

  /** On batches without emergency events the corrected writer is the written one. */
  lemma ProcessBatchAgreesWithoutEmergencies(t: Tables, batch: seq<Op>)
    requires forall i :: 0 <= i < |batch| ==> !batch[i].LogEmergencyEvent?
    ensures ProcessBatch(t, batch) == ProcessBatchAsWritten(t, batch)
  {
    NoEmergencies(batch);
  }

  lemma {:induction false} NoEmergencies(batch: seq<Op>)
    requires forall i :: 0 <= i < |batch| ==> !batch[i].LogEmergencyEvent?
    ensures EmergenciesOf(batch) == []
    decreases |batch|
  {
    if |batch| > 0 {
      NoEmergencies(batch[..|batch| - 1]);
    }
  }

  // ---------------------------------------------------------------------
  // Properties of the tables
  // ---------------------------------------------------------------------

  /** The UNIQUE columns hold. */
  predicate WellKeyed(t: Tables) {
    UniqueKeyed(t.messages, MessageKey) && UniqueKeyed(t.nodes, NodeKey) && UniqueKeyed(t.profiles, ProfileKey)
  }

  lemma ApplyOpKeepsWellKeyed(t: Tables, op: Op)
    requires WellKeyed(t)
    ensures WellKeyed(ApplyOp(t, op))
  {
    match op
    case LogMessage(m) => UpsertKeepsUniqueKeyed(t.messages, MessageKey, m);
    case LogNodeUpdate(u) =>
      var found := Find(t.nodes, NodeKey, u.lookupId);
      var firstSeen := if found.Some? && found.value.firstSeen != Null then found.value.firstSeen else u.firstSeenIfNew;
      UpsertKeepsUniqueKeyed(t.nodes, NodeKey, NodeRow(u.nodeId, u.name, u.shortName, u.hardware, u.firmware, firstSeen, u.lastSeen, u.isLocal));
    case _ =>
  }

  /** Any sequence of writes keeps the UNIQUE columns unique. */
  lemma {:induction false} ApplyAllKeepsWellKeyed(t: Tables, ops: seq<Op>)
    requires WellKeyed(t)
    ensures WellKeyed(ApplyAll(t, ops))
    decreases |ops|
  {
    if |ops| > 0 {
      ApplyAllKeepsWellKeyed(t, ops[..|ops| - 1]);
      ApplyOpKeepsWellKeyed(ApplyAll(t, ops[..|ops| - 1]), ops[|ops| - 1]);
    }
  }

  /**
   * A node update for a known node keeps its `first_seen` and refreshes
   * `last_seen`; for an unknown node both are the update's time.
   */
  lemma NodeUpdateFirstSeen(nodes: seq<NodeRow>, data: Entries, now: int, i: nat)
    requires i < |nodes|
    ensures UniqueKeyed(nodes, NodeKey) && nodes[i].nodeId == NodeUpdateOps(data, now)[0].node.nodeId != Null &&
            nodes[i].firstSeen != Null ==>
      var r := UpsertNode(nodes, NodeUpdateOps(data, now)[0].node);
      Find(r, NodeKey, nodes[i].nodeId).Some? &&
      Find(r, NodeKey, nodes[i].nodeId).value.firstSeen == nodes[i].firstSeen &&
      Find(r, NodeKey, nodes[i].nodeId).value.lastSeen == Time(now)
  {
    if !(UniqueKeyed(nodes, NodeKey) && nodes[i].nodeId == NodeUpdateOps(data, now)[0].node.nodeId != Null &&
         nodes[i].firstSeen != Null) {
      return;
    }
    var u := NodeUpdateOps(data, now)[0].node;
    FindUnique(nodes, NodeKey, i);
    var found := Find(nodes, NodeKey, u.lookupId);
    var row := NodeRow(u.nodeId, u.name, u.shortName, u.hardware, u.firmware, nodes[i].firstSeen, u.lastSeen, u.isLocal);
    UpsertKeepsUniqueKeyed(nodes, NodeKey, row);
  }

  lemma NewNodeFirstSeen(nodes: seq<NodeRow>, data: Entries, now: int)
    requires forall x :: x in nodes ==> x.nodeId != NodeUpdateOps(data, now)[0].node.nodeId
    ensures var r := UpsertNode(nodes, NodeUpdateOps(data, now)[0].node);
      r[|r| - 1].firstSeen == r[|r| - 1].lastSeen == Time(now)
  {
  }

  /**
   * Messages logged without a `message_id` all get the id `''` and replace
   * one another: after two of them only the later one is stored.
   */
  lemma IdlessMessagesOverwrite(t: Tables, d1: Entries, d2: Entries, now1: int, now2: int)
    ensures !Has(d1, "message_id") && !Has(d2, "message_id") && MessageOp(d1, now1) != MessageOp(d2, now2) ==>
      var r := ApplyAll(t, [MessageOp(d1, now1), MessageOp(d2, now2)]);
      MessageOp(d2, now2).message in r.messages && MessageOp(d1, now1).message !in r.messages
  {
    var ops := [MessageOp(d1, now1), MessageOp(d2, now2)];
    assert ops[..1] == [MessageOp(d1, now1)] && ops[..1][..0] == [];
  }

  // ---------------------------------------------------------------------
  // Retention
  // ---------------------------------------------------------------------

  /**
   * `timestamp < cutoff` as SQLite evaluates it against a bound `datetime`
   * (stored as text): a `NULL` timestamp never compares, a number is below
   * any text, a `datetime` compares by time.
   */
  predicate OlderThan(ts: Value, cutoff: int) {
    match ts
    case Time(t) => t < cutoff
    case Int(_) => true
    case Real(_) => true
    case Bool(_) => true
    case _ => false
  }

  function Cutoff(now: int, daysToKeep: int): int {
    now - daysToKeep * SecondsPerDay
  }

  /**
   * `cleanup_old_data`: delete the messages, positions, metrics and
   * connection events older than the cutoff; nodes, emergency events and
   * profiles are left alone.
   */
  function CleanupOldData(t: Tables, now: int, daysToKeep: int): (r: Tables)
    ensures var c := Cutoff(now, daysToKeep);
      (forall x :: x in r.messages <==> x in t.messages && !OlderThan(x.timestamp, c)) &&
      (forall x :: x in r.positions <==> x in t.positions && !OlderThan(x.timestamp, c)) &&
      (forall x :: x in r.metrics <==> x in t.metrics && !OlderThan(x.timestamp, c)) &&
      (forall x :: x in r.connectionEvents <==> x in t.connectionEvents && !OlderThan(x.timestamp, c))
    ensures r.nodes == t.nodes && r.emergencies == t.emergencies && r.profiles == t.profiles
  {
    var c := Cutoff(now, daysToKeep);
    Tables(
      Filter(t.messages, (m: MessageRow) => !OlderThan(m.timestamp, c)),
      t.nodes,
      Filter(t.metrics, (x: MetricsRow) => !OlderThan(x.timestamp, c)),
      Filter(t.positions, (p: PositionRow) => !OlderThan(p.timestamp, c)),
      t.emergencies,
      Filter(t.connectionEvents, (e: ConnectionEventRow) => !OlderThan(e.timestamp, c)),
      t.profiles)
  }

  /** A second cleanup with the same cutoff removes nothing more. */
  lemma CleanupIdempotent(t: Tables, now: int, daysToKeep: int)
    ensures CleanupOldData(CleanupOldData(t, now, daysToKeep), now, daysToKeep) == CleanupOldData(t, now, daysToKeep)
  {
    var c := Cutoff(now, daysToKeep);
    var r := CleanupOldData(t, now, daysToKeep);
    assert forall i :: 0 <= i < |r.messages| ==> r.messages[i] in r.messages;
    assert forall i :: 0 <= i < |r.metrics| ==> r.metrics[i] in r.metrics;
    assert forall i :: 0 <= i < |r.positions| ==> r.positions[i] in r.positions;
    assert forall i :: 0 <= i < |r.connectionEvents| ==> r.connectionEvents[i] in r.connectionEvents;
    FilterAll(r.messages, (m: MessageRow) => !OlderThan(m.timestamp, c));
    FilterAll(r.metrics, (x: MetricsRow) => !OlderThan(x.timestamp, c));
    FilterAll(r.positions, (p: PositionRow) => !OlderThan(p.timestamp, c));
    FilterAll(r.connectionEvents, (e: ConnectionEventRow) => !OlderThan(e.timestamp, c));
  }

  /** Cleanup deletes rows but never reorders the survivors, and keeps the UNIQUE columns unique. */
  lemma CleanupKeepsOrderAndKeys(t: Tables, now: int, daysToKeep: int, a: seq<MessageRow>, b: seq<MessageRow>)
    requires t.messages == a + b && WellKeyed(t)
    ensures var c := Cutoff(now, daysToKeep);
      CleanupOldData(t, now, daysToKeep).messages ==
        Filter(a, (m: MessageRow) => !OlderThan(m.timestamp, c)) + Filter(b, (m: MessageRow) => !OlderThan(m.timestamp, c))
    ensures WellKeyed(CleanupOldData(t, now, daysToKeep))
  {
    var c := Cutoff(now, daysToKeep);
    FilterAppend(a, b, (m: MessageRow) => !OlderThan(m.timestamp, c));
    FilterKeepsUniqueKeyed(t.messages, MessageKey, (m: MessageRow) => !OlderThan(m.timestamp, c));
  }

  // ---------------------------------------------------------------------
  // The logger: enqueueing, with the immediate-write fallback
  // ---------------------------------------------------------------------

  /** The logger's queue of pending operations and the database it writes to. */
  datatype Logger = Logger(queue: BoundedQueue.Queue<Op>, tables: Tables)

  /** `DataLogger.__init__`: the batch queue is created without a `maxsize`, i.e. unbounded. */
  function NewLogger(t: Tables): (r: Logger)
    ensures r.queue.maxsize <= 0 && r.queue.items == [] && r.tables == t
  {
    Logger(BoundedQueue.Create(0), t)
  }

  /** `put_nowait`, falling back to `_process_single_operation` on `queue.Full`. */
  function Submit(l: Logger, op: Op): (r: Logger)
    ensures !BoundedQueue.IsFull(l.queue) ==> r.queue.items == l.queue.items + [op] && r.tables == l.tables
    ensures BoundedQueue.IsFull(l.queue) ==> r.queue == l.queue && r.tables == ApplyOp(l.tables, op)
    ensures r.queue.maxsize == l.queue.maxsize
  {
    match BoundedQueue.PutNowait(l.queue, op)
    case Ok(q) => l.(queue := q)
    case Err(_) => l.(tables := ApplyOp(l.tables, op))
  }

  function SubmitAll(l: Logger, ops: seq<Op>): (r: Logger)
    ensures r.queue.maxsize == l.queue.maxsize
    decreases |ops|
  {
    if |ops| == 0 then l else SubmitAll(Submit(l, ops[0]), ops[1..])
  }

  /** `queue_message`. */
  function QueueMessage(l: Logger, data: Entries, now: int): Logger {
    Submit(l, MessageOp(data, now))
  }

  /** `queue_node_update`. */
  function QueueNodeUpdate(l: Logger, data: Entries, now: int): Logger {
    SubmitAll(l, NodeUpdateOps(data, now))
  }

  /** `log_emergency_event`. */
  function LogEmergency(l: Logger, source: Value, eventType: Value, lat: Value, lon: Value, message: Value, now: int): Logger {
    Submit(l, EmergencyOp(source, eventType, lat, lon, message, now))
  }

  /**
   * Because the batch queue is unbounded, every submission is enqueued and
   * the immediate-write fallbacks never run: the caller's thread never
   * touches the tables.
   */
  lemma {:induction false} SubmitAllEnqueues(l: Logger, ops: seq<Op>)
    requires l.queue.maxsize <= 0
    ensures SubmitAll(l, ops).queue.items == l.queue.items + ops
    ensures SubmitAll(l, ops).tables == l.tables
    decreases |ops|
  {
    if |ops| > 0 {
      SubmitAllEnqueues(Submit(l, ops[0]), ops[1..]);
      assert l.queue.items + [ops[0]] + ops[1..] == l.queue.items + ops;
    }
  }

  /** A node update enqueues its one to three operations, and an emergency event its one. */
  lemma LoggingOnlyEnqueues(l: Logger, data: Entries, now: int, source: Value, eventType: Value, lat: Value, lon: Value, message: Value)
    requires l.queue.maxsize <= 0
    ensures QueueMessage(l, data, now).queue.items == l.queue.items + [MessageOp(data, now)]
    ensures QueueNodeUpdate(l, data, now).queue.items == l.queue.items + NodeUpdateOps(data, now)
    ensures QueueNodeUpdate(l, data, now).tables == l.tables
    ensures LogEmergency(l, source, eventType, lat, lon, message, now).queue.items ==
      l.queue.items + [EmergencyOp(source, eventType, lat, lon, message, now)]
    ensures LogEmergency(l, source, eventType, lat, lon, message, now).tables == l.tables
  {
    SubmitAllEnqueues(l, NodeUpdateOps(data, now));
  }
}
