/**
 * The adapter between the application and a Meshtastic radio: connection
 * status, the validation flag, the table of known nodes and the delivery
 * status of sent messages, advanced by the events its message thread
 * handles. The radio library is an oracle: what it did is passed in (a
 * `Device` describing the interface object it built, an outcome for each
 * call), and so are the clock and the md5-derived message ids.
 */
module DeviceInterface {
  import opened Wrappers
  import opened Text
  import opened Values
  import OrderedMap
  import Constants
  import Database

  /** The attributes of the library's interface object the adapter probes. */
  datatype Device = Device(
    hasSendText: bool,        // hasattr(interface, 'sendText')
    hasLocalNode: bool,       // hasattr(interface, 'localNode')
    localConfigAvailable: bool, // localNode is set and has localConfig
    loraConfigAvailable: bool, // localConfig has lora, and lora has region
    hasClose: bool,
    hasStream: bool)

  /** One entry of `message_status_tracking`. */
  datatype Tracked = Tracked(status: string, timestamp: int, wantAck: bool, destination: string)

  datatype Interface = Interface(
    device: Option<Device>,                // self.interface
    status: string,                        // self.connection_status
    validated: bool,                       // self.connection_validated
    nodes: seq<(Value, Value)>,            // self.nodes, keyed by node number
    tracking: seq<(Value, Tracked)>,       // self.message_status_tracking
    db: Option<Database.Logger>)           // self.database_manager

  function Init(db: Option<Database.Logger>): (r: Interface)
    ensures !IsConnected(r) && r.status == "Disconnected"
  {
    Interface(None, "Disconnected", false, [], [], db)
  }

  /** `is_connected`. */
  predicate IsConnected(s: Interface) {
    s.device.Some? && s.validated
  }

  /** `queue_message` on the database manager, when there is one. */
  function LogMessage(s: Interface, data: Entries, now: int): (r: Interface)
    ensures s.db.None? ==> r == s
    ensures s.db.Some? ==> r == s.(db := Some(Database.QueueMessage(s.db.value, data, now)))
  {
    if s.db.Some? then s.(db := Some(Database.QueueMessage(s.db.value, data, now))) else s
  }

  // ---------------------------------------------------------------------
  // Connecting and disconnecting
  // ---------------------------------------------------------------------

  /** The host a TCP connection targets: "auto", in any letter case, means the local machine. */
  function ConnectTarget(kind: string, param: string): (r: string)
    ensures kind == "TCP" && Lower(param) == "auto" ==> r == "localhost"
    ensures !(kind == "TCP" && Lower(param) == "auto") ==> r == param
  {
    if kind == "TCP" && Lower(param) == "auto" then "localhost" else param
  }

  /** What the library did when asked to open the connection. */
  datatype ConnectOutcome =
    | OpenFailed(error: string)         // building the interface raised
    | NotResponding(built: Device)     // built, but `validate_connection` failed
    | Ready(built: Device)             // built and validated

  /** The record `connect` queues for the message log. */
  function ConnectionEventRecord(path: string, success: bool, error: Option<string>, now: int): Entries {
    [("message_type", Str("connection_event")), ("event_type", Str("connect")),
     ("device_path", Str(path)), ("success", Bool(success))]
    + (if error.Some? then [("error_message", Str(error.value))] else [])
    + [("timestamp", Time(now))]
  }

  /** The error `connect` raises when the device was opened but does not validate. */
  const NotRespondingError: string :=
    "Connection established but device is not responding properly.\n\n" +
    "This could indicate:\n• Device is not a Meshtastic device\n" +
    "• Device firmware is incompatible\n" +
    "• Device is not fully initialized\n\n" +
    "Try disconnecting and reconnecting the device."

  /** The connection thread of `connect`, run to completion; also returns what the callback receives. */
  function Connect(s: Interface, libraryAvailable: bool, kind: string, param: string, outcome: ConnectOutcome, now: int): (r: (Interface, (bool, string)))
    ensures !libraryAvailable ==> r.0 == s && !r.1.0
    ensures libraryAvailable ==> (r.1.0 <==> outcome.Ready?)
    ensures libraryAvailable && outcome.Ready? ==>
      IsConnected(r.0) && r.0.status == "Connected" && r.0.device == Some(outcome.built)
    ensures libraryAvailable && !outcome.Ready? ==> r.0.status == "Failed" && r.0.validated == s.validated
    ensures libraryAvailable && outcome.NotResponding? ==> r.1 == (false, NotRespondingError)
    ensures libraryAvailable && outcome.OpenFailed? ==> r.1 == (false, outcome.error)
    ensures libraryAvailable && outcome.OpenFailed? ==> r.0.device == s.device
    ensures r.0.nodes == s.nodes && r.0.tracking == s.tracking
  {
    if !libraryAvailable then (s, (false, "Meshtastic library not available"))
    else
      var target := ConnectTarget(kind, param);
      match outcome
      case Ready(dev) =>
        var s1 := s.(device := Some(dev), status := "Connected", validated := true);
        (LogMessage(s1, ConnectionEventRecord(target, true, None, now), now), (true, "Connected successfully"))
      case NotResponding(dev) =>
        var err := NotRespondingError;
        var s1 := s.(device := Some(dev), status := "Failed");
        (LogMessage(s1, ConnectionEventRecord(target, false, Some(err), now), now), (false, err))
      case OpenFailed(err) =>
        var s1 := s.(status := "Failed");
        (LogMessage(s1, ConnectionEventRecord(target, false, Some(err), now), now), (false, err))
  }

  /**
   * Every connection attempt is logged as a message without an id, so in
   * the messages table it is stored under the id `''` and replaces the
   * previous one.
   */
  lemma ConnectionEventsHaveNoId(path: string, success: bool, error: Option<string>, now: int)
    ensures var op := Database.MessageOp(ConnectionEventRecord(path, success, error, now), now);
      op.message.messageId == Str("") && op.message.messageType == Str("connection_event") &&
      op.message.timestamp == Time(now) && op.message.status == Str("received")
  {
    RecordLacksIdAndStatus(path, success, error, now);
    RecordTypeAndTime(path, success, error, now);
  }

  lemma RecordLacksIdAndStatus(path: string, success: bool, error: Option<string>, now: int)
    ensures var rec := ConnectionEventRecord(path, success, error, now);
      !Has(rec, "message_id") && !Has(rec, "status")
  {
    var rec := ConnectionEventRecord(path, success, error, now);
    var ks := OrderedMap.Keys(rec);
    assert forall i :: 0 <= i < |rec| ==> rec[i].0 != "message_id" && rec[i].0 != "status";
    assert forall i :: 0 <= i < |ks| ==> ks[i] == rec[i].0;
  }

  lemma RecordTypeAndTime(path: string, success: bool, error: Option<string>, now: int)
    ensures var rec := ConnectionEventRecord(path, success, error, now);
      OrderedMap.Lookup(rec, "message_type") == Some(Str("connection_event")) &&
      OrderedMap.Lookup(rec, "timestamp") == Some(Time(now))
  {
    var rec := ConnectionEventRecord(path, success, error, now);
    OrderedMap.LookupFree(rec, 0);
    var last := |rec| - 1;
    assert rec[last].0 == "timestamp";
    assert forall i :: 0 <= i < last ==> rec[i].0 != "timestamp";
    OrderedMap.LookupFirst(rec, last);
  }

  /**
   * `disconnect`. Whether closing the interface raised or not, the adapter
   * ends disconnected with no nodes; the result is `None` (and nothing
   * changes) when there was no interface.
   */
  function Disconnect(s: Interface, closeRaises: bool): (r: (Interface, Option<bool>))
    ensures s.device.None? ==> r.0 == s && r.1.None?
    ensures s.device.Some? ==>
      r.0.device.None? && r.0.status == "Disconnected" && !r.0.validated && r.0.nodes == [] &&
      r.0.tracking == s.tracking && r.0.db == s.db
    ensures s.device.Some? ==> r.1 == Some(!(closeRaises && s.device.value.hasClose && s.device.value.hasStream))
  {
    if s.device.None? then (s, None)
    else
      var closes := s.device.value.hasClose && s.device.value.hasStream;
      var cleared := s.(device := None, status := "Disconnected", validated := false, nodes := []);
      (cleared, Some(!(closes && closeRaises)))
  }

  // ---------------------------------------------------------------------
  // Device commands
  // ---------------------------------------------------------------------

  /**
   * `send_message`. Refused unless connected and the interface can send
   * text; otherwise, unless the library's `sendText` raises, the message is
   * tracked as 'sent' under `messageId` and logged.
   */
  function SendMessage(s: Interface, message: string, destination: string, wantAck: bool,
                       messageId: string, sendRaises: bool, now: int): (r: Result<Interface, string>)
    ensures !IsConnected(s) ==> r == Err("Not connected to device")
    ensures IsConnected(s) && !s.device.value.hasSendText ==> r == Err("Interface not properly initialized")
    ensures r.Ok? <==> IsConnected(s) && s.device.value.hasSendText && !sendRaises
    ensures r.Ok? ==>
      OrderedMap.Lookup(r.value.tracking, Str(messageId)) == Some(Tracked("sent", now, wantAck, destination)) &&
      r.value.device == s.device && r.value.validated == s.validated && r.value.nodes == s.nodes
  {
    if !IsConnected(s) then Err("Not connected to device")
    else if !s.device.value.hasSendText then Err("Interface not properly initialized")
    else if sendRaises then Err("sendText failed")
    else
      var s1 := s.(tracking := OrderedMap.Put(s.tracking, Str(messageId), Tracked("sent", now, wantAck, destination)));
      Ok(LogMessage(s1, SentRecord(message, destination, messageId, now), now))
  }

  /** The record `send_message` queues. */
  function SentRecord(message: string, destination: string, messageId: string, now: int): Entries {
    [("message_id", Str(messageId)), ("from_node", Str("LOCAL")), ("to_node", Str(destination)),
     ("message_text", Str(message)), ("timestamp", Time(now)), ("status", Str("sent")),
     ("hop_count", Int(0)), ("message_type", Str("text")), ("channel", Str("primary"))]
  }

  /**
   * `update_region`: the enum value written to the radio's LoRa
   * configuration, or the error raised. The region name is checked before
   * the device is touched; `writeRaises` is whether the library's
   * `writeConfig("lora")` raises.
   */
  function UpdateRegion(s: Interface, regionName: string, writeRaises: bool): (r: Result<int, string>)
    ensures !IsConnected(s) ==> r == Err("Not connected to device")
    ensures IsConnected(s) && !s.device.value.hasLocalNode ==> r == Err("Interface not properly initialized")
    ensures r.Ok? <==>
      IsConnected(s) && s.device.value.hasLocalNode && regionName in Constants.Regions() &&
      s.device.value.localConfigAvailable && s.device.value.loraConfigAvailable && !writeRaises
    ensures r.Ok? ==> Constants.RegionEnum(regionName) == Some(r.value)
    ensures IsConnected(s) && s.device.value.hasLocalNode && regionName !in Constants.Regions() ==>
      r == Err("Unsupported region: " + regionName)
    ensures IsConnected(s) && s.device.value.hasLocalNode && regionName in Constants.Regions() ==>
      (!s.device.value.localConfigAvailable ==> r == Err("Local node configuration not available")) &&
      (s.device.value.localConfigAvailable && !s.device.value.loraConfigAvailable ==>
         r == Err("Unable to access LoRa configuration"))
  {
    if !IsConnected(s) then Err("Not connected to device")
    else if !s.device.value.hasLocalNode then Err("Interface not properly initialized")
    else match Constants.RegionEnum(regionName)
      case None => Err("Unsupported region: " + regionName)
      case Some(e) =>
        if !s.device.value.localConfigAvailable then Err("Local node configuration not available")
        else if !s.device.value.loraConfigAvailable then Err("Unable to access LoRa configuration")
        else if writeRaises then Err("writeConfig failed")
        else Ok(e)
  }

  /** What `update_region` writes can be read back as the same region name. */
  lemma UpdateRegionRoundTrip(s: Interface, regionName: string, writeRaises: bool)
    ensures UpdateRegion(s, regionName, writeRaises).Ok? ==>
      Constants.RegionName(UpdateRegion(s, regionName, writeRaises).value) == Some(regionName)
  {
    Constants.NameEnumRoundTrip(regionName);
  }

  // ---------------------------------------------------------------------
  // Received packets and node updates
  // ---------------------------------------------------------------------

  /**
   * `len(payload)`: a string's characters (a byte string is a `Str`), a
   * list's items or a dictionary's entries; every other value raises.
   */
  function PayloadLen(v: Value): (r: Option<nat>)
    ensures r.Some? <==> v.Str? || v.List? || v.Dict?
    ensures v.Str? ==> r == Some(|v.s|)
    ensures v.List? ==> r == Some(|v.items|)
    ensures v.Dict? ==> r == Some(|v.entries|)
  {
    match v
    case Str(s) => Some(|s|)
    case List(items) => Some(|items|)
    case Dict(entries) => Some(|entries|)
    case _ => None
  }

  function BinaryNote(n: nat): string {
    "[Binary data: " + NatToString(n) + " bytes]"
  }

  /**
   * The text `process_received_message` logs: `decoded['text']`, else a
   * note with the payload's size, else empty. The two `in` tests are
   * Python's, so a `decoded` string or list that holds neither key gives
   * the empty text; `None` when reading the packet raises: an `in` test on
   * a value that supports none, a subscript of a `decoded` that is not a
   * dictionary, or the length of a payload that has none.
   */
  function MessageText(packet: Entries): (r: Option<Value>)
    ensures !Has(packet, "decoded") ==> r == Some(Str(""))
    ensures Has(packet, "decoded") ==>
      var d := Get(packet, "decoded", Null);
      (In("text", d).None? ==> r.None?) &&
      (In("text", d) == Some(true) ==> r == (if d.Dict? then Some(Get(d.entries, "text", Null)) else None)) &&
      (In("text", d) == Some(false) && In("payload", d) == Some(false) ==> r == Some(Str(""))) &&
      (In("text", d) == Some(false) && In("payload", d) == Some(true) ==>
        (r.Some? <==> d.Dict? && PayloadLen(Get(d.entries, "payload", Null)).Some?) &&
        (r.Some? ==> r == Some(Str(BinaryNote(PayloadLen(Get(d.entries, "payload", Null)).value)))))
  {
    if !Has(packet, "decoded") then Some(Str(""))
    else
      var decoded := Get(packet, "decoded", Null);
      match In("text", decoded)
      case None => None
      case Some(true) => if decoded.Dict? then Some(Get(decoded.entries, "text", Null)) else None
      case Some(false) =>
        match In("payload", decoded)
        case None => None
        case Some(false) => Some(Str(""))
        case Some(true) =>
          if !decoded.Dict? then None
          else match PayloadLen(Get(decoded.entries, "payload", Null))
            case Some(n) => Some(Str(BinaryNote(n)))
            case None => None
  }

  /** A `decoded` string that mentions neither key is logged as an empty, 'binary' message. */
  lemma TextlessDecodedStringIsBinary(messageId: string, now: int)
    ensures MessageText([("decoded", Str("hello"))]) == Some(Str(""))
    ensures ReceivedRecord([("decoded", Str("hello"))], messageId, now).Some?
    ensures MessageType(Str("")) == Some("binary")
  {
    assert !Contains("hello", "text") by {
      assert "hello"[..4][0] == 'h' && "ello"[..4][0] == 'e' && "llo"[..3][0] == 'l';
      assert "hello"[1..] == "ello" && "ello"[1..] == "llo" && "llo"[1..] == "lo";
    }
    assert !Contains("hello", "payload") by {
      assert "hello"[1..] == "ello" && "ello"[1..] == "llo" && "llo"[1..] == "lo" && "lo"[1..] == "o" && "o"[1..] == "";
    }
  }

  /**
   * `'text' if message_text and not message_text.startswith('[Binary') else 'binary'`;
   * `None` when `startswith` is called on something that is not a string.
   */
  function MessageType(text: Value): (r: Option<string>)
    ensures r == Some("text") <==> text.Str? && |text.s| > 0 && !StartsWith(text.s, "[Binary")
    ensures r.None? <==> Truthy(text) && !text.Str?
  {
    if !Truthy(text) then Some("binary")
    else if text.Str? then Some(if StartsWith(text.s, "[Binary") then "binary" else "text")
    else None
  }

  /** The dictionary `process_received_message` builds. */
  function ReceivedFields(messageId: string, from: Value, to: Value, text: Value, now: int,
                          hops: Value, rssi: Value, snr: Value, kind: string): Entries {
    [("message_id", Str(messageId)), ("from_node", from), ("to_node", to), ("message_text", text),
     ("timestamp", Time(now)), ("status", Str("received")), ("hop_count", hops),
     ("rssi", rssi), ("snr", snr), ("message_type", Str(kind))]
  }

  /** The record `process_received_message` queues, or `None` when building it raises. */
  function ReceivedRecord(packet: Entries, messageId: string, now: int): (r: Option<Entries>)
    ensures r.Some? <==> MessageText(packet).Some? && MessageType(MessageText(packet).value).Some?
    ensures r.Some? ==> r.value == ReceivedFields(messageId, Get(packet, "fromId", Str("Unknown")),
      Get(packet, "toId", Str("Unknown")), MessageText(packet).value, now, Get(packet, "hopLimit", Int(0)),
      Get(packet, "rssi", Null), Get(packet, "snr", Null), MessageType(MessageText(packet).value).value)
  {
    match MessageText(packet)
    case None => None
    case Some(text) =>
      match MessageType(text)
      case None => None
      case Some(kind) =>
        Some(ReceivedFields(messageId, Get(packet, "fromId", Str("Unknown")), Get(packet, "toId", Str("Unknown")),
                            text, now, Get(packet, "hopLimit", Int(0)), Get(packet, "rssi", Null),
                            Get(packet, "snr", Null), kind))
  }

  /** A packet that carries only a binary payload is logged as `'binary'`. */
  lemma BinaryPayloadIsBinary(packet: Entries)
    requires Has(packet, "decoded") && Get(packet, "decoded", Null).Dict?
    requires var d := Get(packet, "decoded", Null).entries;
      !Has(d, "text") && Has(d, "payload") && PayloadLen(Get(d, "payload", Null)).Some?
    ensures MessageText(packet).Some? && MessageType(MessageText(packet).value) == Some("binary")
  {
    var d := Get(packet, "decoded", Null).entries;
    var t := BinaryNote(PayloadLen(Get(d, "payload", Null)).value);
    assert t[..7] == "[Binary";
  }

  /** `process_received_message`: only the message log changes. */
  function ProcessReceivedMessage(s: Interface, packet: Value, messageId: string, now: int): (r: Interface)
    ensures r.device == s.device && r.status == s.status && r.validated == s.validated
    ensures r.nodes == s.nodes && r.tracking == s.tracking
    ensures packet.Dict? && ReceivedRecord(packet.entries, messageId, now).Some? ==>
      r == LogMessage(s, ReceivedRecord(packet.entries, messageId, now).value, now)
    ensures !packet.Dict? || ReceivedRecord(packet.entries, messageId, now).None? ==> r == s
  {
    if !packet.Dict? then s
    else match ReceivedRecord(packet.entries, messageId, now)
      case None => s
      case Some(rec) => LogMessage(s, rec, now)
  }

  /**
   * A received message reaches the log with its id, status 'received', the
   * type chosen from its text and, since the record names none, the
   * 'primary' channel.
   */
  lemma ReceivedFieldsRow(messageId: string, from: Value, to: Value, text: Value, now: int,
                          hops: Value, rssi: Value, snr: Value, kind: string)
    ensures Database.MessageOp(ReceivedFields(messageId, from, to, text, now, hops, rssi, snr, kind), now).message ==
      Database.MessageRow(Str(messageId), from, to, text, Time(now), Str("received"), hops, rssi, snr, Str(kind), Str("primary"))
  {
    var rec := ReceivedFields(messageId, from, to, text, now, hops, rssi, snr, kind);
    ReceivedFieldsLookups(messageId, from, to, text, now, hops, rssi, snr, kind);
    var m := Database.MessageOp(rec, now).message;
    assert m.messageId == Str(messageId) && m.fromNode == from && m.toNode == to && m.text == text;
    assert m.timestamp == Time(now) && m.status == Str("received") && m.hopCount == hops;
    assert m.rssi == rssi && m.snr == snr && m.messageType == Str(kind) && m.channel == Str("primary");
  }

  /** Every field of the record is found under its key, and there is no 'channel' key. */
  lemma ReceivedFieldsLookups(messageId: string, from: Value, to: Value, text: Value, now: int,
                              hops: Value, rssi: Value, snr: Value, kind: string)
    ensures var rec := ReceivedFields(messageId, from, to, text, now, hops, rssi, snr, kind);
      OrderedMap.Lookup(rec, "message_id") == Some(Str(messageId)) &&
      OrderedMap.Lookup(rec, "from_node") == Some(from) &&
      OrderedMap.Lookup(rec, "to_node") == Some(to) &&
      OrderedMap.Lookup(rec, "message_text") == Some(text) &&
      OrderedMap.Lookup(rec, "timestamp") == Some(Time(now)) &&
      OrderedMap.Lookup(rec, "status") == Some(Str("received")) &&
      OrderedMap.Lookup(rec, "hop_count") == Some(hops) &&
      OrderedMap.Lookup(rec, "rssi") == Some(rssi) &&
      OrderedMap.Lookup(rec, "snr") == Some(snr) &&
      OrderedMap.Lookup(rec, "message_type") == Some(Str(kind)) &&
      !Has(rec, "channel")
  {
    ReceivedLookupsA(messageId, from, to, text, now, hops, rssi, snr, kind);
    ReceivedLookupsB(messageId, from, to, text, now, hops, rssi, snr, kind);
    ReceivedLookupsC(messageId, from, to, text, now, hops, rssi, snr, kind);
    ReceivedLookupsD(messageId, from, to, text, now, hops, rssi, snr, kind);
    ReceivedNoChannel(messageId, from, to, text, now, hops, rssi, snr, kind);
  }

  lemma ReceivedLookupsA(messageId: string, from: Value, to: Value, text: Value, now: int,
                                hops: Value, rssi: Value, snr: Value, kind: string)
    ensures var rec := ReceivedFields(messageId, from, to, text, now, hops, rssi, snr, kind);
      OrderedMap.Lookup(rec, "message_id") == Some(Str(messageId)) &&
      OrderedMap.Lookup(rec, "from_node") == Some(from) &&
      OrderedMap.Lookup(rec, "to_node") == Some(to) &&
      OrderedMap.Lookup(rec, "message_text") == Some(text)
  {
    var rec := ReceivedFields(messageId, from, to, text, now, hops, rssi, snr, kind);
    OrderedMap.LookupFree(rec, 0);
    assert OrderedMap.FreeBefore(rec, "from_node", 1);
    OrderedMap.LookupFree(rec, 1);
    assert OrderedMap.FreeBefore(rec, "to_node", 1);
    assert OrderedMap.FreeBefore(rec, "to_node", 2);
    OrderedMap.LookupFree(rec, 2);
    assert OrderedMap.FreeBefore(rec, "message_text", 1);
    assert OrderedMap.FreeBefore(rec, "message_text", 2);
    assert OrderedMap.FreeBefore(rec, "message_text", 3);
    OrderedMap.LookupFree(rec, 3);
  }

  lemma ReceivedLookupsB(messageId: string, from: Value, to: Value, text: Value, now: int,
                                hops: Value, rssi: Value, snr: Value, kind: string)
    ensures var rec := ReceivedFields(messageId, from, to, text, now, hops, rssi, snr, kind);
      OrderedMap.Lookup(rec, "timestamp") == Some(Time(now)) &&
      OrderedMap.Lookup(rec, "status") == Some(Str("received"))
  {
    var rec := ReceivedFields(messageId, from, to, text, now, hops, rssi, snr, kind);
    assert OrderedMap.FreeBefore(rec, "timestamp", 1);
    assert OrderedMap.FreeBefore(rec, "timestamp", 2);
    assert OrderedMap.FreeBefore(rec, "timestamp", 3);
    assert OrderedMap.FreeBefore(rec, "timestamp", 4);
    OrderedMap.LookupFree(rec, 4);
    assert OrderedMap.FreeBefore(rec, "status", 1);
    assert OrderedMap.FreeBefore(rec, "status", 2);
    assert OrderedMap.FreeBefore(rec, "status", 3);
    assert OrderedMap.FreeBefore(rec, "status", 4);
    assert OrderedMap.FreeBefore(rec, "status", 5);
    OrderedMap.LookupFree(rec, 5);
  }

  lemma ReceivedLookupsC(messageId: string, from: Value, to: Value, text: Value, now: int,
                                hops: Value, rssi: Value, snr: Value, kind: string)
    ensures var rec := ReceivedFields(messageId, from, to, text, now, hops, rssi, snr, kind);
      OrderedMap.Lookup(rec, "hop_count") == Some(hops) &&
      OrderedMap.Lookup(rec, "rssi") == Some(rssi)
  {
    var rec := ReceivedFields(messageId, from, to, text, now, hops, rssi, snr, kind);
    assert OrderedMap.FreeBefore(rec, "hop_count", 1);
    assert OrderedMap.FreeBefore(rec, "hop_count", 2);
    assert OrderedMap.FreeBefore(rec, "hop_count", 3);
    assert OrderedMap.FreeBefore(rec, "hop_count", 4);
    assert OrderedMap.FreeBefore(rec, "hop_count", 5);
    assert OrderedMap.FreeBefore(rec, "hop_count", 6);
    OrderedMap.LookupFree(rec, 6);
    assert OrderedMap.FreeBefore(rec, "rssi", 1);
    assert OrderedMap.FreeBefore(rec, "rssi", 2);
    assert OrderedMap.FreeBefore(rec, "rssi", 3);
    assert OrderedMap.FreeBefore(rec, "rssi", 4);
    assert OrderedMap.FreeBefore(rec, "rssi", 5);
    assert OrderedMap.FreeBefore(rec, "rssi", 6);
    assert OrderedMap.FreeBefore(rec, "rssi", 7);
    OrderedMap.LookupFree(rec, 7);
  }

  lemma ReceivedLookupsD(messageId: string, from: Value, to: Value, text: Value, now: int,
                                hops: Value, rssi: Value, snr: Value, kind: string)
    ensures var rec := ReceivedFields(messageId, from, to, text, now, hops, rssi, snr, kind);
      OrderedMap.Lookup(rec, "snr") == Some(snr) &&
      OrderedMap.Lookup(rec, "message_type") == Some(Str(kind))
  {
    var rec := ReceivedFields(messageId, from, to, text, now, hops, rssi, snr, kind);
    assert OrderedMap.FreeBefore(rec, "snr", 1);
    assert OrderedMap.FreeBefore(rec, "snr", 2);
    assert OrderedMap.FreeBefore(rec, "snr", 3);
    assert OrderedMap.FreeBefore(rec, "snr", 4);
    assert OrderedMap.FreeBefore(rec, "snr", 5);
    assert OrderedMap.FreeBefore(rec, "snr", 6);
    assert OrderedMap.FreeBefore(rec, "snr", 7);
    assert OrderedMap.FreeBefore(rec, "snr", 8);
    OrderedMap.LookupFree(rec, 8);
    assert OrderedMap.FreeBefore(rec, "message_type", 1);
    assert OrderedMap.FreeBefore(rec, "message_type", 2);
    assert OrderedMap.FreeBefore(rec, "message_type", 3);
    assert OrderedMap.FreeBefore(rec, "message_type", 4);
    assert OrderedMap.FreeBefore(rec, "message_type", 5);
    assert OrderedMap.FreeBefore(rec, "message_type", 6);
    assert OrderedMap.FreeBefore(rec, "message_type", 7);
    assert OrderedMap.FreeBefore(rec, "message_type", 8);
    assert OrderedMap.FreeBefore(rec, "message_type", 9);
    OrderedMap.LookupFree(rec, 9);
  }

  lemma ReceivedNoChannel(messageId: string, from: Value, to: Value, text: Value, now: int,
                                hops: Value, rssi: Value, snr: Value, kind: string)
    ensures !Has(ReceivedFields(messageId, from, to, text, now, hops, rssi, snr, kind), "channel")
  {
    var rec := ReceivedFields(messageId, from, to, text, now, hops, rssi, snr, kind);
    assert OrderedMap.FreeBefore(rec, "channel", 1);
    assert OrderedMap.FreeBefore(rec, "channel", 2);
    assert OrderedMap.FreeBefore(rec, "channel", 3);
    assert OrderedMap.FreeBefore(rec, "channel", 4);
    assert OrderedMap.FreeBefore(rec, "channel", 5);
    assert OrderedMap.FreeBefore(rec, "channel", 6);
    assert OrderedMap.FreeBefore(rec, "channel", 7);
    assert OrderedMap.FreeBefore(rec, "channel", 8);
    assert OrderedMap.FreeBefore(rec, "channel", 9);
    assert OrderedMap.FreeBefore(rec, "channel", 10);
    OrderedMap.FreeBeforeAll(rec, "channel", 10);
  }

  lemma ReceivedRecordRow(packet: Entries, messageId: string, now: int)
    ensures ReceivedRecord(packet, messageId, now).Some? ==>
      var row := Database.MessageOp(ReceivedRecord(packet, messageId, now).value, now).message;
      row.messageId == Str(messageId) && row.status == Str("received") && row.channel == Str("primary") &&
      row.timestamp == Time(now) &&
      row.messageType == Str(MessageType(MessageText(packet).value).value)
  {
    if ReceivedRecord(packet, messageId, now).Some? {
      ReceivedFieldsRow(messageId, Get(packet, "fromId", Str("Unknown")), Get(packet, "toId", Str("Unknown")),
        MessageText(packet).value, now, Get(packet, "hopLimit", Int(0)), Get(packet, "rssi", Null),
        Get(packet, "snr", Null), MessageType(MessageText(packet).value).value);
    }
  }

  /** The part of a node's record that is always present. */
  function NodeBase(idText: string, user: Entries, node: Entries): Entries {
    [("node_id", Str(idText)),
     ("node_name", Get(user, "longName", Str(""))),
     ("short_name", Get(user, "shortName", Str(""))),
     ("hardware_model", Get(user, "hwModel", Str(""))),
     ("firmware_version", Get(node, "firmwareVersion", Str(""))),
     ("is_local", Bool(false))]
  }

  /**
   * `'latitude' in position and 'longitude' in position`, with Python's
   * `in`: `None` when a test raises.
   */
  function Coordinates(position: Value): (r: Option<bool>)
    ensures position.Dict? ==> r == Some(Has(position.entries, "latitude") && Has(position.entries, "longitude"))
    ensures r.None? <==> !(position.Dict? || position.Str? || position.List?)
  {
    match In("latitude", position)
    case None => None
    case Some(false) => Some(false)
    case Some(true) => In("longitude", position)
  }

  function PositionFields(position: Entries): Entries {
    [("latitude", Get(position, "latitude", Null)),
     ("longitude", Get(position, "longitude", Null)),
     ("altitude", Get(position, "altitude", Null))]
  }

  function MetricFields(metrics: Value): Entries {
    if Truthy(metrics) && metrics.Dict? then
      var m := metrics.entries;
      [("battery_level", Get(m, "batteryLevel", Null)),
       ("voltage", Get(m, "voltage", Null)),
       ("current", Get(m, "current", Null)),
       ("utilization", Get(m, "channelUtilization", Null)),
       ("airtime", Get(m, "airUtilTx", Null))]
    else []
  }

  /**
   * The record `process_node_update` queues for a node dictionary, or
   * `None` when building it raises: a `user` that is not a dictionary, a
   * `position` the coordinate test rejects or that passes it without being
   * a dictionary, non-empty `deviceMetrics` that are not one, or a node
   * number whose `str()` the model does not spell out.
   */
  function NodeRecord(node: Entries): (r: Option<Entries>)
    ensures var position := Get(node, "position", Dict([]));
      var metrics := Get(node, "deviceMetrics", Dict([]));
      r.None? <==>
        !SimpleStr(Get(node, "num", Str("Unknown"))) || !Get(node, "user", Dict([])).Dict? ||
        Coordinates(position).None? || (Coordinates(position) == Some(true) && !position.Dict?) ||
        (Truthy(metrics) && !metrics.Dict?)
  {
    var num := Get(node, "num", Str("Unknown"));
    var user := Get(node, "user", Dict([]));
    var position := Get(node, "position", Dict([]));
    var metrics := Get(node, "deviceMetrics", Dict([]));
    if !SimpleStr(num) || !user.Dict? || (Truthy(metrics) && !metrics.Dict?) then None
    else match Coordinates(position)
      case None => None
      case Some(false) => Some(NodeBase(PyStr(num), user.entries, node) + MetricFields(metrics))
      case Some(true) =>
        if !position.Dict? then None
        else Some(NodeBase(PyStr(num), user.entries, node) + PositionFields(position.entries) + MetricFields(metrics))
  }

  /**
   * The node record leads to a position row exactly when the coordinate
   * test passes (so never for a string or list `position`, which cannot be
   * subscripted), and to a metrics row exactly when its `deviceMetrics`
   * are non-empty.
   */
  lemma NodeRecordRows(node: Entries)
    ensures NodeRecord(node).Some? ==>
      var rec := NodeRecord(node).value;
      var position := Get(node, "position", Dict([]));
      (Database.HasPosition(rec) <==> Coordinates(position) == Some(true)) &&
      (Database.HasPosition(rec) ==> position.Dict?) &&
      (Database.HasMetrics(rec) <==> Truthy(Get(node, "deviceMetrics", Dict([]))))
  {
    if NodeRecord(node).None? {
      return;
    }
    var user := Get(node, "user", Dict([]));
    var position := Get(node, "position", Dict([]));
    NodeRecordShape(node);
    RowsOfParts(NodeRecord(node).value, PyStr(Get(node, "num", Str("Unknown"))), user.entries, node,
      Coordinates(position) == Some(true), position, Get(node, "deviceMetrics", Dict([])));
  }

  lemma RowsOfParts(rec: Entries, idText: string, user: Entries, node: Entries, passes: bool, position: Value, metrics: Value)
    requires passes ==> position.Dict?
    requires rec == NodeBase(idText, user, node) + (if passes then PositionFields(position.entries) else []) + MetricFields(metrics)
    ensures Database.HasPosition(rec) <==> passes
    ensures Database.HasMetrics(rec) <==> Truthy(metrics) && metrics.Dict?
  {
    var pf := if passes then PositionFields(position.entries) else [];
    BaseKeys(idText, user, node);
    MetricKeys(metrics);
    assert OrderedMap.Keys(pf) == [] || OrderedMap.Keys(pf) == ["latitude", "longitude", "altitude"];
    RowsFromParts(rec, NodeBase(idText, user, node), pf, MetricFields(metrics));
  }

  lemma RowsFromParts(rec: Entries, base: Entries, pf: Entries, mf: Entries)
    requires rec == base + pf + mf
    requires OrderedMap.Keys(base) == ["node_id", "node_name", "short_name", "hardware_model", "firmware_version", "is_local"]
    requires OrderedMap.Keys(pf) == [] || OrderedMap.Keys(pf) == ["latitude", "longitude", "altitude"]
    requires OrderedMap.Keys(mf) == [] || OrderedMap.Keys(mf) == ["battery_level", "voltage", "current", "utilization", "airtime"]
    ensures Database.HasPosition(rec) <==> |pf| > 0
    ensures Database.HasMetrics(rec) <==> |mf| > 0
  {
    RecordKeys(base, pf, mf);
  }

  lemma NodeRecordShape(node: Entries)
    requires NodeRecord(node).Some?
    ensures var position := Get(node, "position", Dict([]));
      var user := Get(node, "user", Dict([]));
      var passes := Coordinates(position) == Some(true);
      var metrics := Get(node, "deviceMetrics", Dict([]));
      user.Dict? && SimpleStr(Get(node, "num", Str("Unknown"))) && (passes ==> position.Dict?) &&
      (Truthy(metrics) ==> metrics.Dict?) &&
      NodeRecord(node).value ==
        NodeBase(PyStr(Get(node, "num", Str("Unknown"))), user.entries, node) +
        (if passes then PositionFields(position.entries) else []) +
        MetricFields(Get(node, "deviceMetrics", Dict([])))
  {
    var position := Get(node, "position", Dict([]));
    if Coordinates(position) != Some(true) {
      var base := NodeBase(PyStr(Get(node, "num", Str("Unknown"))), Get(node, "user", Dict([])).entries, node);
      assert base + [] == base;
    }
  }

  /** A node whose `position` is a string without the coordinate names is queued without a position. */
  lemma TextPositionQueuedWithoutFix(s: Interface, now: int)
    requires s.db.Some?
    ensures var node := Dict([("num", Int(1)), ("position", Str("x"))]);
      NodeRecord(node.entries).Some? && !Database.HasPosition(NodeRecord(node.entries).value) &&
      ProcessNodeUpdate(s, node, now).db == Some(Database.QueueNodeUpdate(s.db.value, NodeRecord(node.entries).value, now))
  {
    var node := Dict([("num", Int(1)), ("position", Str("x"))]);
    TextPositionRecord(node.entries);
    NodeRecordRows(node.entries);
    assert Truthy(node);
  }

  lemma TextPositionRecord(node: Entries)
    requires node == [("num", Int(1)), ("position", Str("x"))]
    ensures Coordinates(Get(node, "position", Dict([]))) == Some(false)
    ensures NodeRecord(node).Some?
  {
    assert !Contains("x", "latitude") by {
      assert "x"[1..] == "";
    }
    assert Get(node, "position", Dict([])) == Str("x");
    assert Get(node, "num", Str("Unknown")) == Int(1);
    assert !Has(node, "user") && !Has(node, "deviceMetrics");
  }

  /** Which optional groups a node record holds decides which rows it produces. */
  lemma RecordKeys(base: Entries, pf: Entries, mf: Entries)
    requires OrderedMap.Keys(base) == ["node_id", "node_name", "short_name", "hardware_model", "firmware_version", "is_local"]
    requires OrderedMap.Keys(pf) == [] || OrderedMap.Keys(pf) == ["latitude", "longitude", "altitude"]
    requires OrderedMap.Keys(mf) == [] || OrderedMap.Keys(mf) == ["battery_level", "voltage", "current", "utilization", "airtime"]
    ensures Database.HasPosition(base + pf + mf) <==> |pf| > 0
    ensures Database.HasMetrics(base + pf + mf) <==> |mf| > 0
  {
    KeysAppend(base, pf);
    KeysAppend(base + pf, mf);
    PositionGroup(OrderedMap.Keys(base), OrderedMap.Keys(pf), OrderedMap.Keys(mf));
    MetricsGroup(OrderedMap.Keys(base), OrderedMap.Keys(pf), OrderedMap.Keys(mf));
  }

  lemma PositionGroup(base: seq<string>, pf: seq<string>, mf: seq<string>)
    requires base == ["node_id", "node_name", "short_name", "hardware_model", "firmware_version", "is_local"]
    requires pf == [] || pf == ["latitude", "longitude", "altitude"]
    requires mf == [] || mf == ["battery_level", "voltage", "current", "utilization", "airtime"]
    ensures ("latitude" in base + pf + mf && "longitude" in base + pf + mf) <==> |pf| > 0
  {
    assert "latitude" !in base && "latitude" !in mf;
  }

  lemma MetricsGroup(base: seq<string>, pf: seq<string>, mf: seq<string>)
    requires base == ["node_id", "node_name", "short_name", "hardware_model", "firmware_version", "is_local"]
    requires pf == [] || pf == ["latitude", "longitude", "altitude"]
    requires mf == [] || mf == ["battery_level", "voltage", "current", "utilization", "airtime"]
    ensures ("battery_level" in base + pf + mf || "rssi" in base + pf + mf) <==> |mf| > 0
  {
    assert "battery_level" !in base && "battery_level" !in pf;
    assert "rssi" !in base && "rssi" !in pf && "rssi" !in mf;
  }

  lemma BaseKeys(idText: string, user: Entries, node: Entries)
    ensures OrderedMap.Keys(NodeBase(idText, user, node)) ==
      ["node_id", "node_name", "short_name", "hardware_model", "firmware_version", "is_local"]
  {
  }

  lemma MetricKeys(metrics: Value)
    ensures OrderedMap.Keys(MetricFields(metrics)) ==
      if Truthy(metrics) && metrics.Dict? then ["battery_level", "voltage", "current", "utilization", "airtime"] else []
  {
  }

  lemma KeysAppend<K, V>(a: seq<(K, V)>, b: seq<(K, V)>)
    ensures OrderedMap.Keys(a + b) == OrderedMap.Keys(a) + OrderedMap.Keys(b)
  {
  }

  /**
   * `process_node_update`. A falsy update is ignored. Otherwise the node
   * replaces the entry for its number and its record is queued; when the
   * record cannot be built the node table has still been updated.
   */
  function ProcessNodeUpdate(s: Interface, node: Value, now: int): (r: Interface)
    ensures !Truthy(node) || !node.Dict? ==> r == s
    ensures node.Dict? && !Hashable(Get(node.entries, "num", Str("Unknown"))) ==> r == s
    ensures node.Dict? && Truthy(node) && Hashable(Get(node.entries, "num", Str("Unknown"))) ==>
      r.nodes == OrderedMap.Put(s.nodes, Get(node.entries, "num", Str("Unknown")), node)
    ensures node.Dict? && Truthy(node) && NodeRecord(node.entries).Some? && s.db.Some? ==>
      r.db == Some(Database.QueueNodeUpdate(s.db.value, NodeRecord(node.entries).value, now))
    ensures node.Dict? && Truthy(node) && NodeRecord(node.entries).None? ==> r.db == s.db
    ensures r.device == s.device && r.status == s.status && r.validated == s.validated && r.tracking == s.tracking
  {
    if !Truthy(node) || !node.Dict? then s
    else
      var num := Get(node.entries, "num", Str("Unknown"));
      if !Hashable(num) then
        assert NodeRecord(node.entries).None?;
        s
      else
        var s1 := s.(nodes := OrderedMap.Put(s.nodes, num, node));
        match NodeRecord(node.entries)
        case None => s1
        case Some(rec) =>
          if s1.db.Some? then s1.(db := Some(Database.QueueNodeUpdate(s1.db.value, rec, now))) else s1
  }

  // ---------------------------------------------------------------------
  // Delivery status
  // ---------------------------------------------------------------------

  /** Set the status of a tracked message; untracked ids, and ids that are not truthy, change nothing. */
  function MarkStatus(tracking: seq<(Value, Tracked)>, id: Value, status: string): (r: seq<(Value, Tracked)>)
    ensures OrderedMap.Keys(r) == OrderedMap.Keys(tracking)
    ensures !Truthy(id) || id !in OrderedMap.Keys(tracking) ==> r == tracking
    ensures Truthy(id) && id in OrderedMap.Keys(tracking) ==>
      OrderedMap.Lookup(r, id) == Some(OrderedMap.Lookup(tracking, id).value.(status := status))
    ensures forall k :: k != id ==> OrderedMap.Lookup(r, k) == OrderedMap.Lookup(tracking, k)
  {
    match OrderedMap.Lookup(tracking, id)
    case Some(t) => if Truthy(id) then OrderedMap.Put(tracking, id, t.(status := status)) else tracking
    case None => tracking
  }

  /** `packet.get('id', None)`, for a packet that is a dictionary. */
  function PacketId(packet: Value): Value {
    if packet.Dict? then Get(packet.entries, "id", Null) else Null
  }

  /** `handle_ack_received`. */
  function HandleAck(s: Interface, packet: Value): (r: Interface)
    ensures r.(tracking := s.tracking) == s
    ensures Truthy(PacketId(packet)) && PacketId(packet) in OrderedMap.Keys(s.tracking) ==>
      MessageStatus(r, PacketId(packet)) == "delivered"
    ensures !Truthy(PacketId(packet)) || PacketId(packet) !in OrderedMap.Keys(s.tracking) ==> r == s
    ensures forall k :: k != PacketId(packet) ==> MessageStatus(r, k) == MessageStatus(s, k)
  {
    s.(tracking := MarkStatus(s.tracking, PacketId(packet), "delivered"))
  }

  /** `handle_routing_error`. */
  function HandleRoutingError(s: Interface, packet: Value): (r: Interface)
    ensures r.(tracking := s.tracking) == s
    ensures Truthy(PacketId(packet)) && PacketId(packet) in OrderedMap.Keys(s.tracking) ==>
      MessageStatus(r, PacketId(packet)) == "failed"
    ensures !Truthy(PacketId(packet)) || PacketId(packet) !in OrderedMap.Keys(s.tracking) ==> r == s
    ensures forall k :: k != PacketId(packet) ==> MessageStatus(r, k) == MessageStatus(s, k)
  {
    s.(tracking := MarkStatus(s.tracking, PacketId(packet), "failed"))
  }

  /** `get_message_status(...)['status']`. */
  function MessageStatus(s: Interface, id: Value): (r: string)
    ensures id !in OrderedMap.Keys(s.tracking) ==> r == "unknown"
    ensures id in OrderedMap.Keys(s.tracking) ==> Some(r) == (match OrderedMap.Lookup(s.tracking, id) case Some(t) => Some(t.status) case None => None)
  {
    match OrderedMap.Lookup(s.tracking, id)
    case Some(t) => t.status
    case None => "unknown"
  }

  /**
   * A sent message reads as 'sent'; an acknowledgement carrying its id
   * turns it into 'delivered', a routing error into 'failed'.
   */
  lemma SendThenAcknowledge(s: Interface, message: string, destination: string, wantAck: bool,
                            messageId: string, now: int)
    requires SendMessage(s, message, destination, wantAck, messageId, false, now).Ok?
    ensures var s1 := SendMessage(s, message, destination, wantAck, messageId, false, now).value;
      var packet := Dict([("id", Str(messageId))]);
      MessageStatus(s1, Str(messageId)) == "sent" &&
      (|messageId| > 0 ==> MessageStatus(HandleAck(s1, packet), Str(messageId)) == "delivered") &&
      (|messageId| > 0 ==> MessageStatus(HandleRoutingError(s1, packet), Str(messageId)) == "failed")
  {
    var s1 := SendMessage(s, message, destination, wantAck, messageId, false, now).value;
    var packet := Dict([("id", Str(messageId))]);
    assert Str(messageId) in OrderedMap.Keys(s1.tracking);
    if |messageId| > 0 {
      MarkedStatus(s1, messageId, "delivered");
      MarkedStatus(s1, messageId, "failed");
    }
  }

  /** Marking a tracked message by a packet carrying its id gives it the new status. */
  lemma MarkedStatus(s: Interface, messageId: string, status: string)
    requires |messageId| > 0 && Str(messageId) in OrderedMap.Keys(s.tracking)
    ensures var packet := Dict([("id", Str(messageId))]);
      MessageStatus(s.(tracking := MarkStatus(s.tracking, PacketId(packet), status)), Str(messageId)) == status
  {
    var packet := Dict([("id", Str(messageId))]);
    assert PacketId(packet) == Str(messageId);
  }

  /** Tracked ids are the strings `send_message` generates. */
  predicate TrackedIdsAreStrings(s: Interface) {
    forall k :: k in OrderedMap.Keys(s.tracking) ==> k.Str?
  }

  /**
   * An acknowledgement or routing error whose id is a number matches no
   * tracked message, since the adapter tracks messages under string ids.
   */
  lemma NumericIdsMatchNothing(s: Interface, packet: Value)
    requires TrackedIdsAreStrings(s) && PacketId(packet).Int?
    ensures HandleAck(s, packet) == s && HandleRoutingError(s, packet) == s
  {
  }

  // ---------------------------------------------------------------------
  // The message thread
  // ---------------------------------------------------------------------

  /** What the library's callbacks put on the adapter's queue. */
  datatype Event =
    | MessageReceived(packet: Value)
    | NodeUpdated(node: Value)
    | ConnectionEstablished
    | ConnectionLost
    | RoutingError(errorPacket: Value)
    | AckReceived(ackPacket: Value)
    | OtherEvent(kind: string)

  /** `handle_message`; `messageId` and `now` are what a received message would be logged with. */
  function HandleMessage(s: Interface, e: Event, messageId: string, now: int): (r: Interface)
    ensures e.ConnectionEstablished? ==> r == s.(status := "Connected")
    ensures e.ConnectionLost? ==> r == s.(status := "Disconnected", validated := false) && !IsConnected(r)
    ensures e.OtherEvent? ==> r == s
    ensures e.MessageReceived? ==> r == ProcessReceivedMessage(s, e.packet, messageId, now)
    ensures e.NodeUpdated? ==> r == ProcessNodeUpdate(s, e.node, now)
    ensures e.RoutingError? ==> r == HandleRoutingError(s, e.errorPacket)
    ensures e.AckReceived? ==> r == HandleAck(s, e.ackPacket)
  {
    match e
    case MessageReceived(packet) => ProcessReceivedMessage(s, packet, messageId, now)
    case NodeUpdated(node) => ProcessNodeUpdate(s, node, now)
    case ConnectionEstablished => s.(status := "Connected")
    case ConnectionLost => s.(status := "Disconnected", validated := false)
    case RoutingError(packet) => HandleRoutingError(s, packet)
    case AckReceived(packet) => HandleAck(s, packet)
    case OtherEvent(_) => s
  }

  /**
   * A lost connection stays lost: `connection_established` restores the
   * status text but not validation, so `is_connected` stays false until a
   * new `connect` succeeds.
   */
  lemma LostThenEstablishedStaysDisconnected(s: Interface, id: string, now: int)
    ensures var r := HandleMessage(HandleMessage(s, ConnectionLost, id, now), ConnectionEstablished, id, now);
      r.status == "Connected" && !IsConnected(r)
  {
  }

  /** No event of the message thread other than a lost connection changes whether the adapter is connected. */
  lemma EventsKeepConnection(s: Interface, e: Event, id: string, now: int)
    requires !e.ConnectionLost?
    ensures IsConnected(HandleMessage(s, e, id, now)) == IsConnected(s)
  {
  }
}
