/**
 * The chat panel: the delivery-status marks and sender names it shows for
 * stored messages, sending from the entry field, the destination list, the
 * search threshold, and the status updates an acknowledgement or a routing
 * error brings. The clock, the md5-derived message id and whether the
 * radio library raised are parameters.
 */
module Chat {
  import opened Wrappers
  import opened Text
  import opened Values
  import OrderedMap
  import Database
  import DeviceInterface
  import Seqs

  // ---------------------------------------------------------------------
  // Showing stored messages
  // ---------------------------------------------------------------------

  const Delivered := "delivered"
  const Sent := "sent"
  const Failed := "failed"
  const LocalNode := "LOCAL"

  /** The mark after a stored message, from its `status` column (a missing status reads 'unknown'). */
  function Indicator(status: Value): (r: string)
    ensures r == "✓✓" <==> status == Str(Delivered)
    ensures r == "✓" <==> status == Str(Sent)
    ensures r == "❌" <==> status == Str(Failed)
    ensures r == "?" <==> status != Str(Delivered) && status != Str(Sent) && status != Str(Failed)
  {
    if status == Str(Delivered) then "✓✓"
    else if status == Str(Sent) then "✓"
    else if status == Str(Failed) then "❌"
    else "?"
  }

  /**
   * A node column as shown: the name joined from the nodes table when it is
   * non-empty, else the stored id, else 'Unknown'. Empty strings stand for
   * SQL `NULL` as well.
   */
  function Shown(id: string, joinedName: string): (r: string)
    ensures r != []
    ensures joinedName != [] ==> r == joinedName
    ensures joinedName == [] && id != [] ==> r == id
  {
    if joinedName != [] then joinedName else if id != [] then id else "Unknown"
  }

  /** The sender as shown: "You" for the local node, whatever name is joined. */
  function Sender(fromNode: string, joinedName: string): (r: string)
    ensures fromNode == LocalNode ==> r == "You"
    ensures fromNode != LocalNode ==> r == Shown(fromNode, joinedName)
    ensures r != []
  {
    if fromNode == LocalNode then "You" else Shown(fromNode, joinedName)
  }

  // ---------------------------------------------------------------------
  // Sending
  // ---------------------------------------------------------------------

  /** One entry of the panel's `message_status_tracking`. */
  datatype Tracked = Tracked(status: string, timestamp: int, wantAck: bool)

  /** What the panel keeps: its tracking table and the operations it handed to the data logger. */
  datatype ChatState = ChatState(tracking: seq<(Value, Tracked)>, logged: seq<Database.Op>)

  /** The destination the radio is given for the chosen entry of the list. */
  function Destination(selection: string): (r: string)
    ensures r != "Broadcast"
    ensures selection == "Broadcast" <==> r == "^all" && selection != "^all"
    ensures selection != "Broadcast" ==> r == selection
  {
    if selection == "Broadcast" then "^all" else selection
  }

  datatype SendOutcome = SendNotConnected | SendIgnored | SendFailed | SentLine(message: string, destination: string, mark: string)

  /** The record `send_message` hands to `log_message`. */
  function SentRecord(messageId: string, destination: string, message: string, now: int): Entries {
    [("message_id", Str(messageId)), ("from_node", Str(LocalNode)), ("to_node", Str(destination)),
     ("message_text", Str(message)), ("timestamp", Time(now)), ("status", Str(Sent)),
     ("hop_count", Int(0)), ("message_type", Str("text"))]
  }

  /**
   * `send_message`: refused while disconnected, ignored for a blank entry;
   * otherwise the stripped text goes to the radio and, unless that raises,
   * is logged and tracked as 'sent'. A message sent with an acknowledgement
   * request is marked with an outbox tray, one without with a tick.
   */
  function SendMessage(c: ChatState, connected: bool, entry: string, selection: string, wantAck: bool,
                       sendRaises: bool, messageId: string, now: int): (r: (ChatState, SendOutcome))
    ensures r.1 == SendNotConnected <==> !connected
    ensures r.1 == SendIgnored <==> connected && Strip(entry) == []
    ensures r.1.SentLine? <==> connected && Strip(entry) != [] && !sendRaises
    ensures !r.1.SentLine? ==> r.0 == c
    ensures r.1.SentLine? ==>
      r.1.message == Strip(entry) && r.1.destination == Destination(selection) &&
      r.1.mark == (if wantAck then "\U{1F4E4}" else "✓") &&
      r.0.logged == c.logged + [Database.MessageOp(SentRecord(messageId, r.1.destination, r.1.message, now), now)] &&
      OrderedMap.Lookup(r.0.tracking, Str(messageId)) == Some(Tracked(Sent, now, wantAck))
  {
    var message := Strip(entry);
    if !connected then (c, SendNotConnected)
    else if message == [] then (c, SendIgnored)
    else if sendRaises then (c, SendFailed)
    else
      var dest := Destination(selection);
      var c1 := ChatState(
        OrderedMap.Put(c.tracking, Str(messageId), Tracked(Sent, now, wantAck)),
        c.logged + [Database.MessageOp(SentRecord(messageId, dest, message, now), now)]);
      (c1, SentLine(message, dest, if wantAck then "\U{1F4E4}" else "✓"))
  }

  /** The message row a sent message becomes: from the local node, with status 'sent', carrying the text. */
  lemma SentRow(messageId: string, destination: string, message: string, now: int)
    ensures var row := Database.MessageOp(SentRecord(messageId, destination, message, now), now).message;
      row.messageId == Str(messageId) && row.fromNode == Str(LocalNode) && row.toNode == Str(destination) &&
      row.text == Str(message) && row.status == Str(Sent)
  {
    SentRecordIds(messageId, destination, message, now);
    SentRecordText(messageId, destination, message, now);
    SentRecordStatus(messageId, destination, message, now);
  }

  lemma SentRecordIds(messageId: string, destination: string, message: string, now: int)
    ensures var rec := SentRecord(messageId, destination, message, now);
      OrderedMap.Lookup(rec, "message_id") == Some(Str(messageId)) &&
      OrderedMap.Lookup(rec, "from_node") == Some(Str(LocalNode))
  {
    var rec := SentRecord(messageId, destination, message, now);
    OrderedMap.LookupFree(rec, 0);
    assert OrderedMap.FreeBefore(rec, "from_node", 1);
    OrderedMap.LookupFree(rec, 1);
  }

  lemma SentRecordText(messageId: string, destination: string, message: string, now: int)
    ensures var rec := SentRecord(messageId, destination, message, now);
      OrderedMap.Lookup(rec, "to_node") == Some(Str(destination)) &&
      OrderedMap.Lookup(rec, "message_text") == Some(Str(message))
  {
    var rec := SentRecord(messageId, destination, message, now);
    assert OrderedMap.FreeBefore(rec, "to_node", 1);
    assert OrderedMap.FreeBefore(rec, "to_node", 2);
    OrderedMap.LookupFree(rec, 2);
    assert OrderedMap.FreeBefore(rec, "message_text", 1);
    assert OrderedMap.FreeBefore(rec, "message_text", 2);
    assert OrderedMap.FreeBefore(rec, "message_text", 3);
    OrderedMap.LookupFree(rec, 3);
  }

  lemma SentRecordStatus(messageId: string, destination: string, message: string, now: int)
    ensures OrderedMap.Lookup(SentRecord(messageId, destination, message, now), "status") == Some(Str(Sent))
  {
    var rec := SentRecord(messageId, destination, message, now);
    assert OrderedMap.FreeBefore(rec, "status", 1);
    assert OrderedMap.FreeBefore(rec, "status", 2);
    assert OrderedMap.FreeBefore(rec, "status", 3);
    assert OrderedMap.FreeBefore(rec, "status", 4);
    assert OrderedMap.FreeBefore(rec, "status", 5);
    OrderedMap.LookupFree(rec, 5);
  }

  // ---------------------------------------------------------------------
  // Status updates
  // ---------------------------------------------------------------------

  /**
   * The value SQLite compares for a `message_id` operand: the column has
   * TEXT affinity, so an integer (a boolean binds as 0 or 1) is compared by
   * its decimal text.
   */
  function IdText(v: Value): (r: Value)
    ensures v.Int? ==> r == Str(IntToString(v.i))
    ensures v.Bool? ==> r == Str(if v.b then "1" else "0")
    ensures !v.Int? && !v.Bool? ==> r == v
  {
    match v
    case Int(i) => Str(IntToString(i))
    case Bool(b) => Str(if b then "1" else "0")
    case _ => v
  }

  /** `message_id = ?` holds for a stored id: `NULL` on either side matches nothing. */
  predicate IdMatches(stored: Value, id: Value) {
    !stored.Null? && !id.Null? && IdText(stored) == IdText(id)
  }

  /** `UPDATE messages SET status = ? WHERE message_id = ?`. */
  function SetStatus(rows: seq<Database.MessageRow>, id: Value, status: string): (r: seq<Database.MessageRow>)
    ensures |r| == |rows|
    ensures forall i :: 0 <= i < |rows| && IdMatches(rows[i].messageId, id) ==> r[i] == rows[i].(status := Str(status))
    ensures forall i :: 0 <= i < |rows| && !IdMatches(rows[i].messageId, id) ==> r[i] == rows[i]
  {
    if |rows| == 0 then []
    else
      var last := rows[|rows| - 1];
      SetStatus(rows[..|rows| - 1], id, status) + [if IdMatches(last.messageId, id) then last.(status := Str(status)) else last]
  }

  /**
   * A stored text id matches a numeric parameter exactly when it is that
   * number's decimal text, and matches a text parameter exactly when the
   * texts are equal.
   */
  lemma IdMatchesText(stored: string, id: Value)
    ensures id.Int? ==> (IdMatches(Str(stored), id) <==> stored == IntToString(id.i))
    ensures id.Str? ==> (IdMatches(Str(stored), id) <==> stored == id.s)
  {
  }

  /** Only the last of two status updates to the same id is visible. */
  lemma SetStatusTwice(rows: seq<Database.MessageRow>, id: Value, a: string, b: string)
    ensures SetStatus(SetStatus(rows, id, a), id, b) == SetStatus(rows, id, b)
  {
    var r1 := SetStatus(SetStatus(rows, id, a), id, b);
    var r2 := SetStatus(rows, id, b);
    assert forall i :: 0 <= i < |rows| ==> r1[i] == r2[i];
  }

  /**
   * `update_message_status`: the in-memory entry changes only for a tracked
   * id; the stored rows with that id change in any case.
   */
  function UpdateMessageStatus(c: ChatState, rows: seq<Database.MessageRow>, id: Value, status: string)
    : (r: (ChatState, seq<Database.MessageRow>))
    ensures r.0.logged == c.logged && r.1 == SetStatus(rows, id, status)
    ensures OrderedMap.Keys(r.0.tracking) == OrderedMap.Keys(c.tracking)
    ensures id in OrderedMap.Keys(c.tracking) ==>
      OrderedMap.Lookup(r.0.tracking, id) == Some(OrderedMap.Lookup(c.tracking, id).value.(status := status))
    ensures forall k :: k != id ==> OrderedMap.Lookup(r.0.tracking, k) == OrderedMap.Lookup(c.tracking, k)
  {
    var tracking := match OrderedMap.Lookup(c.tracking, id)
      case Some(t) => OrderedMap.Put(c.tracking, id, t.(status := status))
      case None => c.tracking;
    (c.(tracking := tracking), SetStatus(rows, id, status))
  }

  /** `handle_ack_received` and `handle_routing_error`: a packet without a truthy id changes nothing. */
  function HandleStatusPacket(c: ChatState, rows: seq<Database.MessageRow>, packet: Value, status: string)
    : (r: (ChatState, seq<Database.MessageRow>))
    ensures !Truthy(DeviceInterface.PacketId(packet)) ==> r == (c, rows)
    ensures Truthy(DeviceInterface.PacketId(packet)) ==> r == UpdateMessageStatus(c, rows, DeviceInterface.PacketId(packet), status)
  {
    var id := DeviceInterface.PacketId(packet);
    if Truthy(id) then UpdateMessageStatus(c, rows, id, status) else (c, rows)
  }

  function HandleAck(c: ChatState, rows: seq<Database.MessageRow>, packet: Value): (r: (ChatState, seq<Database.MessageRow>))
    ensures |r.1| == |rows|
  {
    HandleStatusPacket(c, rows, packet, Delivered)
  }

  function HandleRoutingError(c: ChatState, rows: seq<Database.MessageRow>, packet: Value): (r: (ChatState, seq<Database.MessageRow>))
    ensures |r.1| == |rows|
  {
    HandleStatusPacket(c, rows, packet, Failed)
  }

  /**
   * A sent message is shown as the user's with a tick; once an
   * acknowledgement carrying its id arrives, the panel tracks it as
   * delivered and its stored row shows a double tick (a routing error: a
   * cross).
   */
  /** Row `i` is the stored row of a non-empty message just sent with a non-empty id. */
  predicate JustSent(rows: seq<Database.MessageRow>, i: nat, entry: string, selection: string, messageId: string, now: int) {
    i < |rows| && Strip(entry) != [] && messageId != [] &&
    rows[i] == Database.MessageOp(SentRecord(messageId, Destination(selection), Strip(entry), now), now).message
  }

  lemma SendThenAcknowledge(c: ChatState, entry: string, selection: string, wantAck: bool, messageId: string, now: int,
                            rows: seq<Database.MessageRow>, i: nat)
    requires i < |rows|
    ensures JustSent(rows, i, entry, selection, messageId, now) ==>
      var sent := SendMessage(c, true, entry, selection, wantAck, false, messageId, now);
      var packet := Dict([("id", Str(messageId))]);
      sent.1.SentLine? &&
      Sender(LocalNode, "") == "You" && Indicator(rows[i].status) == "✓" &&
      OrderedMap.Lookup(HandleAck(sent.0, rows, packet).0.tracking, Str(messageId)) == Some(Tracked(Delivered, now, wantAck)) &&
      Indicator(HandleAck(sent.0, rows, packet).1[i].status) == "✓✓" &&
      Indicator(HandleRoutingError(sent.0, rows, packet).1[i].status) == "❌"
  {
    if !JustSent(rows, i, entry, selection, messageId, now) {
      return;
    }
    SentRow(messageId, Destination(selection), Strip(entry), now);
    var packet := Dict([("id", Str(messageId))]);
    var c1 := SendMessage(c, true, entry, selection, wantAck, false, messageId, now).0;
    AckPacket(messageId);
    AckDelivers(c1, rows, messageId, now, wantAck, i);
    ErrorFails(c1, rows, messageId, i);
  }

  /**
   * The panel keys a sent message by a text id it derives after handing the
   * message to the radio and never passes to it, while the radio's packets
   * carry numeric ids: an acknowledgement or a routing error with a numeric
   * id leaves that message's tracking entry as it was, and its stored
   * status too unless the text id happens to spell the packet's number.
   */
  lemma NumericAckLeavesSentMessage(c: ChatState, rows: seq<Database.MessageRow>, messageId: string, packet: Value)
    requires DeviceInterface.PacketId(packet).Int?
    ensures OrderedMap.Lookup(HandleAck(c, rows, packet).0.tracking, Str(messageId)) == OrderedMap.Lookup(c.tracking, Str(messageId))
    ensures OrderedMap.Lookup(HandleRoutingError(c, rows, packet).0.tracking, Str(messageId)) == OrderedMap.Lookup(c.tracking, Str(messageId))
    ensures messageId != IntToString(DeviceInterface.PacketId(packet).i) ==>
      forall i :: 0 <= i < |rows| && rows[i].messageId == Str(messageId) ==>
        HandleAck(c, rows, packet).1[i] == rows[i] && HandleRoutingError(c, rows, packet).1[i] == rows[i]
  {
  }

  /**
   * A stored text id made only of the digits of a non-zero packet number is
   * updated by that packet, though the tracking table, which compares values
   * and not their text, is not.
   */
  lemma DigitIdMatchesNumericAck(c: ChatState, rows: seq<Database.MessageRow>, packet: Value, i: nat)
    requires DeviceInterface.PacketId(packet).Int? && DeviceInterface.PacketId(packet).i != 0
    requires i < |rows| && rows[i].messageId == Str(IntToString(DeviceInterface.PacketId(packet).i))
    ensures HandleAck(c, rows, packet).1[i] == rows[i].(status := Str(Delivered))
    ensures HandleRoutingError(c, rows, packet).1[i] == rows[i].(status := Str(Failed))
    ensures OrderedMap.Lookup(HandleAck(c, rows, packet).0.tracking, rows[i].messageId) ==
      OrderedMap.Lookup(c.tracking, rows[i].messageId)
  {
  }

  lemma AckPacket(messageId: string)
    requires messageId != []
    ensures var id := DeviceInterface.PacketId(Dict([("id", Str(messageId))])); id == Str(messageId) && Truthy(id)
  {
  }

  lemma AckDelivers(c1: ChatState, rows: seq<Database.MessageRow>, messageId: string, now: int, wantAck: bool, i: nat)
    requires messageId != [] && i < |rows| && rows[i].messageId == Str(messageId)
    requires OrderedMap.Lookup(c1.tracking, Str(messageId)) == Some(Tracked(Sent, now, wantAck))
    ensures var r := HandleAck(c1, rows, Dict([("id", Str(messageId))]));
      OrderedMap.Lookup(r.0.tracking, Str(messageId)) == Some(Tracked(Delivered, now, wantAck)) &&
      Indicator(r.1[i].status) == "✓✓"
  {
    AckPacket(messageId);
    assert Str(messageId) in OrderedMap.Keys(c1.tracking);
  }

  lemma ErrorFails(c1: ChatState, rows: seq<Database.MessageRow>, messageId: string, i: nat)
    requires messageId != [] && i < |rows| && rows[i].messageId == Str(messageId)
    ensures Indicator(HandleRoutingError(c1, rows, Dict([("id", Str(messageId))])).1[i].status) == "❌"
  {
    AckPacket(messageId);
  }

  // ---------------------------------------------------------------------
  // Destinations and search
  // ---------------------------------------------------------------------

  /** `node.get('user', {})['longName']` when the user record is a dictionary with that key. */
  function LongName(node: Value): (r: Option<Value>)
    ensures r.Some? ==> node.Dict? && Has(node.entries, "user")
  {
    if !node.Dict? then None
    else
      var user := Get(node.entries, "user", Dict([]));
      if user.Dict? && Has(user.entries, "longName") then Some(Get(user.entries, "longName", Null)) else None
  }

  /**
   * Reading a node's long name raises: the node has no `.get`, its `user`
   * does not support `in`, or `user` is a string or list that passes the
   * `in` test and then cannot be indexed by `'longName'`.
   */
  predicate LongNameRaises(node: Value) {
    !node.Dict? ||
    (var user := Get(node.entries, "user", Dict([]));
     In("longName", user) != Some(false) && !user.Dict?)
  }

  function EntryLongName(e: (Value, Value)): Option<Value> {
    LongName(e.1)
  }

  /**
   * `update_destinations`: "Broadcast", then the long name of each node
   * that has one, in node order. When a node raises, the exception leaves
   * the panel (`None`) and the destination list is not replaced.
   */
  function Destinations(nodes: seq<(Value, Value)>): (r: Option<seq<Value>>)
    ensures r.None? <==> exists i :: 0 <= i < |nodes| && LongNameRaises(nodes[i].1)
    ensures r.Some? ==> |r.value| >= 1 && r.value[0] == Str("Broadcast") && |r.value| <= |nodes| + 1
    ensures r.Some? ==> forall i :: 0 <= i < |nodes| && LongName(nodes[i].1).Some? ==> LongName(nodes[i].1).value in r.value[1..]
    ensures r.Some? ==> forall v :: v in r.value[1..] ==> exists i :: 0 <= i < |nodes| && LongName(nodes[i].1) == Some(v)
  {
    if exists i :: 0 <= i < |nodes| && LongNameRaises(nodes[i].1) then None
    else
      var names := Seqs.FilterMap(nodes, EntryLongName);
      Seqs.FilterMapMembers(nodes, EntryLongName);
      assert ([Str("Broadcast")] + names)[1..] == names;
      Some([Str("Broadcast")] + names)
  }

  /** A node whose `user` is `None` stops the update. */
  lemma NullUserRaises(num: Value)
    ensures Destinations([(num, Dict([("user", Null)]))]).None?
  {
    assert LongNameRaises(Dict([("user", Null)]));
  }

  /**
   * A node the adapter has just stored under its number is offered as a
   * destination by its long name, unless some stored node raises.
   */
  lemma StoredNodeOffered(nodes: seq<(Value, Value)>, num: Value, node: Value)
    requires LongName(node).Some?
    requires forall i :: 0 <= i < |nodes| ==> !LongNameRaises(nodes[i].1)
    ensures Destinations(OrderedMap.Put(nodes, num, node)).Some?
    ensures LongName(node).value in Destinations(OrderedMap.Put(nodes, num, node)).value[1..]
  {
    var m := OrderedMap.Put(nodes, num, node);
    OrderedMap.PutEntries(nodes, num, node);
    forall i | 0 <= i < |m|
      ensures !LongNameRaises(m[i].1)
    {
      assert m[i] in m;
      if m[i] != (num, node) {
        var j :| 0 <= j < |nodes| && nodes[j] == m[i];
      }
    }
    assert OrderedMap.Lookup(m, num) == Some(node);
    var i :| 0 <= i < |m| && m[i] == (num, node);
    assert LongName(m[i].1).Some?;
  }

  /** `on_search_messages`: the stripped term, searched only when it has at least two characters. */
  function SearchTerm(entry: string): (r: Option<string>)
    ensures r.Some? <==> |Strip(entry)| >= 2
    ensures r.Some? ==> r.value == Strip(entry) && (!IsSpace(r.value[0]) && !IsSpace(r.value[|r.value| - 1]))
  {
    var term := Strip(entry);
    if |term| < 2 then None else Some(term)
  }

  /** Whitespace around the term changes nothing. */
  lemma SearchTermIgnoresPadding(entry: string)
    ensures SearchTerm(Strip(entry)) == SearchTerm(entry)
  {
    StripIdempotent(entry);
  }
}
