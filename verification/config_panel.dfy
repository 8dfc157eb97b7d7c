/**
 * The decision logic of the configuration panel: validating the GPS
 * interval fields, the list of saved configuration profiles and their
 * save/delete guards, the managed-device list and the device scan, and the
 * node-name update guard. Message boxes become outcome values; the
 * meshtastic library's port scan and `json.loads` are parameters.
 */
module ConfigPanel {
  import opened Wrappers
  import opened Text
  import opened Values
  import OrderedMap
  import Database
  import Constants

  // ---------------------------------------------------------------------
  // GPS interval fields
  // ---------------------------------------------------------------------

  /** What pressing one of the two GPS "Set" buttons does. */
  datatype IntervalOutcome = NotConnected | NotANumber | OutOfRange | Send(seconds: int)

  const GpsIntervalMin := 1
  const GpsIntervalMax := 3600
  const BroadcastIntervalMin := 30
  const BroadcastIntervalMax := 86400

  /**
   * The shared shape of both handlers: refuse while disconnected, then
   * `int()` the field, then check the inclusive range.
   */
  function CheckInterval(connected: bool, text: string, lo: int, hi: int): (r: IntervalOutcome)
    ensures r == NotConnected <==> !connected
    ensures r == NotANumber <==> connected && ParseInt(text).None?
    ensures r.Send? <==> connected && ParseInt(text).Some? && lo <= ParseInt(text).value <= hi
    ensures r.Send? ==> r.seconds == ParseInt(text).value && lo <= r.seconds <= hi
  {
    if !connected then NotConnected
    else match ParseInt(text)
      case None => NotANumber
      case Some(n) => if n < lo || n > hi then OutOfRange else Send(n)
  }

  /** `update_gps_interval`: the device is asked only for a whole number of seconds in [1, 3600]. */
  function UpdateGpsInterval(connected: bool, text: string): (r: IntervalOutcome)
    ensures r.Send? ==> connected && GpsIntervalMin <= r.seconds <= GpsIntervalMax
    ensures r.Send? ==> ParseInt(text) == Some(r.seconds)
  {
    CheckInterval(connected, text, GpsIntervalMin, GpsIntervalMax)
  }

  /** `update_gps_broadcast`: the device is asked only for a whole number of seconds in [30, 86400]. */
  function UpdateGpsBroadcast(connected: bool, text: string): (r: IntervalOutcome)
    ensures r.Send? ==> connected && BroadcastIntervalMin <= r.seconds <= BroadcastIntervalMax
    ensures r.Send? ==> ParseInt(text) == Some(r.seconds)
  {
    CheckInterval(connected, text, BroadcastIntervalMin, BroadcastIntervalMax)
  }

  /**
   * Typing a number into the field is accepted exactly when it is in range:
   * the value sent is the number typed, and every number outside the range
   * is refused.
   */
  lemma IntervalFieldRoundTrip(n: int)
    ensures UpdateGpsInterval(true, IntToString(n)) ==
      (if GpsIntervalMin <= n <= GpsIntervalMax then Send(n) else OutOfRange)
    ensures UpdateGpsBroadcast(true, IntToString(n)) ==
      (if BroadcastIntervalMin <= n <= BroadcastIntervalMax then Send(n) else OutOfRange)
  {
    ParseIntToString(n);
  }

  // ---------------------------------------------------------------------
  // Configuration profiles
  // ---------------------------------------------------------------------

  type Decoder = string -> Option<Value>

  /** A stored profile appears in the panel: its name is not reserved and its JSON decodes. */
  predicate Listed(row: Database.ProfileRow, decode: Decoder) {
    row.name !in Constants.ReservedProfileNames && decode(row.deviceConfig).Some?
  }

  /** The names `load_config_profiles` appends to the list, in table order. */
  function ListedNames(rows: seq<Database.ProfileRow>, decode: Decoder): (r: seq<string>)
    ensures |r| <= |rows|
    ensures forall n :: n in r <==> exists row :: row in rows && row.name == n && Listed(row, decode)
  {
    if |rows| == 0 then []
    else
      var init := rows[..|rows| - 1];
      var last := rows[|rows| - 1];
      assert forall row :: row in rows <==> row in init || row == last;
      ListedNames(init, decode) + (if Listed(last, decode) then [last.name] else [])
  }

  /** `self.config_profiles`: each listed name bound to its decoded configuration. */
  function ListedConfigs(rows: seq<Database.ProfileRow>, decode: Decoder): seq<(string, Value)>
  {
    if |rows| == 0 then []
    else
      var init := ListedConfigs(rows[..|rows| - 1], decode);
      var last := rows[|rows| - 1];
      if Listed(last, decode) then OrderedMap.Put(init, last.name, decode(last.deviceConfig).value) else init
  }

  datatype ProfileList = ProfileList(names: seq<string>, configs: seq<(string, Value)>)

  /**
   * `load_config_profiles`: "Default" first, then every stored profile
   * whose name is not reserved and whose JSON decodes, in table order.
   */
  function LoadProfiles(rows: seq<Database.ProfileRow>, decode: Decoder): (r: ProfileList)
    ensures |r.names| >= 1 && r.names[0] == Constants.DefaultProfileName
    ensures forall n :: n in r.names[1..] ==> n !in Constants.ReservedProfileNames
    ensures forall row :: row in rows && Listed(row, decode) ==> row.name in r.names[1..]
    ensures forall n :: n in r.names[1..] ==> exists row :: row in rows && row.name == n && Listed(row, decode)
  {
    var names := ListedNames(rows, decode);
    assert ([Constants.DefaultProfileName] + names)[1..] == names;
    ProfileList([Constants.DefaultProfileName] + names, ListedConfigs(rows, decode))
  }

  /**
   * With profile names unique (the column is UNIQUE), every listed profile
   * is bound to its own decoded configuration.
   */
  lemma {:induction false} LoadedConfig(rows: seq<Database.ProfileRow>, decode: Decoder, i: nat)
    requires Database.UniqueKeyed(rows, Database.ProfileKey)
    requires i < |rows| && Listed(rows[i], decode)
    ensures OrderedMap.Lookup(LoadProfiles(rows, decode).configs, rows[i].name) == decode(rows[i].deviceConfig)
    decreases |rows|
  {
    var init := rows[..|rows| - 1];
    var last := rows[|rows| - 1];
    if i < |rows| - 1 {
      assert init[i] == rows[i];
      assert Database.UniqueKeyed(init, Database.ProfileKey) by {
        forall a, b | 0 <= a < b < |init| && Database.ProfileKey(init[a]) != Null
          ensures Database.ProfileKey(init[a]) != Database.ProfileKey(init[b])
        {
          assert init[a] == rows[a] && init[b] == rows[b];
        }
      }
      LoadedConfig(init, decode, i);
      assert Database.ProfileKey(rows[i]) != Database.ProfileKey(last);
    }
  }

  datatype ProfileError = EmptyName | NoSelection | DefaultProtected

  /**
   * `save_config_profile`: the stripped name must be non-empty; the row
   * replaces any stored profile of that name (INSERT OR REPLACE on the
   * UNIQUE column). `json` is the serialised form of the panel's fields.
   */
  function SaveProfile(rows: seq<Database.ProfileRow>, name: string, json: string, now: Value)
    : (r: Result<seq<Database.ProfileRow>, ProfileError>)
    ensures r.Err? <==> Strip(name) == []
    ensures r.Err? ==> r.error == EmptyName
    ensures r.Ok? ==> |r.value| > 0 && r.value[|r.value| - 1] == Database.ProfileRow(Strip(name), json, now, now)
    ensures r.Ok? ==> forall x :: x in r.value && x.name == Strip(name) ==> x == r.value[|r.value| - 1]
    ensures r.Ok? ==> forall x: Database.ProfileRow :: x.name != Strip(name) ==> (x in r.value <==> x in rows)
  {
    var n := Strip(name);
    if n == [] then Err(EmptyName)
    else Ok(Database.Upsert(rows, Database.ProfileKey, Database.ProfileRow(n, json, now, now)))
  }

  function NotNamed(n: string): Database.ProfileRow -> bool {
    (p: Database.ProfileRow) => p.name != n
  }

  /**
   * `delete_config_profile`: refused for an empty selection and for
   * "Default"; an unconfirmed delete changes nothing; a confirmed one
   * removes the rows of that name.
   */
  function DeleteProfile(rows: seq<Database.ProfileRow>, selected: string, confirmed: bool)
    : (r: Result<seq<Database.ProfileRow>, ProfileError>)
    ensures r.Err? <==> selected == [] || selected == Constants.DefaultProfileName
    ensures r.Err? ==> r.error == (if selected == [] then NoSelection else DefaultProtected)
    ensures r.Ok? && !confirmed ==> r.value == rows
    ensures r.Ok? && confirmed ==> forall x :: x in r.value <==> x in rows && x.name != selected
  {
    if selected == [] then Err(NoSelection)
    else if selected == Constants.DefaultProfileName then Err(DefaultProtected)
    else if !confirmed then Ok(rows)
    else Ok(Database.Filter(rows, NotNamed(selected)))
  }

  /** A profile saved under a usable name and then loaded is listed, with the configuration saved. */
  lemma SaveThenLoad(rows: seq<Database.ProfileRow>, name: string, json: string, now: Value, decode: Decoder)
    ensures Database.UniqueKeyed(rows, Database.ProfileKey) &&
            Strip(name) != [] && Strip(name) !in Constants.ReservedProfileNames && decode(json).Some? ==>
      SaveProfile(rows, name, json, now).Ok? &&
      var l := LoadProfiles(SaveProfile(rows, name, json, now).value, decode);
      Strip(name) in l.names[1..] && OrderedMap.Lookup(l.configs, Strip(name)) == decode(json)
  {
    if !(Database.UniqueKeyed(rows, Database.ProfileKey) &&
         Strip(name) != [] && Strip(name) !in Constants.ReservedProfileNames && decode(json).Some?) {
      return;
    }
    var saved := SaveProfile(rows, name, json, now).value;
    var row := Database.ProfileRow(Strip(name), json, now, now);
    Database.UpsertKeepsUniqueKeyed(rows, Database.ProfileKey, row);
    LoadedConfig(saved, decode, |saved| - 1);
  }

  /**
   * Saving a profile and then deleting it (confirmed) leaves exactly the
   * other profiles, in order; when no profile of that name existed before,
   * the table is back as it was.
   */
  lemma SaveThenDelete(rows: seq<Database.ProfileRow>, name: string, json: string, now: Value)
    requires Strip(name) != [] && Strip(name) != Constants.DefaultProfileName
    ensures SaveProfile(rows, name, json, now).Ok?
    ensures var d := DeleteProfile(SaveProfile(rows, name, json, now).value, Strip(name), true);
      d == Ok(Database.Filter(rows, NotNamed(Strip(name))))
    ensures (forall x :: x in rows ==> x.name != Strip(name)) ==>
      DeleteProfile(SaveProfile(rows, name, json, now).value, Strip(name), true) == Ok(rows)
  {
    var n := Strip(name);
    var kept := Database.Filter(rows, NotNamed(n));
    SavedIsKeptPlusRow(rows, n, json, now);
    DeleteSavedRow(kept, n, json, now);
    if forall x :: x in rows ==> x.name != n {
      assert forall i :: 0 <= i < |rows| ==> rows[i] in rows;
      Database.FilterAll(rows, NotNamed(n));
    }
  }

  /** The upsert of a named profile is the other profiles followed by the new row. */
  lemma SavedIsKeptPlusRow(rows: seq<Database.ProfileRow>, n: string, json: string, now: Value)
    ensures Database.Upsert(rows, Database.ProfileKey, Database.ProfileRow(n, json, now, now)) ==
      Database.Filter(rows, NotNamed(n)) + [Database.ProfileRow(n, json, now, now)]
  {
    var byKey, byName := Database.KeyIsNot(Database.ProfileKey, Str(n)), NotNamed(n);
    forall x: Database.ProfileRow
      ensures byKey(x) == byName(x)
    {
      assert Database.ProfileKey(x) == Str(x.name);
    }
    Database.FilterSameTest(rows, byKey, byName);
  }

  /** Deleting the name just saved takes off exactly the new row. */
  lemma DeleteSavedRow(kept: seq<Database.ProfileRow>, n: string, json: string, now: Value)
    requires forall x :: x in kept ==> x.name != n
    ensures Database.Filter(kept + [Database.ProfileRow(n, json, now, now)], NotNamed(n)) == kept
  {
    var row := Database.ProfileRow(n, json, now, now);
    Database.FilterAppend(kept, [row], NotNamed(n));
    assert [row][..0] == [];
    assert forall i :: 0 <= i < |kept| ==> kept[i] in kept && NotNamed(n)(kept[i]);
    Database.FilterAll(kept, NotNamed(n));
  }

  // ---------------------------------------------------------------------
  // Managed devices and the device scan
  // ---------------------------------------------------------------------

  /** An entry of `managed_devices`; `status` is absent when the stored entry has none. */
  datatype Device = Device(name: string, kind: string, path: string, status: Option<string>)

  /** One line of the device list: name, type, path, status. */
  datatype ScanRow = ScanRow(name: string, kind: string, path: string, status: string)

  const AddedStatus := "Added"
  const SerialKind := "Serial"
  const TcpKind := "TCP"

  /**
   * `add_device`: three prompts, each of which may be cancelled (`None`) or
   * left empty; any such answer abandons the addition.
   */
  function AddDevice(devs: seq<Device>, name: Option<string>, kind: Option<string>, path: Option<string>)
    : (r: Option<seq<Device>>)
    ensures r.Some? <==> name.Some? && name.value != [] && kind.Some? && kind.value != [] && path.Some? && path.value != []
    ensures r.Some? ==> r.value == devs + [Device(name.value, kind.value, path.value, Some(AddedStatus))]
  {
    if name.None? || name.value == [] || kind.None? || kind.value == [] || path.None? || path.value == [] then None
    else Some(devs + [Device(name.value, kind.value, path.value, Some(AddedStatus))])
  }

  function Unselected(name: string, path: string): Device -> bool {
    (d: Device) => !(d.name == name && d.path == path)
  }

  /**
   * `remove_device` with the selected name and path compared as the text the
   * tree shows: drop every managed device with both.
   */
  function RemoveDevice(devs: seq<Device>, name: string, path: string): (r: seq<Device>)
    ensures forall d :: d in r <==> d in devs && !(d.name == name && d.path == path)
    ensures |r| <= |devs|
  {
    Database.Filter(devs, Unselected(name, path))
  }

  /** Removal keeps the surviving devices in their order: it distributes over concatenation. */
  lemma RemoveDeviceKeepsOrder(a: seq<Device>, b: seq<Device>, name: string, path: string)
    ensures RemoveDevice(a + b, name, path) == RemoveDevice(a, name, path) + RemoveDevice(b, name, path)
  {
    Database.FilterAppend(a, b, Unselected(name, path));
  }

  /** Adding a device and then removing it by its name and path restores the list. */
  lemma AddThenRemove(devs: seq<Device>, name: string, kind: string, path: string)
    requires name != [] && kind != [] && path != []
    requires forall d :: d in devs ==> !(d.name == name && d.path == path)
    ensures AddDevice(devs, Some(name), Some(kind), Some(path)).Some?
    ensures RemoveDevice(AddDevice(devs, Some(name), Some(kind), Some(path)).value, name, path) == devs
  {
    var d := Device(name, kind, path, Some(AddedStatus));
    RemoveDeviceKeepsOrder(devs, [d], name, path);
    Database.FilterAll(devs, Unselected(name, path));
    assert [d][..0] == [];
    assert RemoveDevice([d], name, path) == [];
    assert devs + [] == devs;
  }

  /**
   * `remove_device` as written: the tree hands the selected name and path
   * back through `int()` where that succeeds, and a number equals no stored
   * text, so a numeric name or path removes nothing.
   */
  function RemoveDeviceAsWritten(devs: seq<Device>, nameCell: string, pathCell: string): (r: seq<Device>)
    ensures forall d :: d in r <==> d in devs && !(Str(d.name) == TreeCell(nameCell) && Str(d.path) == TreeCell(pathCell))
    ensures ParseInt(nameCell).Some? || ParseInt(pathCell).Some? ==> r == devs
    ensures ParseInt(nameCell).None? && ParseInt(pathCell).None? ==> r == RemoveDevice(devs, nameCell, pathCell)
  {
    if TreeCell(nameCell).Str? && TreeCell(pathCell).Str? then RemoveDevice(devs, nameCell, pathCell)
    else devs
  }

  /** A device named by a number survives its own removal as written, and goes when compared as text. */
  lemma NumericNameSurvivesRemoval(num: int, kind: string, path: string)
    ensures var devs := [Device(IntToString(num), kind, path, Some(AddedStatus))];
      RemoveDeviceAsWritten(devs, IntToString(num), path) == devs && RemoveDevice(devs, IntToString(num), path) == []
  {
    TreeCellOfInt(num);
    var d := Device(IntToString(num), kind, path, Some(AddedStatus));
    assert [d][..0] == [];
  }

  /**
   * As written, removing a device just added undoes the add exactly when
   * neither its name nor its path is a number; otherwise it stays.
   */
  lemma AddThenRemoveAsWritten(devs: seq<Device>, name: string, kind: string, path: string)
    requires name != [] && kind != [] && path != []
    requires forall d :: d in devs ==> !(d.name == name && d.path == path)
    ensures ParseInt(name).None? && ParseInt(path).None? ==>
      RemoveDeviceAsWritten(AddDevice(devs, Some(name), Some(kind), Some(path)).value, name, path) == devs
    ensures ParseInt(name).Some? || ParseInt(path).Some? ==>
      RemoveDeviceAsWritten(AddDevice(devs, Some(name), Some(kind), Some(path)).value, name, path) ==
        AddDevice(devs, Some(name), Some(kind), Some(path)).value
  {
    AddThenRemove(devs, name, kind, path);
  }

  /** `device.get('status', 'Unknown')` on a managed device. */
  function ManagedRow(d: Device): ScanRow {
    ScanRow(d.name, d.kind, d.path, d.status.GetOr("Unknown"))
  }

  function SerialRow(port: string): ScanRow {
    ScanRow("Meshtastic Device", SerialKind, port, "Available")
  }

  function TcpRow(host: string): ScanRow {
    ScanRow("TCP Device", TcpKind, host, "Unknown")
  }

  predicate ManagedPath(devs: seq<Device>, p: string) {
    exists d :: d in devs && d.path == p
  }

  predicate ManagedTcp(devs: seq<Device>, h: string) {
    exists d :: d in devs && d.path == h && d.kind == TcpKind
  }

  function ManagedRows(devs: seq<Device>): (r: seq<ScanRow>)
    ensures |r| == |devs| && forall i :: 0 <= i < |devs| ==> r[i] == ManagedRow(devs[i])
  {
    if |devs| == 0 then [] else ManagedRows(devs[..|devs| - 1]) + [ManagedRow(devs[|devs| - 1])]
  }

  /** Serial ports found by the scan that are not already a managed device's path. */
  function SerialRows(ports: seq<string>, devs: seq<Device>): (r: seq<ScanRow>)
    ensures forall row :: row in r <==> row == SerialRow(row.path) && row.path in ports && !ManagedPath(devs, row.path)
  {
    if |ports| == 0 then []
    else
      var init := ports[..|ports| - 1];
      var p := ports[|ports| - 1];
      assert forall q :: q in ports <==> q in init || q == p;
      SerialRows(init, devs) + (if ManagedPath(devs, p) then [] else [SerialRow(p)])
  }

  /** The common TCP hosts not already managed as a TCP device. */
  function TcpRows(hosts: seq<string>, devs: seq<Device>): (r: seq<ScanRow>)
    ensures forall row :: row in r <==> row == TcpRow(row.path) && row.path in hosts && !ManagedTcp(devs, row.path)
  {
    if |hosts| == 0 then []
    else
      var init := hosts[..|hosts| - 1];
      var h := hosts[|hosts| - 1];
      assert forall q :: q in hosts <==> q in init || q == h;
      TcpRows(init, devs) + (if ManagedTcp(devs, h) then [] else [TcpRow(h)])
  }

  /**
   * `scan_devices`. Nothing is listed when the meshtastic library cannot be
   * imported; `ports` is `None` when the port scan raised. The list holds
   * the managed devices in order, then the unmanaged serial ports, then the
   * common TCP hosts not already managed as TCP devices.
   */
  function ScanDevices(libraryAvailable: bool, devs: seq<Device>, ports: Option<seq<string>>): (r: Option<seq<ScanRow>>)
    ensures r.Some? <==> libraryAvailable
    ensures r.Some? ==> |r.value| >= |devs| && forall i :: 0 <= i < |devs| ==> r.value[i] == ManagedRow(devs[i])
    ensures r.Some? ==> forall row :: row in r.value[|devs|..] <==>
      (row == SerialRow(row.path) && ports.Some? && row.path in ports.value && !ManagedPath(devs, row.path)) ||
      (row == TcpRow(row.path) && row.path in Constants.CommonTcpHosts && !ManagedTcp(devs, row.path))
    ensures r.Some? ==> forall i, j :: |devs| <= i < j < |r.value| && r.value[i].kind == TcpKind ==> r.value[j].kind == TcpKind
  {
    if !libraryAvailable then None
    else
      var managed := ManagedRows(devs);
      var offered := OfferedRows(devs, ports);
      assert (managed + offered)[|devs|..] == offered;
      TcpLastAfter(managed, offered);
      Some(managed + offered)
  }

  /** The unmanaged serial ports, then the unmanaged common TCP hosts. */
  function OfferedRows(devs: seq<Device>, ports: Option<seq<string>>): (r: seq<ScanRow>)
    ensures forall row :: row in r <==>
      (row == SerialRow(row.path) && ports.Some? && row.path in ports.value && !ManagedPath(devs, row.path)) ||
      (row == TcpRow(row.path) && row.path in Constants.CommonTcpHosts && !ManagedTcp(devs, row.path))
    ensures forall i, j :: 0 <= i < j < |r| && r[i].kind == TcpKind ==> r[j].kind == TcpKind
  {
    var serial := if ports.Some? then SerialRows(ports.value, devs) else [];
    var tcp := TcpRows(Constants.CommonTcpHosts, devs);
    TcpLast(serial, tcp);
    serial + tcp
  }

  /** Serial rows followed by TCP rows: once a TCP row appears, only TCP rows follow. */
  lemma TcpLast(serial: seq<ScanRow>, tcp: seq<ScanRow>)
    requires forall row :: row in serial ==> row.kind == SerialKind
    requires forall row :: row in tcp ==> row.kind == TcpKind
    ensures forall i, j :: 0 <= i < j < |serial + tcp| && (serial + tcp)[i].kind == TcpKind ==> (serial + tcp)[j].kind == TcpKind
  {
    var all := serial + tcp;
    forall i, j | 0 <= i < j < |all| && all[i].kind == TcpKind
      ensures all[j].kind == TcpKind
    {
      assert all[j] == tcp[j - |serial|];
      assert tcp[j - |serial|] in tcp;
    }
  }

  /** The TCP-rows-last order of a tail survives putting rows in front of it. */
  lemma TcpLastAfter(front: seq<ScanRow>, tail: seq<ScanRow>)
    requires forall i, j :: 0 <= i < j < |tail| && tail[i].kind == TcpKind ==> tail[j].kind == TcpKind
    ensures forall i, j :: |front| <= i < j < |front + tail| && (front + tail)[i].kind == TcpKind ==> (front + tail)[j].kind == TcpKind
  {
    var all := front + tail;
    forall i, j | |front| <= i < j < |all| && all[i].kind == TcpKind
      ensures all[j].kind == TcpKind
    {
      assert all[i] == tail[i - |front|] && all[j] == tail[j - |front|];
    }
  }

  /**
   * After adding a device the scan lists it last among the managed devices
   * with status "Added", and no longer offers its path as a free serial port.
   */
  lemma AddThenScan(devs: seq<Device>, name: string, kind: string, path: string, ports: seq<string>)
    requires name != [] && kind != [] && path != []
    ensures var added := AddDevice(devs, Some(name), Some(kind), Some(path));
      added.Some? &&
      var scan := ScanDevices(true, added.value, Some(ports)).value;
      scan[|devs|] == ScanRow(name, kind, path, AddedStatus) &&
      SerialRow(path) !in scan[|devs| + 1..]
  {
    var added := AddDevice(devs, Some(name), Some(kind), Some(path)).value;
    assert added[|devs|] in added && added[|devs|].path == path;
    assert ManagedPath(added, path);
  }

  // ---------------------------------------------------------------------
  // Node names
  // ---------------------------------------------------------------------

  datatype NodeInfoOutcome = NodeInfoNotConnected | NodeInfoUnchanged | SetOwner(longName: string, shortName: string)

  /** `update_node_info`: the device is called only when a stripped name is non-empty. */
  function UpdateNodeInfo(connected: bool, longName: string, shortName: string): (r: NodeInfoOutcome)
    ensures r == NodeInfoNotConnected <==> !connected
    ensures r.SetOwner? <==> connected && (Strip(longName) != [] || Strip(shortName) != [])
    ensures r.SetOwner? ==> r.longName == Strip(longName) && r.shortName == Strip(shortName)
    ensures r.SetOwner? ==> r.longName == [] || (!IsSpace(r.longName[0]) && !IsSpace(r.longName[|r.longName| - 1]))
  {
    if !connected then NodeInfoNotConnected
    else
      var l := Strip(longName);
      var s := Strip(shortName);
      if l != [] || s != [] then SetOwner(l, s) else NodeInfoUnchanged
  }

  /** Surrounding whitespace in the fields makes no difference to what is sent. */
  lemma UpdateNodeInfoIgnoresPadding(connected: bool, longName: string, shortName: string)
    ensures UpdateNodeInfo(connected, Strip(longName), Strip(shortName)) == UpdateNodeInfo(connected, longName, shortName)
  {
    StripIdempotent(longName);
    StripIdempotent(shortName);
    SameStripsSameNodeInfo(connected, Strip(longName), Strip(shortName), longName, shortName);
  }

  /** The outcome depends on the fields only through their stripped forms. */
  lemma SameStripsSameNodeInfo(connected: bool, long1: string, short1: string, long2: string, short2: string)
    requires Strip(long1) == Strip(long2) && Strip(short1) == Strip(short2)
    ensures UpdateNodeInfo(connected, long1, short1) == UpdateNodeInfo(connected, long2, short2)
  {
  }
}
