/**
 * The application shell: the window's initial size, the UI event pump
 * that hands adapter events to the tabs, the ten-second refresh schedule,
 * the connect/disconnect buttons, and the GPS label in the status bar.
 * Timers become explicit ticks; the tabs' handlers are named, not run.
 */
module App {
  import opened Wrappers
  import opened Values
  import UiConfig
  import OrderedMap
  import Text

  // ---------------------------------------------------------------------
  // Window size
  // ---------------------------------------------------------------------

  /** The saved `window` settings: `get_window_config`, i.e. `get("window", {})`. */
  function SavedWindow(config: Entries): Value {
    UiConfig.Get(config, "window", Dict([]))
  }

  /**
   * The window's width and height: the saved `window` settings when the
   * preferences store is available, 1200 x 800 for whatever is missing. A
   * saved `window` that is not a dictionary has no `.get`: the application
   * fails at start-up (`None`).
   */
  function WindowSize(config: Option<Entries>): (r: Option<(Value, Value)>)
    ensures config.None? ==> r == Some((Int(1200), Int(800)))
    ensures config.Some? ==> (r.None? <==> !SavedWindow(config.value).Dict?)
    ensures r.Some? && config.Some? ==>
      var window := SavedWindow(config.value).entries;
      (Has(window, "width") ==> OrderedMap.Lookup(window, "width") == Some(r.value.0)) &&
      (!Has(window, "width") ==> r.value.0 == Int(1200)) &&
      (Has(window, "height") ==> OrderedMap.Lookup(window, "height") == Some(r.value.1)) &&
      (!Has(window, "height") ==> r.value.1 == Int(800))
  {
    match config
    case None => Some((Int(1200), Int(800)))
    case Some(c) =>
      match SavedWindow(c)
      case Dict(window) => Some((Get(window, "width", Int(1200)), Get(window, "height", Int(800))))
      case _ => None
  }

  /** A `window` setting of `null` in the preferences file stops the application at start-up. */
  lemma NullWindowFailsAtStartup()
    ensures WindowSize(Some([("window", Null)])).None?
  {
    Text.SplitNoSep("window", '.');
    OrderedMap.LookupFree([("window", Null)], 0);
  }

  /** The preferences' own defaults give the same size as running without them. */
  lemma DefaultWindowSize()
    ensures WindowSize(Some(UiConfig.DefaultConfig)) == WindowSize(None)
  {
    var config := UiConfig.DefaultConfig;
    var window := config[1].1.entries;
    Text.SplitNoSep("window", '.');
    assert OrderedMap.FreeBefore(config, "window", 1);
    OrderedMap.LookupFree(config, 1);
    assert UiConfig.GetPath(Dict(config), ["window"]) == UiConfig.GetPath(Dict(window), []);
    OrderedMap.LookupFree(window, 0);
    assert OrderedMap.FreeBefore(window, "height", 1);
    OrderedMap.LookupFree(window, 1);
  }

  // ---------------------------------------------------------------------
  // The UI event pump
  // ---------------------------------------------------------------------

  datatype UiEvent = UiEvent(kind: string, data: Value)

  /** Where an event goes; `Ignored` events are taken off the queue and dropped. */
  datatype Handler = ShowMessage | RefreshNodes | ConnectSucceeded | ConnectionLost | AckReceived | RoutingError | Ignored

  const KnownKinds: seq<string> := ["message", "node_updated", "connection_established", "connection_lost", "ack_received", "routing_error"]

  function Dispatch(kind: string): (h: Handler)
    ensures h == Ignored <==> kind !in KnownKinds
  {
    if kind == "message" then ShowMessage
    else if kind == "node_updated" then RefreshNodes
    else if kind == "connection_established" then ConnectSucceeded
    else if kind == "connection_lost" then ConnectionLost
    else if kind == "ack_received" then AckReceived
    else if kind == "routing_error" then RoutingError
    else Ignored
  }

  /** Different known kinds reach different handlers. */
  lemma DispatchDistinct(a: string, b: string)
    requires a in KnownKinds && b in KnownKinds && a != b
    ensures Dispatch(a) != Dispatch(b)
  {
  }

  const MaxEventsPerTick := 5

  function Handlers(events: seq<UiEvent>): (r: seq<Handler>)
    ensures |r| == |events| && forall i :: 0 <= i < |events| ==> r[i] == Dispatch(events[i].kind)
  {
    seq(|events|, i requires 0 <= i < |events| => Dispatch(events[i].kind))
  }

  /**
   * One run of `process_ui_events`: up to five events leave the queue in
   * order, each reaching its handler; an empty queue ends the run early.
   */
  function Tick(queue: seq<UiEvent>): (r: (seq<Handler>, seq<UiEvent>))
    ensures |r.0| == if |queue| < MaxEventsPerTick then |queue| else MaxEventsPerTick
    ensures |r.0| + |r.1| == |queue| && r.1 == queue[|r.0|..]
    ensures forall i :: 0 <= i < |r.0| ==> r.0[i] == Dispatch(queue[i].kind)
  {
    var n := if |queue| < MaxEventsPerTick then |queue| else MaxEventsPerTick;
    (Handlers(queue[..n]), queue[n..])
  }

  /** The handlers of ticks run until the queue is empty, and how many ticks that took. */
  function Drain(queue: seq<UiEvent>): (r: (seq<Handler>, nat))
    decreases |queue|
  {
    if |queue| == 0 then ([], 0)
    else
      var t := Tick(queue);
      var rest := Drain(t.1);
      (t.0 + rest.0, rest.1 + 1)
  }

  /**
   * Draining the queue hands every event to its handler exactly once and
   * in arrival order, in one tick per five events (rounded up).
   */
  lemma {:induction false} DrainHandlesAllInOrder(queue: seq<UiEvent>)
    ensures Drain(queue).0 == Handlers(queue)
    ensures Drain(queue).1 == (|queue| + MaxEventsPerTick - 1) / MaxEventsPerTick
    decreases |queue|
  {
    if |queue| > 0 {
      var t := Tick(queue);
      DrainHandlesAllInOrder(t.1);
      assert Handlers(queue) == t.0 + Handlers(t.1);
    }
  }

  // ---------------------------------------------------------------------
  // The periodic refresh
  // ---------------------------------------------------------------------

  /** What one ten-second tick refreshes. */
  datatype Refresh = Refresh(nodeCount: bool, gps: bool, analytics: bool, network: bool)

  /**
   * `update_loop`: nothing while disconnected; when connected, the node
   * count and GPS label every tick, analytics on every third tick and the
   * network view on every second one (each only when its tab exists), and
   * the counter advances.
   */
  function UpdateTick(connected: bool, counter: nat, analyticsTab: bool, networkTab: bool): (r: (Refresh, nat))
    ensures !connected ==> r == (Refresh(false, false, false, false), counter)
    ensures connected ==> r.1 == counter + 1 && r.0.nodeCount && r.0.gps
    ensures r.0.analytics <==> connected && analyticsTab && counter % 3 == 0
    ensures r.0.network <==> connected && networkTab && counter % 2 == 0
  {
    if !connected then (Refresh(false, false, false, false), counter)
    else (Refresh(true, true, analyticsTab && counter % 3 == 0, networkTab && counter % 2 == 0), counter + 1)
  }

  /** `k` connected ticks from `counter`: the final counter and how often each tab refreshed. */
  function Run(counter: nat, k: nat, analyticsTab: bool, networkTab: bool): (nat, nat, nat)
    decreases k
  {
    if k == 0 then (counter, 0, 0)
    else
      var t := UpdateTick(true, counter, analyticsTab, networkTab);
      var rest := Run(t.1, k - 1, analyticsTab, networkTab);
      (rest.0, rest.1 + (if t.0.analytics then 1 else 0), rest.2 + (if t.0.network then 1 else 0))
  }

  /** From a fresh start, `k` connected ticks refresh analytics ⌈k/3⌉ times and the network ⌈k/2⌉ times. */
  lemma {:induction false} RunCounts(k: nat)
    ensures Run(0, k, true, true) == (k, (k + 2) / 3, (k + 1) / 2)
  {
    RunFrom(0, k);
  }

  lemma {:induction false} RunFrom(c: nat, k: nat)
    ensures Run(c, k, true, true).0 == c + k
    ensures Run(c, k, true, true).1 == (c + k + 2) / 3 - (c + 2) / 3
    ensures Run(c, k, true, true).2 == (c + k + 1) / 2 - (c + 1) / 2
    decreases k
  {
    if k > 0 {
      RunFrom(c + 1, k - 1);
      ThirdStep(c);
      HalfStep(c);
    }
  }

  lemma ThirdStep(c: nat)
    ensures (c + 3) / 3 - (c + 2) / 3 == if c % 3 == 0 then 1 else 0
  {
  }

  lemma HalfStep(c: nat)
    ensures (c + 2) / 2 - (c + 1) / 2 == if c % 2 == 0 then 1 else 0
  {
  }

  /** The application as assembled has no analytics or network tab, so the schedule never refreshes them. */
  lemma NoTabsNoRefresh(c: nat, k: nat)
    ensures Run(c, k, false, false) == (c + k, 0, 0)
    decreases k
  {
  }

  // ---------------------------------------------------------------------
  // Connect and disconnect
  // ---------------------------------------------------------------------

  /** The two buttons' enabled states and the status-bar connection text. */
  datatype Controls = Controls(connectEnabled: bool, disconnectEnabled: bool, status: string)

  const InitialControls := Controls(true, false, "Disconnected")

  datatype ConnectionEvent = Attempt | Succeeded | Failed | Disconnected

  /**
   * `connect_device` disables Connect while it tries; success enables only
   * Disconnect; failure and disconnection enable only Connect.
   */
  function Apply(c: Controls, e: ConnectionEvent): (r: Controls)
    ensures e == Attempt ==> !r.connectEnabled && r.disconnectEnabled == c.disconnectEnabled
    ensures e == Succeeded ==> !r.connectEnabled && r.disconnectEnabled && r.status == "Connected"
    ensures e == Failed ==> r.connectEnabled && !r.disconnectEnabled && r.status == "Connection Failed"
    ensures e == Disconnected ==> r.connectEnabled && !r.disconnectEnabled && r.status == "Disconnected"
  {
    match e
    case Attempt => Controls(false, c.disconnectEnabled, c.status)
    case Succeeded => Controls(false, true, "Connected")
    case Failed => Controls(true, false, "Connection Failed")
    case Disconnected => Controls(true, false, "Disconnected")
  }

  function ApplyAll(c: Controls, es: seq<ConnectionEvent>): Controls
    decreases |es|
  {
    if |es| == 0 then c else ApplyAll(Apply(c, es[0]), es[1..])
  }

  /**
   * Once any attempt has been answered, exactly one of the two buttons is
   * enabled, matching the connection text: they are never both enabled.
   */
  lemma {:induction false} ButtonsNeverBothEnabled(es: seq<ConnectionEvent>)
    ensures var c := ApplyAll(InitialControls, es); !(c.connectEnabled && c.disconnectEnabled)
    ensures var c := ApplyAll(InitialControls, es);
      |es| > 0 && es[|es| - 1] != Attempt ==> (c.connectEnabled <==> !c.disconnectEnabled)
  {
    AllKeepExclusive(InitialControls, es);
  }

  lemma {:induction false} AllKeepExclusive(c: Controls, es: seq<ConnectionEvent>)
    requires !(c.connectEnabled && c.disconnectEnabled)
    ensures var d := ApplyAll(c, es); !(d.connectEnabled && d.disconnectEnabled)
    ensures var d := ApplyAll(c, es);
      |es| > 0 && es[|es| - 1] != Attempt ==> (d.connectEnabled <==> !d.disconnectEnabled)
    decreases |es|
  {
    if |es| > 0 {
      AllKeepExclusive(Apply(c, es[0]), es[1..]);
      if |es| > 1 {
        assert es[1..][|es[1..]| - 1] == es[|es| - 1];
      }
    }
  }

  // ---------------------------------------------------------------------
  // The GPS label
  // ---------------------------------------------------------------------

  datatype GpsLabel =
    | GpsFixed(satellites: Value)
    | GpsSearching(satellites: Value)
    | GpsNoSignal
    | GpsDisabled
    | GpsNotAvailable
    | GpsError

  function Colour(l: GpsLabel): string {
    match l
    case GpsFixed(_) => "green"
    case GpsSearching(_) => "orange"
    case GpsNoSignal => "red"
    case GpsDisabled => "gray"
    case GpsNotAvailable => "gray"
    case GpsError => "red"
  }

  /** The label's text, for satellite counts the model can print. */
  function LabelText(l: GpsLabel): string
    requires l.GpsFixed? || l.GpsSearching? ==> SimpleStr(l.satellites)
  {
    match l
    case GpsFixed(n) => "GPS: Fixed (" + PyStr(n) + " sats)"
    case GpsSearching(n) => "GPS: Searching (" + PyStr(n) + " sats)"
    case GpsNoSignal => "GPS: No Signal"
    case GpsDisabled => "GPS: Disabled"
    case GpsNotAvailable => "GPS: N/A"
    case GpsError => "GPS: Error"
  }

  /**
   * `check_gps_status` as intended: "N/A" while disconnected; otherwise the
   * status reported by a GPS query (`None` when the query raises), with the
   * satellite count (0 when missing) for a fix or a search.
   */
  function GpsLabelFor(connected: bool, report: Option<Entries>): (r: GpsLabel)
    ensures !connected ==> r == GpsNotAvailable
    ensures connected && report.None? ==> r == GpsError
    ensures connected && report.Some? ==>
      var status := Get(report.value, "status", Str("unknown"));
      var sats := Get(report.value, "satellites", Int(0));
      (r == GpsFixed(sats) <==> status == Str("fixed")) &&
      (r == GpsSearching(sats) <==> status == Str("searching")) &&
      (r == GpsNoSignal <==> status == Str("no_signal")) &&
      (r == GpsDisabled <==> status == Str("disabled")) &&
      (r == GpsNotAvailable <==> status == Str("disconnected")) &&
      (r == GpsError <==> status !in {Str("fixed"), Str("searching"), Str("no_signal"), Str("disabled"), Str("disconnected")})
  {
    if !connected then GpsNotAvailable
    else match report
      case None => GpsError
      case Some(g) =>
        var status := Get(g, "status", Str("unknown"));
        var sats := Get(g, "satellites", Int(0));
        if status == Str("fixed") then GpsFixed(sats)
        else if status == Str("searching") then GpsSearching(sats)
        else if status == Str("no_signal") then GpsNoSignal
        else if status == Str("disabled") then GpsDisabled
        else if status == Str("disconnected") then GpsNotAvailable
        else GpsError
  }

  /**
   * `check_gps_status` as written: the adapter has no GPS status query, so
   * the call raises and every connected check shows "GPS: Error".
   */
  function GpsLabelAsWritten(connected: bool): (r: GpsLabel)
    ensures r == GpsLabelFor(connected, None)
  {
    if !connected then GpsNotAvailable else GpsError
  }

  /** The two agree while disconnected and part as soon as a connected device reports a fix. */
  lemma GpsLabelDiscrepancy()
    ensures GpsLabelAsWritten(false) == GpsLabelFor(false, Some([("status", Str("fixed"))]))
    ensures GpsLabelAsWritten(true) == GpsError
    ensures GpsLabelFor(true, Some([("status", Str("fixed")), ("satellites", Int(7))])) == GpsFixed(Int(7))
  {
    var report := [("status", Str("fixed")), ("satellites", Int(7))];
    assert Get(report, "status", Str("unknown")) == Str("fixed");
    assert OrderedMap.FreeBefore(report, "satellites", 1);
    OrderedMap.LookupFree(report, 1);
  }
}
