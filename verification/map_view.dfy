/**
 * The map view: which map it draws (tiles or the offline coordinate plot)
 * and the title it shows, the markers it places and their colours, the
 * zoom chosen to fit them, the projection of the coordinate plot onto its
 * 400 x 400 canvas, the distance column of the node table, and the guard
 * against switching tile layers while a switch is still loading.
 *
 * The tile check, the local device's position and the great-circle
 * distance are parameters.
 */
module MapView {
  import opened Wrappers
  import opened Values
  import RealSeq
  import NetworkView

  // ---------------------------------------------------------------------
  // Which map, and its title
  // ---------------------------------------------------------------------

  /** The tile server counts as reachable only when it answers 200. */
  function InternetAvailable(status: Option<int>): (r: bool)
    ensures r <==> status == Some(200)
  {
    status.Some? && status.value == 200
  }

  /** Tiles are used when the map library imported and the tile server is reachable. */
  function UseRealMap(libraryAvailable: bool, internet: bool): (r: bool)
    ensures r ==> libraryAvailable && internet
    ensures libraryAvailable && internet ==> r
  {
    libraryAvailable && internet
  }

  datatype MapKind = TileMap | CoordinatePlot

  /**
   * `initialize_map`: the tile map when it is wanted and can be built;
   * a failure to build it falls back to the plot and clears the flag.
   */
  function InitializeMap(useRealMap: bool, tileMapFails: bool): (r: (MapKind, bool))
    ensures r.0 == TileMap <==> useRealMap && !tileMapFails
    ensures r.1 <==> r.0 == TileMap
  {
    if useRealMap && !tileMapFails then (TileMap, true) else (CoordinatePlot, false)
  }

  /** A title announcing the tile map. */
  predicate OnlineTitle(title: string) {
    EndsWith(title, "Online)")
  }

  predicate EndsWith(s: string, t: string) {
    |t| <= |s| && s[|s| - |t|..] == t
  }

  lemma EndsWithAppend(p: string, t: string)
    ensures EndsWith(p + t, t)
  {
    assert (p + t)[|p + t| - |t|..] == t;
  }

  const PlotOffline := "Map Visualization (Coordinate Plot - Offline)"
  const PlotNoLibrary := "Map Visualization (Coordinate Plot - Map library unavailable)"
  const PlotBare := "Map Visualization (Coordinate Plot)"

  lemma PlotTitlesOffline()
    ensures !OnlineTitle(PlotOffline) && !OnlineTitle(PlotNoLibrary) && !OnlineTitle(PlotBare)
  {
    assert PlotOffline[|PlotOffline| - 7..] != "Online)";
    assert PlotNoLibrary[|PlotNoLibrary| - 7..] != "Online)";
    assert PlotBare[|PlotBare| - 7..] != "Online)";
  }

  /**
   * `update_map_frame_title`: an online title exactly for the tile map,
   * naming the layer when one is selected; the plot's title says why the
   * tiles are missing, the internet first.
   */
  function FrameTitle(useRealMap: bool, layer: string, internet: bool, libraryAvailable: bool): (r: string)
    ensures OnlineTitle(r) <==> useRealMap
    ensures r == PlotOffline <==> !useRealMap && !internet
    ensures r == PlotNoLibrary <==> !useRealMap && internet && !libraryAvailable
  {
    PlotTitlesOffline();
    if useRealMap then
      if layer != "" then
        EndsWithAppend("Map Visualization (" + layer + " - ", "Online)");
        "Map Visualization (" + layer + " - " + "Online)"
      else
        EndsWithAppend("Map Visualization (", "Online)");
        "Map Visualization (" + "Online)"
    else if !internet then PlotOffline
    else if !libraryAvailable then PlotNoLibrary
    else PlotBare
  }

  /**
   * The map is created one second after start-up, while the reachability
   * check runs on its own thread with a ten-second timeout. When the check
   * has finished by then, the title says "Online" exactly when the tile map
   * is shown, and a plot that replaced a tile map that failed to build, with
   * library and internet both present, carries no explanation. When it has
   * not, both flags still hold their initial `False`: the plot is built and
   * titled as offline whatever the check later finds.
   */
  lemma TitleAfterStartup(checkFinished: bool, libraryAvailable: bool, status: Option<int>, tileMapFails: bool, layer: string)
    ensures var internet := checkFinished && InternetAvailable(status);
      var started := InitializeMap(checkFinished && UseRealMap(libraryAvailable, internet), tileMapFails);
      OnlineTitle(FrameTitle(started.1, layer, internet, libraryAvailable)) <==> started.0 == TileMap
    ensures checkFinished && libraryAvailable && status == Some(200) && tileMapFails ==>
      FrameTitle(InitializeMap(true, true).1, layer, true, true) == PlotBare
    ensures !checkFinished ==>
      InitializeMap(false, tileMapFails).0 == CoordinatePlot &&
      FrameTitle(InitializeMap(false, tileMapFails).1, layer, false, libraryAvailable) == PlotOffline
  {
  }

  // ---------------------------------------------------------------------
  // Markers
  // ---------------------------------------------------------------------

  datatype Marker = Marker(lat: real, lon: real, text: Value, colour: string)

  /** The local device's marker colour. */
  const LocalColour := "#6B46C1"

  /** The local device's marker, first on the map. */
  function LocalMarker(lat: real, lon: real, name: string): Marker {
    Marker(lat, lon, Str(name + " (You)"), LocalColour)
  }

  function Battery(node: Entries): Value {
    Get(Sub(node, "deviceMetrics"), "batteryLevel", Int(0))
  }

  /**
   * A remote marker's colour from `deviceMetrics.batteryLevel`, taken as 0
   * when missing. A `deviceMetrics` that is not a dictionary has no `.get`,
   * and a reading that is not a number makes the comparison raise; both
   * give `None`.
   */
  function MarkerColour(node: Entries): (r: Option<string>)
    ensures r.Some? <==> GetDict(node, "deviceMetrics").Some? && Number(Battery(node)).Some?
    ensures r == Some("green") <==>
      GetDict(node, "deviceMetrics").Some? && Number(Battery(node)).Some? && Number(Battery(node)).value > 75.0
    ensures r == Some("red") <==>
      GetDict(node, "deviceMetrics").Some? && Number(Battery(node)).Some? && Number(Battery(node)).value <= 25.0
    ensures GetDict(node, "deviceMetrics").Some? && !Has(Sub(node, "deviceMetrics"), "batteryLevel") ==> r == Some("red")
  {
    if GetDict(node, "deviceMetrics").None? then None
    else match Number(Battery(node))
      case Some(level) => Some(NetworkView.LevelColour(level))
      case None => None
  }

  /**
   * The map and the network view colour a battery reading alike; they
   * differ only for a node without one, red on the map and gray in the
   * network view. A `deviceMetrics` that is not a dictionary raises in both.
   */
  lemma MarkerColourAgrees(node: Entries, id: string, net: NetworkView.Network, at: (real, real))
    ensures GetDict(node, "deviceMetrics").Some? && Has(Sub(node, "deviceMetrics"), "batteryLevel") && Battery(node) != Str("N/A") ==>
      MarkerColour(node) == NetworkView.BatteryColour(Battery(node))
    ensures GetDict(node, "deviceMetrics").Some? && !Has(Sub(node, "deviceMetrics"), "batteryLevel") ==>
      MarkerColour(node) == Some("red") &&
      NetworkView.BatteryColour(Get(Sub(node, "deviceMetrics"), "batteryLevel", Str("N/A"))) == Some("gray")
    ensures GetDict(node, "deviceMetrics").None? ==>
      MarkerColour(node).None? && NetworkView.AddRemote(net, id, Dict(node), at) == (net, false)
  {
  }

  /** What one remote node contributes: nothing, a marker, or an exception that ends the update. */
  datatype Step = Skip | Raise | Place(m: Marker)

  /**
   * `'latitude' in position and 'longitude' in position` on
   * `node.get('position', {})`, or `None` when the test raises. A string
   * or a list answers it too (by substring or membership) and raises only
   * later, at `position['latitude']`.
   */
  function PositionTest(node: Entries): Option<bool> {
    var position := Get(node, "position", Dict([]));
    match In("latitude", position)
    case None => None
    case Some(false) => Some(false)
    case Some(true) => In("longitude", position)
  }

  /** The node's `position` is a dictionary holding a latitude and a longitude. */
  predicate Positioned(node: Entries) {
    GetDict(node, "position").Some? && Has(Sub(node, "position"), "latitude") && Has(Sub(node, "position"), "longitude")
  }

  /** The node is a dictionary whose position test answers no: it is skipped. */
  predicate Unpositioned(node: Value) {
    node.Dict? && PositionTest(node.entries) == Some(false)
  }

  /** `name[:4]` on the plot's short labels; only strings and lists can be sliced. */
  function FirstFour(v: Value): Option<Value> {
    match v
    case Str(s) => Some(Str(if |s| <= 4 then s else s[..4]))
    case List(items) => Some(List(if |items| <= 4 then items else items[..4]))
    case _ => None
  }

  /**
   * A remote node's marker. The tile map labels it with the long name
   * (`Node <id>` when missing), the plot with the first four characters of
   * the short name (`N<id>` when missing). A node, `user` or
   * `deviceMetrics` that is not a dictionary raises at its `.get`, and a
   * `position` that is not one raises at the position test or at
   * `position['latitude']`.
   */
  function RemoteMarker(id: string, node: Value, plot: bool): (r: Step)
    ensures r.Skip? <==> Unpositioned(node)
    ensures r.Place? ==> node.Dict? && Positioned(node.entries)
    ensures r.Place? ==> r.m.colour in {"green", "orange", "red"}
    ensures r.Place? ==>
      Some(r.m.lat) == Number(Get(Sub(node.entries, "position"), "latitude", Null)) &&
      Some(r.m.lon) == Number(Get(Sub(node.entries, "position"), "longitude", Null))
    ensures node.Dict? && Positioned(node.entries) && MarkerColour(node.entries).None? ==> r.Raise?
    ensures node.Dict? && Positioned(node.entries) && GetDict(node.entries, "user").None? ==> r.Raise?
  {
    if !node.Dict? then Raise
    else match PositionTest(node.entries)
      case None => Raise
      case Some(false) => Skip
      case Some(true) =>
        var position, user := GetDict(node.entries, "position"), GetDict(node.entries, "user");
        if position.None? || user.None? then Raise
        else
          var shown :=
            if plot then FirstFour(Get(user.value, "shortName", Str("N" + id)))
            else Some(Get(user.value, "longName", Str("Node " + id)));
          match (Number(Get(position.value, "latitude", Null)), Number(Get(position.value, "longitude", Null)),
                 MarkerColour(node.entries), shown)
          case (Some(lat), Some(lon), Some(colour), Some(l)) => Place(Marker(lat, lon, l, colour))
          case _ => Raise
  }

  /** Each node's step, in the adapter's node order. */
  function Steps(nodes: seq<(string, Value)>, plot: bool): (r: seq<Step>)
    ensures |r| == |nodes|
    ensures forall i :: 0 <= i < |nodes| ==> r[i] == RemoteMarker(nodes[i].0, nodes[i].1, plot)
  {
    seq(|nodes|, i requires 0 <= i < |nodes| => RemoteMarker(nodes[i].0, nodes[i].1, plot))
  }

  /** The placed markers in order, or `None` as soon as one step raises. */
  function Collect(steps: seq<Step>): (r: Option<seq<Marker>>)
    ensures r.None? <==> Raise in steps
  {
    if |steps| == 0 then Some([])
    else
      var init := steps[..|steps| - 1];
      assert steps == init + [steps[|steps| - 1]];
      match Collect(init)
      case None => None
      case Some(ms) =>
        match steps[|steps| - 1]
        case Raise => None
        case Skip => Some(ms)
        case Place(m) => Some(ms + [m])
  }

  /** The markers are exactly those the steps place. */
  lemma {:induction false} CollectPlaced(steps: seq<Step>)
    requires Collect(steps).Some?
    ensures forall m :: m in Collect(steps).value <==> Place(m) in steps
    decreases |steps|
  {
    if |steps| > 0 {
      var init := steps[..|steps| - 1];
      assert steps == init + [steps[|steps| - 1]];
      CollectPlaced(init);
    }
  }

  /** The remote markers in node order, or `None` when one of them raises. */
  function RemoteMarkers(nodes: seq<(string, Value)>, plot: bool): (r: Option<seq<Marker>>)
    ensures r.None? <==> exists i :: 0 <= i < |nodes| && Steps(nodes, plot)[i].Raise?
  {
    Collect(Steps(nodes, plot))
  }

  /** A marker is on the map exactly when some node with a position places it. */
  lemma RemoteMarkersPlaced(nodes: seq<(string, Value)>, plot: bool, m: Marker)
    requires RemoteMarkers(nodes, plot).Some?
    ensures m in RemoteMarkers(nodes, plot).value <==>
      exists i :: 0 <= i < |nodes| && RemoteMarker(nodes[i].0, nodes[i].1, plot) == Place(m)
  {
    CollectPlaced(Steps(nodes, plot));
    var steps := Steps(nodes, plot);
    if Place(m) in steps {
      var i :| 0 <= i < |steps| && steps[i] == Place(m);
      assert RemoteMarker(nodes[i].0, nodes[i].1, plot) == Place(m);
    }
  }

  /** Every marker on the map: the local device first (when it has a position), then the remote nodes. */
  function Markers(local: Option<(real, real, string)>, nodes: seq<(string, Value)>, plot: bool): (r: Option<seq<Marker>>)
    ensures r.Some? <==> RemoteMarkers(nodes, plot).Some?
    ensures r.Some? && local.Some? ==> |r.value| > 0 && r.value[0] == LocalMarker(local.value.0, local.value.1, local.value.2)
    ensures r.Some? && local.None? ==> r.value == RemoteMarkers(nodes, plot).value
    ensures r.Some? ==> |r.value| == (if local.Some? then 1 else 0) + |RemoteMarkers(nodes, plot).value|
  {
    match RemoteMarkers(nodes, plot)
    case None => None
    case Some(ms) =>
      match local
      case Some((lat, lon, name)) => Some([LocalMarker(lat, lon, name)] + ms)
      case None => Some(ms)
  }

  /** When every node is a dictionary without a position, only the local device is drawn. */
  lemma UnpositionedNotDrawn(nodes: seq<(string, Value)>, plot: bool)
    requires forall i :: 0 <= i < |nodes| ==> Unpositioned(nodes[i].1)
    ensures RemoteMarkers(nodes, plot) == Some([])
  {
    var steps := Steps(nodes, plot);
    assert forall i :: 0 <= i < |steps| ==> steps[i] == Skip;
    AllSkipped(steps);
  }

  lemma {:induction false} AllSkipped(steps: seq<Step>)
    requires forall i :: 0 <= i < |steps| ==> steps[i] == Skip
    ensures Collect(steps) == Some([])
    decreases |steps|
  {
    if |steps| > 0 {
      AllSkipped(steps[..|steps| - 1]);
    }
  }

  // ---------------------------------------------------------------------
  // Fitting the tile map
  // ---------------------------------------------------------------------

  /** The zoom for the larger of the latitude and longitude spans, in degrees. */
  function Zoom(range: real): (z: int)
    ensures z == 8 <==> range > 1.0
    ensures z == 12 <==> 0.1 < range <= 1.0
    ensures z == 15 <==> 0.01 < range <= 0.1
    ensures z == 17 <==> range <= 0.01
  {
    if range > 1.0 then 8
    else if range > 0.1 then 12
    else if range > 0.01 then 15
    else 17
  }

  /** Markers further apart never get a closer zoom. */
  lemma ZoomMonotone(a: real, b: real)
    requires a <= b
    ensures Zoom(b) <= Zoom(a)
  {
  }

  function Lats(ms: seq<Marker>): (r: seq<real>)
    ensures |r| == |ms| && forall i :: 0 <= i < |ms| ==> r[i] == ms[i].lat
  {
    seq(|ms|, i requires 0 <= i < |ms| => ms[i].lat)
  }

  function Lons(ms: seq<Marker>): (r: seq<real>)
    ensures |r| == |ms| && forall i :: 0 <= i < |ms| ==> r[i] == ms[i].lon
  {
    seq(|ms|, i requires 0 <= i < |ms| => ms[i].lon)
  }

  function Span(xs: seq<real>): (r: real)
    requires |xs| > 0
    ensures r >= 0.0
  {
    RealSeq.Max(xs) - RealSeq.Min(xs)
  }

  datatype View = View(lat: real, lon: real, zoom: int)

  /** Centre on the mean position and zoom to the larger span. */
  function FitView(ms: seq<Marker>): View
    requires |ms| > 0
  {
    var lats, lons := Lats(ms), Lons(ms);
    View(RealSeq.Mean(lats), RealSeq.Mean(lons), Zoom(if Span(lats) >= Span(lons) then Span(lats) else Span(lons)))
  }

  /** The centre lies inside the markers' bounding box, and a single place gets the closest zoom. */
  lemma FitViewInside(ms: seq<Marker>)
    requires |ms| > 0
    ensures var v := FitView(ms);
      RealSeq.Min(Lats(ms)) <= v.lat <= RealSeq.Max(Lats(ms)) &&
      RealSeq.Min(Lons(ms)) <= v.lon <= RealSeq.Max(Lons(ms))
    ensures (forall i :: 0 <= i < |ms| ==> ms[i].lat == ms[0].lat && ms[i].lon == ms[0].lon) ==>
      FitView(ms) == View(ms[0].lat, ms[0].lon, 17)
  {
    RealSeq.MeanBetween(Lats(ms));
    RealSeq.MeanBetween(Lons(ms));
    if forall i :: 0 <= i < |ms| ==> ms[i].lat == ms[0].lat && ms[i].lon == ms[0].lon {
      RealSeq.MeanConstant(Lats(ms), ms[0].lat);
      RealSeq.MeanConstant(Lons(ms), ms[0].lon);
      SpanConstant(Lats(ms), ms[0].lat);
      SpanConstant(Lons(ms), ms[0].lon);
    }
  }

  lemma SpanConstant(xs: seq<real>, c: real)
    requires |xs| > 0 && forall i :: 0 <= i < |xs| ==> xs[i] == c
    ensures Span(xs) == 0.0
  {
    assert RealSeq.Min(xs) == c;
    assert RealSeq.Max(xs) == c;
  }

  // ---------------------------------------------------------------------
  // The coordinate plot
  // ---------------------------------------------------------------------

  const Margin := 30.0
  const CanvasSize := 400.0

  /**
   * One canvas coordinate: `offset / span` of the way across the inner
   * 340 pixels, or the middle (`400 // 2`) when the axis has no extent.
   */
  function Scale(offset: real, span: real): real {
    if span != 0.0 then Margin + offset / span * (CanvasSize - 2.0 * Margin) else 200.0
  }

  lemma ScaleInside(offset: real, span: real)
    requires 0.0 <= offset <= span
    ensures Margin <= Scale(offset, span) <= CanvasSize - Margin
  {
    if span != 0.0 {
      FractionAtMostOne(offset, span);
    }
  }

  lemma FractionAtMostOne(a: real, b: real)
    requires 0.0 <= a <= b && b > 0.0
    ensures 0.0 <= a / b <= 1.0
  {
    assert a / b * b == a;
  }

  lemma ScaleMonotone(a: real, b: real, span: real)
    requires a <= b && span >= 0.0
    ensures Scale(a, span) <= Scale(b, span)
  {
    if span != 0.0 {
      DivideMonotone(a, b, span);
    }
  }

  lemma DivideMonotone(a: real, b: real, d: real)
    requires a <= b && d > 0.0
    ensures a / d <= b / d
  {
    assert a / d * d == a;
    assert b / d * d == b;
  }

  /** The bounding box grown by a tenth of its larger side on every edge. */
  datatype Box = Box(minLat: real, maxLat: real, minLon: real, maxLon: real)

  function PaddedBox(ms: seq<Marker>): (b: Box)
    requires |ms| > 0
    ensures b.minLat <= RealSeq.Min(Lats(ms)) && RealSeq.Max(Lats(ms)) <= b.maxLat
    ensures b.minLon <= RealSeq.Min(Lons(ms)) && RealSeq.Max(Lons(ms)) <= b.maxLon
  {
    var lats, lons := Lats(ms), Lons(ms);
    var padding := (if Span(lats) >= Span(lons) then Span(lats) else Span(lons)) * 0.1;
    Box(RealSeq.Min(lats) - padding, RealSeq.Max(lats) + padding, RealSeq.Min(lons) - padding, RealSeq.Max(lons) + padding)
  }

  /** Canvas `(x, y)` of a position: east to the right, north up. */
  function Project(b: Box, lat: real, lon: real): (real, real) {
    (X(b, lon), Y(b, lat))
  }

  function X(b: Box, lon: real): real {
    Scale(lon - b.minLon, b.maxLon - b.minLon)
  }

  function Y(b: Box, lat: real): real {
    Scale(b.maxLat - lat, b.maxLat - b.minLat)
  }

  lemma XMonotone(b: Box, a: real, c: real)
    requires b.minLon <= a <= c <= b.maxLon
    ensures X(b, a) <= X(b, c)
  {
    ScaleMonotone(a - b.minLon, c - b.minLon, b.maxLon - b.minLon);
  }

  lemma YMonotone(b: Box, a: real, c: real)
    requires b.minLat <= a <= c <= b.maxLat
    ensures Y(b, c) <= Y(b, a)
  {
    ScaleMonotone(b.maxLat - c, b.maxLat - a, b.maxLat - b.minLat);
  }

  /** `update_coordinate_plot_nodes`: every marker's canvas position, in marker order. */
  function Plot(ms: seq<Marker>): (r: seq<(real, real)>)
    ensures |r| == |ms|
  {
    if |ms| == 0 then []
    else
      var b := PaddedBox(ms);
      seq(|ms|, i requires 0 <= i < |ms| => Project(b, ms[i].lat, ms[i].lon))
  }

  lemma PlotAt(ms: seq<Marker>, i: int)
    requires 0 <= i < |ms|
    ensures Plot(ms)[i] == Project(PaddedBox(ms), ms[i].lat, ms[i].lon)
  {
  }

  lemma InBox(ms: seq<Marker>, i: int)
    requires 0 <= i < |ms|
    ensures var b := PaddedBox(ms);
      b.minLat <= ms[i].lat <= b.maxLat && b.minLon <= ms[i].lon <= b.maxLon
  {
    assert Lats(ms)[i] == ms[i].lat && Lons(ms)[i] == ms[i].lon;
  }

  /** Every plotted marker lies within the canvas' 30-pixel margin. */
  lemma PlotInside(ms: seq<Marker>, i: int)
    requires 0 <= i < |ms|
    ensures Margin <= Plot(ms)[i].0 <= CanvasSize - Margin
    ensures Margin <= Plot(ms)[i].1 <= CanvasSize - Margin
  {
    PlotAt(ms, i);
    InBox(ms, i);
    ProjectInside(PaddedBox(ms), ms[i].lat, ms[i].lon);
  }

  lemma ProjectInside(b: Box, lat: real, lon: real)
    requires b.minLat <= lat <= b.maxLat && b.minLon <= lon <= b.maxLon
    ensures var p := Project(b, lat, lon);
      Margin <= p.0 <= CanvasSize - Margin && Margin <= p.1 <= CanvasSize - Margin
  {
    ScaleInside(lon - b.minLon, b.maxLon - b.minLon);
    ScaleInside(b.maxLat - lat, b.maxLat - b.minLat);
  }

  /** Further east is further right. */
  lemma PlotEastIsRight(ms: seq<Marker>, i: int, j: int)
    requires 0 <= i < |ms| && 0 <= j < |ms| && ms[i].lon <= ms[j].lon
    ensures Plot(ms)[i].0 <= Plot(ms)[j].0
  {
    var b := PaddedBox(ms);
    PlotAt(ms, i);
    PlotAt(ms, j);
    InBox(ms, i);
    InBox(ms, j);
    XMonotone(b, ms[i].lon, ms[j].lon);
  }

  /** Further north is higher up (a smaller canvas y). */
  lemma PlotNorthIsUp(ms: seq<Marker>, i: int, j: int)
    requires 0 <= i < |ms| && 0 <= j < |ms| && ms[i].lat <= ms[j].lat
    ensures Plot(ms)[j].1 <= Plot(ms)[i].1
  {
    var b := PaddedBox(ms);
    PlotAt(ms, i);
    PlotAt(ms, j);
    InBox(ms, i);
    InBox(ms, j);
    YMonotone(b, ms[i].lat, ms[j].lat);
  }

  /**
   * Markers that share a latitude are all drawn on the middle row, whether
   * the plot is degenerate (every marker in one place) or only that axis is.
   */
  lemma SameLatitudeMiddleRow(ms: seq<Marker>, i: int)
    requires 0 <= i < |ms|
    requires forall k :: 0 <= k < |ms| ==> ms[k].lat == ms[0].lat
    ensures Plot(ms)[i].1 == 200.0
  {
    var lats, c := Lats(ms), ms[0].lat;
    assert forall k :: 0 <= k < |lats| ==> lats[k] == c;
    assert RealSeq.Min(lats) == c && RealSeq.Max(lats) == c;
    var b := PaddedBox(ms);
    assert b.maxLat - c == c - b.minLat;
    PlotAt(ms, i);
    CentredRow(b, c);
  }

  /** A latitude halfway between the box's edges is drawn on the middle row. */
  lemma CentredRow(b: Box, lat: real)
    requires b.maxLat - lat == lat - b.minLat
    ensures Y(b, lat) == 200.0
  {
    var p := b.maxLat - lat;
    if p != 0.0 {
      assert b.maxLat - b.minLat == 2.0 * p;
      Half(p);
    }
  }

  lemma Half(p: real)
    requires p != 0.0
    ensures Margin + p / (2.0 * p) * (CanvasSize - 2.0 * Margin) == 200.0
  {
    assert p / (2.0 * p) == 0.5;
  }

  // ---------------------------------------------------------------------
  // The distance column
  // ---------------------------------------------------------------------

  /** Metres below one kilometre, kilometres from there on, "N/A" without a distance. */
  datatype Distance = NoDistance | Metres(m: real) | Kilometres(km: real)

  function DistanceCell(km: Option<real>): (r: Distance)
    ensures r.NoDistance? <==> km.None?
    ensures r.Metres? <==> km.Some? && km.value < 1.0
    ensures r.Metres? ==> r.m < 1000.0
    ensures r.Kilometres? ==> r.km >= 1.0
  {
    match km
    case None => NoDistance
    case Some(d) => if d < 1.0 then Metres(d * 1000.0) else Kilometres(d)
  }

  /** The shown figure, read back in kilometres, is the distance computed. */
  lemma DistanceCellRoundTrip(km: real)
    ensures match DistanceCell(Some(km))
      case Metres(m) => m / 1000.0 == km
      case Kilometres(k) => k == km
      case NoDistance => false
  {
  }

  /**
   * A remote node's distance: only when it has a position and the local
   * device has one too. `None` coordinates give no distance. A position
   * test that raises, a `position` that passes the test without being a
   * dictionary, or a coordinate that is neither `None` nor a number makes
   * the row raise (`None`), which drops it.
   */
  function NodeDistance(node: Entries, local: Option<(real, real)>, greatCircle: (real, real, real, real) -> real): (r: Option<Distance>)
    ensures PositionTest(node).None? ==> r.None?
    ensures PositionTest(node) == Some(false) || (PositionTest(node) == Some(true) && local.None?) ==> r == Some(NoDistance)
    ensures r.Some? && r.value != NoDistance ==> Positioned(node) && local.Some?
    ensures r.Some? && r.value.Metres? ==> r.value.m < 1000.0
  {
    match PositionTest(node)
    case None => None
    case Some(false) => Some(NoDistance)
    case Some(true) =>
      if local.None? then Some(NoDistance)
      else match GetDict(node, "position")
        case None => None
        case Some(position) =>
          var lat, lon := Get(position, "latitude", Null), Get(position, "longitude", Null);
          if lat == Null || lon == Null then Some(NoDistance)
          else match (Number(lat), Number(lon))
            case (Some(a), Some(o)) => Some(DistanceCell(Some(greatCircle(local.value.0, local.value.1, a, o))))
            case _ => None
  }

  // ---------------------------------------------------------------------
  // Switching tile layers
  // ---------------------------------------------------------------------

  datatype LayerState = LayerState(hasMap: bool, pending: bool)

  /**
   * `on_layer_changed`: ignored without a tile map or while a switch is
   * still pending; otherwise the layer is applied (`r.1`) and the switch
   * stays pending until `LayerSwitchComplete`, unless applying it raised.
   */
  function LayerChanged(s: LayerState, applyRaises: bool): (r: (LayerState, bool))
    ensures !s.hasMap || s.pending ==> r == (s, false)
    ensures s.hasMap && !s.pending ==> r.1 && r.0.hasMap && (r.0.pending <==> !applyRaises)
  {
    if !s.hasMap || s.pending then (s, false)
    else (LayerState(s.hasMap, !applyRaises), true)
  }

  /** The delayed `_layer_switch_complete`. */
  function LayerSwitchComplete(s: LayerState): (r: LayerState)
    ensures !r.pending && r.hasMap == s.hasMap
  {
    LayerState(s.hasMap, false)
  }

  /**
   * A second request before the first switch completes is dropped; after
   * completion (or a failed apply) the next one is applied.
   */
  lemma {:induction false} LayerSwitchDebounced(s: LayerState, raises1: bool, raises2: bool)
    requires s.hasMap && !s.pending
    ensures var first := LayerChanged(s, raises1);
      first.1 &&
      (!raises1 ==> !LayerChanged(first.0, raises2).1) &&
      (raises1 ==> LayerChanged(first.0, raises2).1) &&
      LayerChanged(LayerSwitchComplete(first.0), raises2).1
  {
    var first := LayerChanged(s, raises1);
    assert first.0.hasMap;
    assert LayerSwitchComplete(first.0).hasMap;
  }
}
