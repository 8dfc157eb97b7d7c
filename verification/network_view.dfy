/**
 * The network view: the node and link tables it builds from the adapter's
 * node list, the colour of a node and the strength of a link, the summary
 * statistics, the connections of one node, and the automatic layout. Where
 * a node's coordinates come from trigonometry (a circle around the local
 * device) they are parameters.
 */
module NetworkView {
  import opened Wrappers
  import opened Values
  import OrderedMap
  import Constants

  // ---------------------------------------------------------------------
  // Colours and link strength
  // ---------------------------------------------------------------------

  /** Green above 75 %, orange above 25 %, red otherwise. */
  function LevelColour(level: real): (r: string)
    ensures r == "green" <==> level > Constants.BatteryHighThreshold as real
    ensures r == "orange" <==> Constants.BatteryLowThreshold as real < level <= Constants.BatteryHighThreshold as real
    ensures r == "red" <==> level <= Constants.BatteryLowThreshold as real
  {
    if level > Constants.BatteryHighThreshold as real then "green"
    else if level > Constants.BatteryLowThreshold as real then "orange"
    else "red"
  }

  function ColourRank(c: string): int {
    if c == "green" then 2 else if c == "orange" then 1 else 0
  }

  /** A fuller battery never gets a worse colour. */
  lemma LevelColourMonotone(a: real, b: real)
    requires a <= b
    ensures ColourRank(LevelColour(a)) <= ColourRank(LevelColour(b))
  {
  }

  /**
   * The node colour: gray without a battery reading ('N/A'), else by level.
   * A reading that is not a number makes the comparison raise (`None`).
   */
  function BatteryColour(battery: Value): (r: Option<string>)
    ensures r == Some("gray") <==> battery == Str("N/A")
    ensures Number(battery).Some? ==> r == Some(LevelColour(Number(battery).value))
    ensures r.None? <==> battery != Str("N/A") && Number(battery).None?
  {
    if battery == Str("N/A") then Some("gray")
    else match Number(battery)
      case Some(x) => Some(LevelColour(x))
      case None => None
  }

  /**
   * A link is 'good' when the node's RSSI is above -80 dBm; a node without
   * one counts as -100 dBm. A reading that is not a number raises (`None`).
   */
  function LinkStrength(node: Entries): (r: Option<string>)
    ensures !Has(node, "rssi") ==> r == Some("poor")
    ensures r == Some("good") <==>
      (Has(node, "rssi") && Number(Get(node, "rssi", Null)).Some? && Number(Get(node, "rssi", Null)).value > Constants.GoodRssi as real)
    ensures r.None? <==> Has(node, "rssi") && Number(Get(node, "rssi", Null)).None?
  {
    match Number(Get(node, "rssi", Int(-100)))
    case Some(x) => Some(if x > Constants.GoodRssi as real then "good" else "poor")
    case None => None
  }

  // ---------------------------------------------------------------------
  // Building the node and link tables
  // ---------------------------------------------------------------------

  datatype NetNode = NetNode(name: Value, colour: string, isLocal: bool, lastSeenKnown: bool, x: real, y: real)
  datatype Link = Link(from: string, to: string, hops: int, rssi: Value, snr: Value, strength: string)
  datatype Network = Network(nodes: seq<(string, NetNode)>, links: seq<(string, Link)>)

  const Local := "LOCAL"
  const CentreX := 300.0
  const CentreY := 200.0

  /** The local device's entry; `name` comes from its GPS position lookup, when that succeeds. */
  function LocalEntry(name: Option<Value>): NetNode {
    NetNode(name.GetOr(Str("Local Device")), "blue", true, true, CentreX, CentreY)
  }

  function LinkKey(id: string): string {
    Local + "-" + id
  }

  /**
   * One remote node of `draw_network`: its entry, then (when the local
   * device is in the table) its link. The first lookup that raises ends the
   * refresh (`false`), keeping what was added before it: a node, `user` or
   * `deviceMetrics` that is not a dictionary raises at once.
   */
  function AddRemote(net: Network, id: string, node: Value, at: (real, real)): (r: (Network, bool))
    ensures forall e :: e in r.0.links ==>
      e in net.links || (e.0 == LinkKey(id) && e.1.from == Local && e.1.to == id && e.1.hops == 1 && id in OrderedMap.Keys(r.0.nodes))
    ensures OrderedMap.Keys(r.0.nodes) == OrderedMap.Keys(net.nodes) ||
      OrderedMap.Keys(r.0.nodes) == (if id in OrderedMap.Keys(net.nodes) then OrderedMap.Keys(net.nodes) else OrderedMap.Keys(net.nodes) + [id])
    ensures r.1 ==>
      id in OrderedMap.Keys(r.0.nodes) && OrderedMap.Keys(r.0.nodes) == (if id in OrderedMap.Keys(net.nodes) then OrderedMap.Keys(net.nodes) else OrderedMap.Keys(net.nodes) + [id])
    ensures r.1 && Local in OrderedMap.Keys(r.0.nodes) ==> LinkKey(id) in OrderedMap.Keys(r.0.links)
    ensures forall k :: k in OrderedMap.Keys(net.links) ==> k in OrderedMap.Keys(r.0.links)
    ensures !node.Dict? || GetDict(node.entries, "user").None? || GetDict(node.entries, "deviceMetrics").None? ==> r == (net, false)
  {
    if !node.Dict? || GetDict(node.entries, "user").None? || GetDict(node.entries, "deviceMetrics").None? then (net, false)
    else
      var entries := node.entries;
      var user := Sub(entries, "user");
      var name := Get(user, "longName", Str("Node " + id));
      var battery := Get(Sub(entries, "deviceMetrics"), "batteryLevel", Str("N/A"));
      var lastHeard := Get(entries, "lastHeard", Str("N/A"));
      match BatteryColour(battery)
      case None => (net, false)
      case Some(colour) =>
        if lastHeard != Str("N/A") && Number(lastHeard).None? then (net, false)
        else
          var nodes := OrderedMap.Put(net.nodes, id, NetNode(name, colour, false, lastHeard != Str("N/A"), at.0, at.1));
          if Local !in OrderedMap.Keys(nodes) then (Network(nodes, net.links), true)
          else match LinkStrength(entries)
            case None => (Network(nodes, net.links), false)
            case Some(strength) =>
              var l := Link(Local, id, 1, Get(entries, "rssi", Str("N/A")), Get(entries, "snr", Str("N/A")), strength);
              OrderedMap.PutEntries(net.links, LinkKey(id), l);
              (Network(nodes, OrderedMap.Put(net.links, LinkKey(id), l)), true)
  }

  /** Every link runs from the local device, one hop, to a node in the table, under its own key. */
  predicate LinksFromLocal(net: Network) {
    forall e :: e in net.links ==>
      e.1.from == Local && e.1.hops == 1 && e.0 == LinkKey(e.1.to) && e.1.to in OrderedMap.Keys(net.nodes)
  }

  /**
   * `draw_network` from the adapter's nodes (ids already rendered with
   * `str()`): the local device when connected, then each remote node in
   * order. The flag is false when a lookup raised part-way.
   */
  function BuildNetwork(connected: bool, localName: Option<Value>, remote: seq<(string, Value)>,
                        place: string -> (real, real)): (r: (Network, bool))
    ensures LinksFromLocal(r.0)
    ensures forall k :: k in OrderedMap.Keys(r.0.nodes) ==> (k == Local && connected) || k in OrderedMap.Keys(remote)
  {
    if |remote| == 0 then
      (Network(if connected then [(Local, LocalEntry(localName))] else [], []), true)
    else
      var init := remote[..|remote| - 1];
      var (net, ok) := BuildNetwork(connected, localName, init, place);
      assert forall k :: k in OrderedMap.Keys(init) ==> k in OrderedMap.Keys(remote);
      if !ok then (net, false)
      else
        var id := remote[|remote| - 1].0;
        OrderedMap.KeysSnoc(remote);
        AddRemoteKeepsLinks(net, id, remote[|remote| - 1].1, place(id));
        AddRemote(net, id, remote[|remote| - 1].1, place(id))
  }

  /** Adding a remote node keeps every link anchored, and adds no node but that one. */
  lemma AddRemoteKeepsLinks(net: Network, id: string, node: Value, at: (real, real))
    requires LinksFromLocal(net)
    ensures LinksFromLocal(AddRemote(net, id, node, at).0)
    ensures forall k :: k in OrderedMap.Keys(AddRemote(net, id, node, at).0.nodes) ==> k in OrderedMap.Keys(net.nodes) || k == id
  {
    var r := AddRemote(net, id, node, at).0;
    var ks, ks' := OrderedMap.Keys(net.nodes), OrderedMap.Keys(r.nodes);
    assert forall k :: k in ks ==> k in ks';
  }

  /** A remote node other than "LOCAL" neither adds nor removes the local device, and adds no link without it. */
  lemma AddRemoteLocal(net: Network, id: string, node: Value, at: (real, real))
    requires id != Local
    ensures var r := AddRemote(net, id, node, at).0;
      (Local in OrderedMap.Keys(r.nodes) <==> Local in OrderedMap.Keys(net.nodes)) &&
      (Local !in OrderedMap.Keys(net.nodes) ==> r.links == net.links)
  {
  }

  /**
   * With no remote id spelled "LOCAL", the local device is in the table
   * exactly when connected, and there are no links while disconnected.
   */
  lemma {:induction false} BuildLocal(connected: bool, localName: Option<Value>, remote: seq<(string, Value)>,
                                      place: string -> (real, real))
    requires forall i :: 0 <= i < |remote| ==> remote[i].0 != Local
    ensures var net := BuildNetwork(connected, localName, remote, place).0;
      (Local in OrderedMap.Keys(net.nodes) <==> connected) && (!connected ==> net.links == [])
    decreases |remote|
  {
    if |remote| > 0 {
      var init := remote[..|remote| - 1];
      assert forall i :: 0 <= i < |init| ==> init[i] == remote[i];
      BuildLocal(connected, localName, init, place);
      var (net, ok) := BuildNetwork(connected, localName, init, place);
      if ok {
        var id := remote[|remote| - 1].0;
        AddRemoteLocal(net, id, remote[|remote| - 1].1, place(id));
      }
    }
  }

  /**
   * A refresh that ran to the end has an entry for every remote node and,
   * when connected, a link to each.
   */
  lemma {:induction false} BuildComplete(connected: bool, localName: Option<Value>, remote: seq<(string, Value)>,
                                         place: string -> (real, real))
    ensures var (net, ok) := BuildNetwork(connected, localName, remote, place);
      ok ==>
        (connected ==> Local in OrderedMap.Keys(net.nodes)) &&
        forall k :: k in OrderedMap.Keys(remote) ==>
          k in OrderedMap.Keys(net.nodes) && (connected ==> LinkKey(k) in OrderedMap.Keys(net.links))
    decreases |remote|
  {
    if |remote| > 0 {
      var init := remote[..|remote| - 1];
      BuildComplete(connected, localName, init, place);
      OrderedMap.KeysSnoc(remote);
    }
  }

  // ---------------------------------------------------------------------
  // Statistics
  // ---------------------------------------------------------------------

  function SumHops(links: seq<(string, Link)>): int {
    if |links| == 0 then 0 else SumHops(links[..|links| - 1]) + links[|links| - 1].1.hops
  }

  /** The hop sum adds up over consecutive stretches of links. */
  lemma {:induction false} SumHopsAppend(a: seq<(string, Link)>, b: seq<(string, Link)>)
    ensures SumHops(a + b) == SumHops(a) + SumHops(b)
    decreases |b|
  {
    if |b| > 0 {
      var init := b[..|b| - 1];
      assert (a + b)[..|a + b| - 1] == a + init;
      assert (a + b)[|a + b| - 1] == b[|b| - 1];
      SumHopsAppend(a, init);
    } else {
      assert a + b == a;
    }
  }

  /** `max(hops, default=0)`. */
  function MaxHops(links: seq<(string, Link)>): (r: int)
    ensures forall i :: 0 <= i < |links| ==> links[i].1.hops <= r
    ensures |links| == 0 ==> r == 0
    ensures |links| > 0 ==> exists i :: 0 <= i < |links| && links[i].1.hops == r
  {
    if |links| == 0 then 0
    else if |links| == 1 then links[0].1.hops
    else
      var m := MaxHops(links[..|links| - 1]);
      var h := links[|links| - 1].1.hops;
      assert forall i :: 0 <= i < |links| - 1 ==> links[..|links| - 1][i] == links[i];
      if h > m then h else m
  }

  lemma {:induction false} SumHopsAtMost(links: seq<(string, Link)>, hi: int)
    requires forall i :: 0 <= i < |links| ==> links[i].1.hops <= hi
    ensures SumHops(links) <= |links| * hi
    decreases |links|
  {
    if |links| > 0 {
      var init := links[..|links| - 1];
      assert forall i :: 0 <= i < |init| ==> init[i] == links[i];
      SumHopsAtMost(init, hi);
      assert |links| * hi == |init| * hi + hi;
    }
  }

  lemma {:induction false} SumHopsConstant(links: seq<(string, Link)>, c: int)
    requires forall i :: 0 <= i < |links| ==> links[i].1.hops == c
    ensures SumHops(links) == |links| * c
    decreases |links|
  {
    if |links| > 0 {
      var init := links[..|links| - 1];
      assert forall i :: 0 <= i < |init| ==> init[i] == links[i];
      SumHopsConstant(init, c);
    }
  }

  /** A node counts as active when it is the local device or has been heard from. */
  predicate ActiveNode(n: NetNode) {
    n.isLocal || n.lastSeenKnown
  }

  /** The number of active nodes: all of them when every node is active, none when none is. */
  function CountActive(nodes: seq<(string, NetNode)>): (r: nat)
    ensures r <= |nodes|
    ensures r == |nodes| <==> forall i :: 0 <= i < |nodes| ==> ActiveNode(nodes[i].1)
    ensures r == 0 <==> forall i :: 0 <= i < |nodes| ==> !ActiveNode(nodes[i].1)
  {
    if |nodes| == 0 then 0
    else
      var init := nodes[..|nodes| - 1];
      assert forall i :: 0 <= i < |init| ==> init[i] == nodes[i];
      CountActive(init) + (if ActiveNode(nodes[|nodes| - 1].1) then 1 else 0)
  }

  /** The active count adds up over consecutive stretches of the node table. */
  lemma {:induction false} CountActiveAppend(a: seq<(string, NetNode)>, b: seq<(string, NetNode)>)
    ensures CountActive(a + b) == CountActive(a) + CountActive(b)
    decreases |b|
  {
    if |b| > 0 {
      var init := b[..|b| - 1];
      assert (a + b)[..|a + b| - 1] == a + init;
      assert (a + b)[|a + b| - 1] == b[|b| - 1];
      CountActiveAppend(a, init);
    } else {
      assert a + b == a;
    }
  }

  datatype Stats = Stats(totalNodes: nat, activeNodes: nat, totalLinks: nat, averageHops: real, diameter: int)

  /**
   * `update_network_statistics`: the totals, the number of active nodes,
   * the mean hop count over the links and the largest one.
   */
  function Statistics(net: Network): (r: Stats)
    ensures r.totalNodes == |net.nodes| && r.totalLinks == |net.links|
    ensures r.activeNodes == CountActive(net.nodes) && r.activeNodes <= r.totalNodes
    ensures net.links != [] ==> r.averageHops == Mean(SumHops(net.links), |net.links|)
    ensures net.links == [] ==> r.averageHops == 0.0 && r.diameter == 0
    ensures forall i :: 0 <= i < |net.links| ==> net.links[i].1.hops <= r.diameter
    ensures net.links != [] ==> r.averageHops <= r.diameter as real
    ensures net.links != [] ==> exists i :: 0 <= i < |net.links| && net.links[i].1.hops == r.diameter
  {
    var n := |net.links|;
    if n == 0 then Stats(|net.nodes|, CountActive(net.nodes), 0, 0.0, 0)
    else
      AverageAtMostMax(net.links);
      Stats(|net.nodes|, CountActive(net.nodes), n, Mean(SumHops(net.links), n), MaxHops(net.links))
  }

  /** Python's true division of a total by a positive count. */
  function Mean(total: int, n: nat): (r: real)
    requires n > 0
    ensures r * (n as real) == total as real
  {
    MeanTimesCount(total as real, n as real);
    total as real / n as real
  }

  lemma DivideAtMost(s: int, n: int, d: int)
    requires n > 0 && s <= n * d
    ensures s as real / n as real <= d as real
  {
    var a, x, y := s as real, n as real, d as real;
    assert (n * d) as real == x * y;
    assert a <= x * y;
    assert a / x * x == a;
    assert a / x <= y;
  }

  lemma MeanTimesCount(total: real, n: real)
    requires n > 0.0
    ensures total / n * n == total
  {
  }

  lemma SelfDivide(x: real)
    requires x > 0.0
    ensures x / x == 1.0
  {
  }

  lemma AverageAtMostMax(links: seq<(string, Link)>)
    requires |links| > 0
    ensures SumHops(links) as real / |links| as real <= MaxHops(links) as real
  {
    var m := MaxHops(links);
    var total := SumHops(links);
    SumHopsAtMost(links, m);
    DivideAtMost(total, |links|, m);
  }

  /** In a network as drawn, every link is one hop: the average and the diameter are both 1. */
  lemma BuiltStatistics(connected: bool, localName: Option<Value>, remote: seq<(string, Value)>, place: string -> (real, real))
    requires BuildNetwork(connected, localName, remote, place).0.links != []
    ensures var s := Statistics(BuildNetwork(connected, localName, remote, place).0);
      s.averageHops == 1.0 && s.diameter == 1
  {
    var net := BuildNetwork(connected, localName, remote, place).0;
    var n := |net.links|;
    assert forall i :: 0 <= i < n ==> net.links[i] in net.links;
    SumHopsConstant(net.links, 1);
    assert MaxHops(net.links) == 1;
    var x := n as real;
    assert SumHops(net.links) as real == x;
    SelfDivide(x);
  }

  // ---------------------------------------------------------------------
  // Connections of one node
  // ---------------------------------------------------------------------

  datatype ConnectionRow = ConnectionRow(target: Value, hops: int, rssi: Value, snr: Value)

  predicate Touches(l: Link, id: string) {
    l.from == id || l.to == id
  }

  /** `network_nodes.get(target, {}).get('name', target)`. */
  function TargetName(nodes: seq<(string, NetNode)>, target: string): Value {
    match OrderedMap.Lookup(nodes, target)
    case Some(n) => n.name
    case None => Str(target)
  }

  /** The row a link touching `id` contributes: its other end's name, its hops and signal. */
  function RowOf(nodes: seq<(string, NetNode)>, l: Link, id: string): ConnectionRow {
    ConnectionRow(TargetName(nodes, if l.from == id then l.to else l.from), l.hops, l.rssi, l.snr)
  }

  /**
   * `update_connections_tree`: the links at either end of `id`, in order,
   * named by their other end; every link touching `id` gives its row and
   * no other link gives one.
   */
  function ConnectionsOf(net: Network, links: seq<(string, Link)>, id: string): (r: seq<ConnectionRow>)
    ensures |r| <= |links|
    ensures forall c :: c in r ==>
      exists i :: 0 <= i < |links| && Touches(links[i].1, id) && c == RowOf(net.nodes, links[i].1, id)
    ensures forall i :: 0 <= i < |links| && Touches(links[i].1, id) ==> RowOf(net.nodes, links[i].1, id) in r
  {
    if |links| == 0 then []
    else
      var init := links[..|links| - 1];
      var l := links[|links| - 1].1;
      assert forall i :: 0 <= i < |init| ==> init[i] == links[i];
      var rest := ConnectionsOf(net, init, id);
      if Touches(l, id) then rest + [RowOf(net.nodes, l, id)]
      else rest
  }

  /** There is a row per link exactly when every link touches the node. */
  lemma {:induction false} ConnectionsOfAll(net: Network, links: seq<(string, Link)>, id: string)
    ensures (forall i :: 0 <= i < |links| ==> Touches(links[i].1, id)) <==> |ConnectionsOf(net, links, id)| == |links|
  {
    if |links| > 0 {
      var init := links[..|links| - 1];
      var l := links[|links| - 1].1;
      var rest := ConnectionsOf(net, init, id);
      assert forall i :: 0 <= i < |init| ==> init[i] == links[i];
      ConnectionsOfAll(net, init, id);
      if Touches(l, id) {
        assert |ConnectionsOf(net, links, id)| == |rest| + 1;
      } else {
        assert ConnectionsOf(net, links, id) == rest;
        assert !Touches(links[|links| - 1].1, id);
      }
    }
  }

  /** There is no row exactly when no link touches the node. */
  lemma {:induction false} ConnectionsOfNone(net: Network, links: seq<(string, Link)>, id: string)
    ensures (forall i :: 0 <= i < |links| ==> !Touches(links[i].1, id)) <==> ConnectionsOf(net, links, id) == []
  {
    if |links| > 0 {
      var init := links[..|links| - 1];
      var l := links[|links| - 1].1;
      assert forall i :: 0 <= i < |init| ==> init[i] == links[i];
      ConnectionsOfNone(net, init, id);
      if Touches(l, id) {
        assert ConnectionsOf(net, links, id) != [];
        assert Touches(links[|links| - 1].1, id);
      } else {
        assert ConnectionsOf(net, links, id) == ConnectionsOf(net, init, id);
      }
    }
  }

  /** The rows keep link order: those of earlier links come before those of later ones. */
  lemma {:induction false} ConnectionsOfAppend(net: Network, a: seq<(string, Link)>, b: seq<(string, Link)>, id: string)
    ensures ConnectionsOf(net, a + b, id) == ConnectionsOf(net, a, id) + ConnectionsOf(net, b, id)
    decreases |b|
  {
    if |b| > 0 {
      var init := b[..|b| - 1];
      assert (a + b)[..|a + b| - 1] == a + init;
      assert (a + b)[|a + b| - 1] == b[|b| - 1];
      ConnectionsOfAppend(net, a, init, id);
    } else {
      assert a + b == a;
    }
  }

  /** In a network as drawn, the local device is connected to every linked node, each one hop away. */
  lemma LocalSeesEveryLink(connected: bool, localName: Option<Value>, remote: seq<(string, Value)>, place: string -> (real, real))
    ensures var net := BuildNetwork(connected, localName, remote, place).0;
      |ConnectionsOf(net, net.links, Local)| == |net.links| &&
      forall c :: c in ConnectionsOf(net, net.links, Local) ==> c.hops == 1
  {
    var net := BuildNetwork(connected, localName, remote, place).0;
    ConnectionsOfAll(net, net.links, Local);
  }

  // ---------------------------------------------------------------------
  // Automatic layout
  // ---------------------------------------------------------------------

  function CountRemote(nodes: seq<(string, NetNode)>): nat {
    if |nodes| == 0 then 0 else (if nodes[0].0 == Local then 0 else 1) + CountRemote(nodes[1..])
  }

  /** Place the nodes from index `k` on among `n` remote slots; the local device goes to the centre. */
  function Place(nodes: seq<(string, NetNode)>, k: nat, n: nat, circle: (nat, nat) -> (real, real)): (r: seq<(string, NetNode)>)
    ensures |r| == |nodes|
    ensures forall i :: 0 <= i < |nodes| ==>
      r[i].0 == nodes[i].0 && r[i].1 == nodes[i].1.(x := r[i].1.x, y := r[i].1.y)
    ensures forall i :: 0 <= i < |nodes| && nodes[i].0 == Local ==> r[i].1.x == CentreX && r[i].1.y == CentreY
  {
    if |nodes| == 0 then []
    else
      var (id, nd) := nodes[0];
      var rest := Place(nodes[1..], if id == Local then k else k + 1, n, circle);
      var at := if id == Local then (CentreX, CentreY) else circle(k, n);
      [(id, nd.(x := at.0, y := at.1))] + rest
  }

  /**
   * `auto_layout_network`: the local device at the centre and the other
   * nodes evenly round a circle in table order; the set of nodes, their
   * other attributes and the links do not change.
   */
  function AutoLayout(net: Network, circle: (nat, nat) -> (real, real)): (r: Network)
    ensures r.links == net.links
    ensures OrderedMap.Keys(r.nodes) == OrderedMap.Keys(net.nodes)
    ensures forall i :: 0 <= i < |net.nodes| ==> r.nodes[i].1 == net.nodes[i].1.(x := r.nodes[i].1.x, y := r.nodes[i].1.y)
    ensures forall i :: 0 <= i < |net.nodes| && net.nodes[i].0 == Local ==> r.nodes[i].1.x == CentreX && r.nodes[i].1.y == CentreY
  {
    if |net.nodes| == 0 then net
    else Network(Place(net.nodes, 0, CountRemote(net.nodes), circle), net.links)
  }

  /** Where a node lands depends only on the keys, so laying out twice is laying out once. */
  lemma {:induction false} PlaceTwice(nodes: seq<(string, NetNode)>, k: nat, n: nat, circle: (nat, nat) -> (real, real))
    ensures Place(Place(nodes, k, n, circle), k, n, circle) == Place(nodes, k, n, circle)
    decreases |nodes|
  {
    if |nodes| > 0 {
      var p := Place(nodes, k, n, circle);
      assert p[1..] == Place(nodes[1..], if nodes[0].0 == Local then k else k + 1, n, circle);
      PlaceTwice(nodes[1..], if nodes[0].0 == Local then k else k + 1, n, circle);
    }
  }

  lemma {:induction false} CountRemoteKeys(a: seq<(string, NetNode)>, b: seq<(string, NetNode)>)
    requires OrderedMap.Keys(a) == OrderedMap.Keys(b)
    ensures CountRemote(a) == CountRemote(b)
    decreases |a|
  {
    if |a| > 0 {
      assert OrderedMap.Keys(a[1..]) == OrderedMap.Keys(a)[1..];
      assert OrderedMap.Keys(b[1..]) == OrderedMap.Keys(b)[1..];
      CountRemoteKeys(a[1..], b[1..]);
    }
  }

  lemma AutoLayoutIdempotent(net: Network, circle: (nat, nat) -> (real, real))
    ensures AutoLayout(AutoLayout(net, circle), circle) == AutoLayout(net, circle)
  {
    if |net.nodes| > 0 {
      var once := AutoLayout(net, circle);
      CountRemoteKeys(once.nodes, net.nodes);
      PlaceTwice(net.nodes, 0, CountRemote(net.nodes), circle);
    }
  }
}
