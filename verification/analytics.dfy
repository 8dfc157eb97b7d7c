/**
 * The analytics view's computations: the average battery level over the
 * adapter's node list, the hours behind each time-range choice, and the
 * split of nodes into active and inactive for the health chart. The chart
 * drawing and the SQL behind the charts are not modelled.
 */
module Analytics {
  import opened Wrappers
  import opened Values
  import OrderedMap
  import RealSeq
  import Constants

  // ---------------------------------------------------------------------
  // Average battery level
  // ---------------------------------------------------------------------

  /**
   * A node's `deviceMetrics.batteryLevel`, `Null` when missing. When the
   * node or its `deviceMetrics` is not a dictionary, `.get` raises (`None`).
   */
  function Reported(node: Value): (r: Option<Value>)
    ensures r.None? <==> !node.Dict? || GetDict(node.entries, "deviceMetrics").None?
    ensures r.Some? ==> r.value == Get(Sub(node.entries, "deviceMetrics"), "batteryLevel", Null)
  {
    if !node.Dict? then None
    else match GetDict(node.entries, "deviceMetrics")
      case None => None
      case Some(metrics) => Some(Get(metrics, "batteryLevel", Null))
  }

  /** Each node's reported battery level, in node order. */
  function Levels(nodes: seq<(string, Value)>): (ls: seq<Option<Value>>)
    ensures |ls| == |nodes|
    ensures forall i :: 0 <= i < |nodes| ==> ls[i] == Reported(nodes[i].1)
  {
    seq(|nodes|, i requires 0 <= i < |nodes| => Reported(nodes[i].1))
  }

  /** A level the running sum can take: read without raising, and missing (`Null`) or a number. */
  predicate Readable(level: Option<Value>) {
    level.Some? && (level.value == Null || Number(level.value).Some?)
  }

  /**
   * The numbers among `levels`, in order, skipping `Null`. A level that
   * raised, or that is not a number, makes the running sum raise (`None`).
   */
  function ReadingsOf(levels: seq<Option<Value>>): (r: Option<seq<real>>)
    ensures r.Some? <==> forall i :: 0 <= i < |levels| ==> Readable(levels[i])
    ensures r.Some? ==> |r.value| <= |levels|
  {
    if |levels| == 0 then Some([])
    else
      var init := levels[..|levels| - 1];
      assert forall i :: 0 <= i < |init| ==> init[i] == levels[i];
      var v := levels[|levels| - 1];
      match ReadingsOf(init)
      case None => None
      case Some(xs) =>
        if v.None? then None
        else if v.value == Null then Some(xs)
        else match Number(v.value)
          case Some(x) => Some(xs + [x])
          case None => None
  }

  /**
   * The battery readings in node order, skipping nodes that report none.
   * A node or `deviceMetrics` that is not a dictionary, or a reading that
   * is not a number, makes the loop raise (`None`).
   */
  function Readings(nodes: seq<(string, Value)>): (r: Option<seq<real>>)
    ensures r.Some? <==> forall i :: 0 <= i < |nodes| ==> Readable(Reported(nodes[i].1))
    ensures r.Some? ==> |r.value| <= |nodes|
  {
    ReadingsOf(Levels(nodes))
  }

  /** Every reading is one of the levels. */
  lemma {:induction false} ReadingsOfAreLevels(levels: seq<Option<Value>>)
    requires ReadingsOf(levels).Some?
    ensures forall x :: x in ReadingsOf(levels).value ==> exists i :: 0 <= i < |levels| && levels[i].Some? && Number(levels[i].value) == Some(x)
    decreases |levels|
  {
    if |levels| > 0 {
      var init := levels[..|levels| - 1];
      assert forall i :: 0 <= i < |init| ==> init[i] == levels[i];
      ReadingsOfAreLevels(init);
      var last := |levels| - 1;
      forall x | x in ReadingsOf(levels).value
        ensures exists i :: 0 <= i < |levels| && levels[i].Some? && Number(levels[i].value) == Some(x)
      {
        if x !in ReadingsOf(init).value {
          assert levels[last].Some? && Number(levels[last].value) == Some(x);
        }
      }
    }
  }

  /** Every reading is the level some node reported. */
  lemma ReadingsAreLevels(nodes: seq<(string, Value)>)
    requires Readings(nodes).Some?
    ensures forall x :: x in Readings(nodes).value ==>
      exists i :: 0 <= i < |nodes| && Reported(nodes[i].1).Some? && Number(Reported(nodes[i].1).value) == Some(x)
  {
    ReadingsOfAreLevels(Levels(nodes));
  }

  /**
   * `calculate_average_battery`: `None` with no nodes, no readings, or a
   * reading that raises; otherwise the mean of the readings.
   */
  function AverageBattery(nodes: seq<(string, Value)>): (r: Option<real>)
    ensures |nodes| == 0 ==> r.None?
    ensures r.Some? <==> Readings(nodes).Some? && |Readings(nodes).value| > 0
  {
    match Readings(nodes)
    case Some(xs) => if |xs| > 0 then Some(RealSeq.Mean(xs)) else None
    case None => None
  }

  /** The average lies between the lowest and the highest reading. */
  lemma AverageBetweenReadings(nodes: seq<(string, Value)>)
    ensures AverageBattery(nodes).Some? ==>
      var xs := Readings(nodes).value;
      RealSeq.Min(xs) <= AverageBattery(nodes).value <= RealSeq.Max(xs)
  {
    if AverageBattery(nodes).Some? {
      RealSeq.MeanBetween(Readings(nodes).value);
    }
  }

  /** A node that reports no battery level leaves the average as it was. */
  lemma AverageIgnoresUnreported(nodes: seq<(string, Value)>, id: string, node: Value)
    requires |nodes| > 0 && Reported(node) == Some(Null)
    ensures AverageBattery(nodes + [(id, node)]) == AverageBattery(nodes)
  {
    var all := nodes + [(id, node)];
    var ls := Levels(all);
    assert ls[..|ls| - 1] == Levels(nodes);
    assert ls[|ls| - 1] == Some(Null);
  }

  /**
   * A node whose `deviceMetrics` is `None` makes the whole average raise,
   * even beside a node that reports a level.
   */
  lemma NullMetricsGiveNoAverage()
    ensures AverageBattery([("a", Dict([("deviceMetrics", Null)])),
                            ("b", Dict([("deviceMetrics", Dict([("batteryLevel", Int(50))]))]))]) == None
  {
    var nodes := [("a", Dict([("deviceMetrics", Null)])),
                  ("b", Dict([("deviceMetrics", Dict([("batteryLevel", Int(50))]))]))];
    assert GetDict(nodes[0].1.entries, "deviceMetrics") == None;
    assert !Readable(Reported(nodes[0].1));
  }

  /** Nodes all reporting the same level average to that level. */
  lemma AverageOfEqualReadings(nodes: seq<(string, Value)>, level: int)
    requires |nodes| > 0
    requires forall i :: 0 <= i < |nodes| ==> Reported(nodes[i].1) == Some(Int(level))
    ensures AverageBattery(nodes) == Some(level as real)
  {
    var ls := Levels(nodes);
    ReadingsOfConstant(ls, level);
    RealSeq.MeanConstant(Readings(nodes).value, level as real);
  }

  /** Levels that are all the same integer read as that many copies of it. */
  lemma {:induction false} ReadingsOfConstant(levels: seq<Option<Value>>, level: int)
    requires forall i :: 0 <= i < |levels| ==> levels[i] == Some(Int(level))
    ensures ReadingsOf(levels).Some? && |ReadingsOf(levels).value| == |levels|
    ensures forall i :: 0 <= i < |levels| ==> ReadingsOf(levels).value[i] == level as real
    decreases |levels|
  {
    if |levels| > 0 {
      var init := levels[..|levels| - 1];
      assert forall i :: 0 <= i < |init| ==> init[i] == levels[i];
      ReadingsOfConstant(init, level);
    }
  }

  /** When every level is a number, there is one reading per level. */
  lemma {:induction false} ReadingsOfCount(levels: seq<Option<Value>>)
    requires forall i :: 0 <= i < |levels| ==> levels[i].Some? && levels[i].value != Null && Number(levels[i].value).Some?
    ensures ReadingsOf(levels).Some? && |ReadingsOf(levels).value| == |levels|
    decreases |levels|
  {
    if |levels| > 0 {
      var init := levels[..|levels| - 1];
      assert forall i :: 0 <= i < |init| ==> init[i] == levels[i];
      ReadingsOfCount(init);
    }
  }

  /** When every node reports a number, there is one reading per node. */
  lemma ReadingsCount(nodes: seq<(string, Value)>)
    requires forall i :: 0 <= i < |nodes| ==>
      Reported(nodes[i].1).Some? && Reported(nodes[i].1).value != Null && Number(Reported(nodes[i].1).value).Some?
    ensures Readings(nodes).Some? && |Readings(nodes).value| == |nodes|
  {
    ReadingsOfCount(Levels(nodes));
  }

  /** The label shows the average only when it is truthy: an average of exactly 0 reads "N/A". */
  function ShownAverage(average: Option<real>): (r: Option<real>)
    ensures r.Some? <==> average.Some? && average.value != 0.0
    ensures r.Some? ==> r == average
  {
    if average.Some? && average.value != 0.0 then average else None
  }

  // ---------------------------------------------------------------------
  // Time ranges
  // ---------------------------------------------------------------------

  /** The hours behind a time-range choice; an unknown label raises (`None`) and the chart is left as it was. */
  function Hours(choice: string): (r: Option<int>)
    ensures r.Some? <==> choice in OrderedMap.Keys(Constants.TimeRanges)
    ensures r.Some? ==> r.value > 0
  {
    Constants.ProfileAndRangeConstants();
    OrderedMap.Lookup(Constants.TimeRanges, choice)
  }

  /** The selector's hourly choices. */
  lemma HoursOfShortChoices()
    ensures Hours("1 hour") == Some(1) && Hours("6 hours") == Some(6) && Hours("24 hours") == Some(24)
  {
    var t := Constants.TimeRanges;
    OrderedMap.LookupFree(t, 0);
    assert OrderedMap.FreeBefore(t, "6 hours", 1);
    OrderedMap.LookupFree(t, 1);
    assert OrderedMap.FreeBefore(t, "24 hours", 2);
    OrderedMap.LookupFree(t, 2);
  }

  /** The selector's daily choices; anything else is not a choice. */
  lemma HoursOfLongChoices()
    ensures Hours("7 days") == Some(168) && Hours("30 days") == Some(720)
    ensures Hours("") == None
  {
    HoursOfWeek();
    HoursOfMonth();
    assert forall i :: 0 <= i < |Constants.TimeRanges| ==> Constants.TimeRanges[i].0 != "";
  }

  lemma HoursOfWeek()
    ensures Hours("7 days") == Some(168)
  {
    var t := Constants.TimeRanges;
    assert OrderedMap.FreeBefore(t, "7 days", 3);
    OrderedMap.LookupFree(t, 3);
  }

  lemma HoursOfMonth()
    ensures Hours("30 days") == Some(720)
  {
    var t := Constants.TimeRanges;
    assert OrderedMap.FreeBefore(t, "30 days", 4);
    OrderedMap.LookupFree(t, 4);
  }

  // ---------------------------------------------------------------------
  // Network health
  // ---------------------------------------------------------------------

  /** Nodes heard within the last hour count as active. */
  const ActiveWindow := 3600.0

  /**
   * Whether a node counts as active: a truthy `lastHeard` (0 when missing)
   * later than an hour ago. A node that is not a dictionary has no `.get`,
   * and a truthy value that is not a number makes the comparison raise;
   * both give `None`.
   */
  function Active(node: Value, now: real): (r: Option<bool>)
    ensures r.None? <==>
      (!node.Dict? || (Truthy(Get(EntriesOf(node), "lastHeard", Int(0))) && Number(Get(EntriesOf(node), "lastHeard", Int(0))).None?))
    ensures node.Dict? && !Truthy(Get(EntriesOf(node), "lastHeard", Int(0))) ==> r == Some(false)
    ensures r == Some(true) <==>
      node.Dict? &&
      Truthy(Get(EntriesOf(node), "lastHeard", Int(0))) &&
      Number(Get(EntriesOf(node), "lastHeard", Int(0))).Some? &&
      Number(Get(EntriesOf(node), "lastHeard", Int(0))).value > now - ActiveWindow
  {
    var heard := Get(EntriesOf(node), "lastHeard", Int(0));
    if !node.Dict? then None
    else if !Truthy(heard) then Some(false)
    else match Number(heard)
      case Some(t) => Some(t > now - ActiveWindow)
      case None => None
  }

  /** Each node's activity, in node order. */
  function Activity(nodes: seq<(string, Value)>, now: real): (acts: seq<Option<bool>>)
    ensures |acts| == |nodes|
    ensures forall i :: 0 <= i < |nodes| ==> acts[i] == Active(nodes[i].1, now)
  {
    seq(|nodes|, i requires 0 <= i < |nodes| => Active(nodes[i].1, now))
  }

  /** `(active, inactive)` over activities, `None` when one of them raised. */
  function SplitOf(acts: seq<Option<bool>>): (r: Option<(nat, nat)>)
    ensures r.Some? ==> r.value.0 + r.value.1 == |acts|
    ensures r.Some? <==> forall i :: 0 <= i < |acts| ==> acts[i].Some?
  {
    if |acts| == 0 then Some((0, 0))
    else
      var init := acts[..|acts| - 1];
      assert forall i :: 0 <= i < |init| ==> init[i] == acts[i];
      match (SplitOf(init), acts[|acts| - 1])
      case (Some((a, n)), Some(true)) => Some((a + 1, n))
      case (Some((a, n)), Some(false)) => Some((a, n + 1))
      case _ => None
  }

  /** `(active, inactive)` for the pie chart, `None` when a node's `lastHeard` raises. */
  function HealthSplit(nodes: seq<(string, Value)>, now: real): (r: Option<(nat, nat)>)
    ensures r.Some? ==> r.value.0 + r.value.1 == |nodes|
    ensures r.Some? <==> forall i :: 0 <= i < |nodes| ==> Active(nodes[i].1, now).Some?
  {
    SplitOf(Activity(nodes, now))
  }

  /** Activities that raise no later and are active no more often count no more active nodes. */
  lemma {:induction false} SplitOfMonotone(earlier: seq<Option<bool>>, later: seq<Option<bool>>)
    requires |earlier| == |later|
    requires forall i :: 0 <= i < |earlier| ==> earlier[i].Some? ==> later[i].Some?
    requires forall i :: 0 <= i < |earlier| ==> later[i] == Some(true) ==> earlier[i] == Some(true)
    requires SplitOf(earlier).Some?
    ensures SplitOf(later).Some? && SplitOf(later).value.0 <= SplitOf(earlier).value.0
    decreases |earlier|
  {
    if |earlier| > 0 {
      var e, l := earlier[..|earlier| - 1], later[..|later| - 1];
      assert forall i :: 0 <= i < |e| ==> e[i] == earlier[i] && l[i] == later[i];
      SplitOfMonotone(e, l);
    }
  }

  /** As time passes without news, the active count never grows. */
  lemma ActiveNeverGrowsWithTime(nodes: seq<(string, Value)>, earlier: real, later: real)
    requires earlier <= later
    requires HealthSplit(nodes, earlier).Some?
    ensures HealthSplit(nodes, later).Some?
    ensures HealthSplit(nodes, later).value.0 <= HealthSplit(nodes, earlier).value.0
  {
    SplitOfMonotone(Activity(nodes, earlier), Activity(nodes, later));
  }

  /** A node never heard from (`lastHeard` missing, `None` or 0) is always inactive. */
  lemma UnheardIsInactive(node: Value, now: real)
    requires node.Dict? && !Truthy(Get(EntriesOf(node), "lastHeard", Int(0)))
    ensures HealthSplit([("n", node)], now) == Some((0, 1))
  {
    var acts := Activity([("n", node)], now);
    assert acts[..0] == [] && acts[0] == Some(false);
  }
}
