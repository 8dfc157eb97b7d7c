/**
 * The application's static tables: the LoRa region names and their
 * Meshtastic enum values, the configuration-profile names, the analytics
 * time ranges and the default device-scan hosts.
 */
module Constants {
  import opened Wrappers
  import OrderedMap

  /** `REGION_NAME_TO_ENUM`, in declaration order. */
  const RegionNameToEnum: seq<(string, int)> := [
    ("ANZ", 7), ("CN", 8), ("EU_433", 2), ("EU_868", 3), ("IN", 9), ("JP", 10),
    ("KR", 11), ("MY_433", 12), ("MY_919", 13), ("NZ_865", 14), ("RU", 15),
    ("SG_923", 16), ("TH", 17), ("TW", 18), ("UA_433", 19), ("UA_868", 20), ("US", 1)
  ]

  /** `REGION_ENUM_TO_NAME`, built by inverting the table above. */
  function RegionEnumToName(): seq<(int, string)> {
    OrderedMap.Invert(RegionNameToEnum)
  }

  /** `REGIONS`: the names of the table, in order. */
  function Regions(): seq<string> {
    OrderedMap.Keys(RegionNameToEnum)
  }

  /** `REGION_NAME_TO_ENUM.get(name)`. */
  function RegionEnum(name: string): (r: Option<int>)
    ensures r.Some? <==> name in Regions()
  {
    OrderedMap.Lookup(RegionNameToEnum, name)
  }

  /** `REGION_ENUM_TO_NAME.get(e)`. */
  function RegionName(e: int): Option<string> {
    OrderedMap.Lookup(RegionEnumToName(), e)
  }

  /** The class-level copy of the region table in the configuration panel. */
  const PanelRegionNameToEnum: seq<(string, int)> := [
    ("ANZ", 7), ("CN", 8), ("EU_433", 2), ("EU_868", 3), ("IN", 9), ("JP", 10),
    ("KR", 11), ("MY_433", 12), ("MY_919", 13), ("NZ_865", 14), ("RU", 15),
    ("SG_923", 16), ("TH", 17), ("TW", 18), ("UA_433", 19), ("UA_868", 20), ("US", 1)
  ]

  const DefaultProfileName := "Default"
  const ReservedProfileNames: seq<string> := ["emergency_contacts", "medical_info", "managed_devices", "default_device"]

  /** `TIME_RANGES`: analytics window label to hours. */
  const TimeRanges: seq<(string, int)> := [
    ("1 hour", 1), ("6 hours", 6), ("24 hours", 24), ("7 days", 168), ("30 days", 720)
  ]

  const CommonTcpHosts: seq<string> := ["localhost", "192.168.1.1", "meshtastic.local"]

  const BatteryHighThreshold := 75
  const BatteryLowThreshold := 25
  const GoodRssi := -80

  /** No two region names share an enum value, and no name appears twice. */
  lemma RegionTableIsBijective()
    ensures OrderedMap.UniqueKeys(RegionNameToEnum)
    ensures OrderedMap.UniqueValues(RegionNameToEnum)
  {
    var m := RegionNameToEnum;
    forall i, j | 0 <= i < j < |m| ensures m[i].0 != m[j].0 && m[i].1 != m[j].1 {
    }
  }

  /** The inverted table has exactly the 17 enum values as its keys. */
  lemma RegionEnumToNameKeys()
    ensures OrderedMap.Keys(RegionEnumToName()) == OrderedMap.Values(RegionNameToEnum)
    ensures |RegionEnumToName()| == |RegionNameToEnum| == 17
  {
    RegionTableIsBijective();
    OrderedMap.InvertKeys(RegionNameToEnum);
  }

  /** `ENUM_TO_NAME[NAME_TO_ENUM[n]] == n` for every region name. */
  lemma NameEnumRoundTrip(name: string)
    ensures name in Regions() ==> RegionEnum(name).Some?
    ensures name in Regions() ==> RegionName(RegionEnum(name).value) == Some(name)
  {
    if name in Regions() {
      RegionTableIsBijective();
      OrderedMap.InvertRoundTrip(RegionNameToEnum, name);
    }
  }

  /** `NAME_TO_ENUM[ENUM_TO_NAME[e]] == e` for every enum key of the inverted table. */
  lemma EnumNameRoundTrip(e: int)
    requires e in OrderedMap.Keys(RegionEnumToName())
    ensures RegionName(e).Some?
    ensures RegionEnum(RegionName(e).value) == Some(e)
  {
    RegionTableIsBijective();
    OrderedMap.InvertRoundTripBack(RegionNameToEnum, e);
  }

  /** The configuration panel's region table is the same table. */
  lemma PanelRegionTableMatches()
    ensures PanelRegionNameToEnum == RegionNameToEnum
  {
  }

  /** The default profile name is not reserved, and the time ranges grow strictly in listed order. */
  lemma ProfileAndRangeConstants()
    ensures DefaultProfileName !in ReservedProfileNames
    ensures forall i, j :: 0 <= i < j < |TimeRanges| ==> TimeRanges[i].1 < TimeRanges[j].1
  {
  }
}
