/**
 * The bucketing and validation helpers of the GPS utilities: coordinate
 * validation, what counts as a usable fix, the 16-point compass, the
 * bounding box of a set of positions, the zoom heuristic, and the
 * Maidenhead Locator System grid square. Coordinates are exact reals;
 * `None` is `Option.None`.
 */
module Gps {
  import opened Wrappers

  /** Python's `int(x)` on a float: truncation toward zero. */
  function Trunc(x: real): (r: int)
    ensures x >= 0.0 ==> r as real <= x < r as real + 1.0
    ensures x < 0.0 ==> r as real - 1.0 < x <= r as real
  {
    if x >= 0.0 then x.Floor else -((-x).Floor)
  }

  /** `math.floor(x / m)`. */
  function FloorDiv(x: real, m: real): (k: int)
    requires m > 0.0
    ensures k as real * m <= x < k as real * m + m
  {
    FloorDivBounds(x, m);
    (x / m).Floor
  }

  lemma FloorDivBounds(x: real, m: real)
    requires m > 0.0
    ensures (x / m).Floor as real * m <= x < (x / m).Floor as real * m + m
  {
    var q := x / m;
    var kr := q.Floor as real;
    var b := kr + 1.0;
    var top := b * m;
    if x >= top {
      DivLe(top, x, m);
      MulDiv(b, m, top);
      assert false;
    }
    if x < kr * m {
      DivLe(x, kr * m, m);
      MulDiv(kr, m, kr * m);
      assert false;
    }
  }

  lemma DivLe(a: real, b: real, m: real)
    requires a <= b && m > 0.0
    ensures a / m <= b / m
  {
  }

  lemma MulDiv(a: real, m: real, p: real)
    requires m > 0.0 && p == a * m
    ensures p / m == a
  {
  }

  lemma ScaleLe(a: real, b: real, m: real)
    requires a <= b && m >= 0.0
    ensures a * m <= b * m
  {
  }

  /** Python's float `x % m` for a positive modulus: the remainder takes the divisor's sign. */
  function FloorMod(x: real, m: real): (r: real)
    requires m > 0.0
    ensures 0.0 <= r < m
    ensures x == FloorDiv(x, m) as real * m + r
  {
    x - FloorDiv(x, m) as real * m
  }

  /** Python's `round(x)`: to the nearest integer, ties to the even one. */
  function RoundHalfEven(x: real): (r: int)
    ensures x - 0.5 <= r as real <= x + 0.5
    ensures r as real - x == 0.5 || x - r as real == 0.5 ==> r % 2 == 0
  {
    var f := x.Floor;
    var d := x - f as real;
    if d < 0.5 then f
    else if d > 0.5 then f + 1
    else if f % 2 == 0 then f
    else f + 1
  }

  /** `validate_coordinates`: the flag and the two coordinates, or `(False, None, None)`. */
  datatype Validated = Validated(valid: bool, lat: Option<real>, lon: Option<real>)

  predicate InRange(lat: real, lon: real) {
    -90.0 <= lat <= 90.0 && -180.0 <= lon <= 180.0
  }

  /** `validate_coordinates(lat, lon)`; `float(None)` raises, which reads as invalid. */
  function ValidateCoordinates(lat: Option<real>, lon: Option<real>): (r: Validated)
    ensures r.valid <==> lat.Some? && lon.Some? && InRange(lat.value, lon.value)
    ensures r.valid ==> r.lat == lat && r.lon == lon
    ensures !r.valid ==> r.lat.None? && r.lon.None?
  {
    if lat.Some? && lon.Some? && InRange(lat.value, lon.value) then Validated(true, lat, lon)
    else Validated(false, None, None)
  }

  /** `is_valid_gps_fix(lat, lon, accuracy)`. */
  predicate IsValidGpsFix(lat: Option<real>, lon: Option<real>, accuracy: Option<real>) {
    if !ValidateCoordinates(lat, lon).valid then false
    else if lat == Some(0.0) && lon == Some(0.0) then false
    else if accuracy.Some? && accuracy.value > 1000.0 then false
    else true
  }

  /** A fix is usable exactly when the coordinates are valid, not Null Island, and not too inaccurate. */
  lemma ValidFixCharacterization(lat: Option<real>, lon: Option<real>, accuracy: Option<real>)
    ensures IsValidGpsFix(lat, lon, accuracy) <==>
      lat.Some? && lon.Some? && InRange(lat.value, lon.value)
      && !(lat.value == 0.0 && lon.value == 0.0)
      && (accuracy.None? || accuracy.value <= 1000.0)
  {
  }

  const Directions: seq<string> := ["N", "NNE", "NE", "ENE", "E", "ESE", "SE", "SSE",
                                    "S", "SSW", "SW", "WSW", "W", "WNW", "NW", "NNW"]

  /** The index `round(bearing / 22.5) % 16`. */
  function CompassIndex(bearing: real): (i: nat)
    ensures i < 16
  {
    RoundHalfEven(bearing / 22.5) % 16
  }

  /** `get_compass_direction(bearing)`. */
  function CompassDirection(bearing: Option<real>): (r: string)
    ensures bearing.None? ==> r == "N/A"
    ensures bearing.Some? ==> r in Directions
  {
    if bearing.None? then "N/A" else Directions[CompassIndex(bearing.value)]
  }

  /**
   * For a bearing in [0, 360), the chosen direction's heading lies within half
   * a sector (11.25 degrees) of it; the bearings just below 360 wrap to "N".
   */
  lemma CompassNearest(bearing: real)
    requires 0.0 <= bearing < 360.0
    ensures var h := CompassIndex(bearing) as real * 22.5;
      (h - 11.25 <= bearing <= h + 11.25) || (CompassIndex(bearing) == 0 && 348.75 <= bearing)
  {
    var n := RoundHalfEven(bearing / 22.5);
    assert 0 <= n <= 16;
  }

  lemma {:induction false} RoundShift(x: real, k: int)
    requires k % 2 == 0
    ensures RoundHalfEven(x + k as real) == RoundHalfEven(x) + k
  {
    var f := x.Floor;
    assert f as real <= x < f as real + 1.0;
    assert (x + k as real).Floor == f + k;
    assert (f + k) % 2 == f % 2;
  }

  /** A full turn does not change the direction. */
  lemma CompassPeriodic(bearing: real)
    ensures CompassDirection(Some(bearing + 360.0)) == CompassDirection(Some(bearing))
  {
    var x := bearing / 22.5;
    assert (bearing + 360.0) / 22.5 == x + 16 as real;
    RoundShift(x, 16);
    var n := RoundHalfEven(x);
    assert (n + 16) % 16 == n % 16;
    assert CompassIndex(bearing + 360.0) == CompassIndex(bearing);
  }

  /** The cardinal points. */
  lemma CompassCardinals()
    ensures CompassDirection(Some(0.0)) == "N"
    ensures CompassDirection(Some(90.0)) == "E"
    ensures CompassDirection(Some(180.0)) == "S"
    ensures CompassDirection(Some(270.0)) == "W"
  {
    assert RoundHalfEven(0.0) == 0;
    assert RoundHalfEven(4.0) == 4;
    assert RoundHalfEven(8.0) == 8;
    assert RoundHalfEven(12.0) == 12;
  }

  /** The coordinates present in a list where some may be `None`. */
  function Present(xs: seq<Option<real>>): (r: seq<real>)
    ensures forall x :: x in r <==> Some(x) in xs
  {
    if |xs| == 0 then []
    else (if xs[0].Some? then [xs[0].value] else []) + Present(xs[1..])
  }

  function Min(xs: seq<real>): (m: real)
    requires |xs| > 0
    ensures m in xs
    ensures forall x :: x in xs ==> m <= x
  {
    if |xs| == 1 then xs[0]
    else
      var rest := Min(xs[1..]);
      assert forall x :: x in xs ==> x == xs[0] || x in xs[1..];
      if xs[0] <= rest then xs[0] else rest
  }

  function Max(xs: seq<real>): (m: real)
    requires |xs| > 0
    ensures m in xs
    ensures forall x :: x in xs ==> x <= m
  {
    if |xs| == 1 then xs[0]
    else
      var rest := Max(xs[1..]);
      assert forall x :: x in xs ==> x == xs[0] || x in xs[1..];
      if xs[0] >= rest then xs[0] else rest
  }

  function Lats(positions: seq<(Option<real>, Option<real>)>): seq<Option<real>> {
    if |positions| == 0 then [] else [positions[0].0] + Lats(positions[1..])
  }

  function Lons(positions: seq<(Option<real>, Option<real>)>): seq<Option<real>> {
    if |positions| == 0 then [] else [positions[0].1] + Lons(positions[1..])
  }

  datatype Box = Box(minLat: real, maxLat: real, minLon: real, maxLon: real, centerLat: real, centerLon: real)

  /** `range * (padding_percent / 100)`. */
  function Padding(range: real, paddingPercent: real): (p: real)
    requires range >= 0.0 && paddingPercent >= 0.0
    ensures p >= 0.0
  {
    ScaleLe(0.0, range, paddingPercent / 100.0);
    range * (paddingPercent / 100.0)
  }

  /** The padded box around non-empty lists of latitudes and longitudes. */
  function BoxAround(lats: seq<real>, lons: seq<real>, paddingPercent: real): (b: Box)
    requires |lats| > 0 && |lons| > 0 && paddingPercent >= 0.0
    ensures b.minLat <= b.centerLat <= b.maxLat && b.minLon <= b.centerLon <= b.maxLon
    ensures forall lat :: lat in lats ==> b.minLat <= lat <= b.maxLat
    ensures forall lon :: lon in lons ==> b.minLon <= lon <= b.maxLon
  {
    var minLat, maxLat := Min(lats), Max(lats);
    var minLon, maxLon := Min(lons), Max(lons);
    var latPad := Padding(maxLat - minLat, paddingPercent);
    var lonPad := Padding(maxLon - minLon, paddingPercent);
    Box(minLat - latPad, maxLat + latPad, minLon - lonPad, maxLon + lonPad,
        (minLat + maxLat) / 2.0, (minLon + maxLon) / 2.0)
  }

  /** `calculate_bounding_box(positions, padding_percent)`. */
  function BoundingBox(positions: seq<(Option<real>, Option<real>)>, paddingPercent: real): (r: Option<Box>)
    requires paddingPercent >= 0.0
    ensures r.None? <==> |Present(Lats(positions))| == 0 || |Present(Lons(positions))| == 0
    ensures r.Some? ==>
      var b := r.value;
      b.minLat <= b.centerLat <= b.maxLat && b.minLon <= b.centerLon <= b.maxLon
      && (forall lat :: lat in Present(Lats(positions)) ==> b.minLat <= lat <= b.maxLat)
      && (forall lon :: lon in Present(Lons(positions)) ==> b.minLon <= lon <= b.maxLon)
  {
    if |positions| == 0 then None
    else
      var lats := Present(Lats(positions));
      var lons := Present(Lons(positions));
      if |lats| == 0 || |lons| == 0 then None
      else Some(BoxAround(lats, lons, paddingPercent))
  }

  /** The zoom level chosen for a coordinate range. */
  function ZoomForRange(maxRange: real): (z: int)
    ensures z in {5, 7, 10, 12, 15, 17}
  {
    if maxRange > 10.0 then 5
    else if maxRange > 5.0 then 7
    else if maxRange > 1.0 then 10
    else if maxRange > 0.1 then 12
    else if maxRange > 0.01 then 15
    else 17
  }

  /** `calculate_zoom_level(bounding_box)`: 10 without a box. */
  function ZoomLevel(box: Option<Box>): (z: int)
    ensures box.None? ==> z == 10
    ensures z in {5, 7, 10, 12, 15, 17}
  {
    if box.None? then 10
    else
      var latRange := box.value.maxLat - box.value.minLat;
      var lonRange := box.value.maxLon - box.value.minLon;
      ZoomForRange(if latRange >= lonRange then latRange else lonRange)
  }

  /** A wider range never zooms in further. */
  lemma ZoomMonotone(a: real, b: real)
    requires a <= b
    ensures ZoomForRange(b) <= ZoomForRange(a)
  {
  }

  /** `chr(n)`: `None` where Python raises ValueError (and for surrogates, which `char` cannot hold). */
  function Chr(n: int): (r: Option<char>)
    ensures r.Some? ==> r.value as int == n
  {
    if 0 <= n < 0xD800 || 0xE000 <= n <= 0x10FFFF then Some(n as char) else None
  }

  /** The six Maidenhead indices: field, square and subsquare, longitude before latitude. */
  datatype GridIndices = GridIndices(fieldLon: int, fieldLat: int, squareLon: int, squareLat: int, subLon: int, subLat: int)

  function GridIndicesOf(lat: real, lon: real): (g: GridIndices)
    ensures 0 <= g.squareLon < 10 && 0 <= g.squareLat < 10
    ensures 0 <= g.subLon < 24 && 0 <= g.subLat < 24
  {
    var adjLon := lon + 180.0;
    var adjLat := lat + 90.0;
    var mLon := FloorMod(adjLon, 20.0);
    var mLat := FloorMod(adjLat, 10.0);
    GridIndices(Trunc(adjLon / 20.0), Trunc(adjLat / 10.0),
                Trunc(mLon / 2.0), Trunc(mLat / 1.0),
                Trunc(FloorMod(mLon, 2.0) / (2.0 / 24.0)), Trunc(FloorMod(mLat, 1.0) / (1.0 / 24.0)))
  }

  /** `calculate_grid_square(lat, lon)`: "N/A" for a missing coordinate, "Error" when `chr` raises. */
  function GridSquare(lat: Option<real>, lon: Option<real>): (r: string)
    ensures lat.None? || lon.None? ==> r == "N/A"
  {
    if lat.None? || lon.None? then "N/A"
    else
      var g := GridIndicesOf(lat.value, lon.value);
      var a := Chr('A' as int + g.fieldLon);
      var b := Chr('A' as int + g.fieldLat);
      if a.None? || b.None? then "Error"
      else [a.value, b.value, ('0' as int + g.squareLon) as char, ('0' as int + g.squareLat) as char,
            ('a' as int + g.subLon) as char, ('a' as int + g.subLat) as char]
  }

  /** Inside the usual ranges the locator has the six-character shape AA00aa. */
  lemma GridSquareShape(lat: real, lon: real)
    requires -90.0 <= lat < 90.0 && -180.0 <= lon < 180.0
    ensures var r := GridSquare(Some(lat), Some(lon));
      |r| == 6 && 'A' <= r[0] <= 'R' && 'A' <= r[1] <= 'R'
      && '0' <= r[2] <= '9' && '0' <= r[3] <= '9'
      && 'a' <= r[4] <= 'x' && 'a' <= r[5] <= 'x'
  {
    var g := GridIndicesOf(lat, lon);
    assert 0 <= g.fieldLon < 18 && 0 <= g.fieldLat < 18;
  }

  /** The North Pole falls outside the eighteen latitude fields: its field letter is 'S'. */
  lemma GridSquareNorthPole(lon: real)
    requires -180.0 <= lon < 180.0
    ensures var r := GridSquare(Some(90.0), Some(lon)); |r| == 6 && r[1] == 'S'
  {
    var g := GridIndicesOf(90.0, lon);
    assert g.fieldLat == 18;
    assert 0 <= g.fieldLon < 18;
  }

  /**
   * Inside the usual ranges the indices locate the point: the point lies in
   * the cell whose south-west corner they name (fields of 20 by 10 degrees,
   * squares of 2 by 1, subsquares of 1/12 by 1/24).
   */
  lemma GridIndicesLocate(lat: real, lon: real)
    requires -90.0 <= lat < 90.0 && -180.0 <= lon < 180.0
    ensures var g := GridIndicesOf(lat, lon);
      var west := g.fieldLon as real * 20.0 + g.squareLon as real * 2.0 + g.subLon as real / 12.0;
      var south := g.fieldLat as real * 10.0 + g.squareLat as real + g.subLat as real / 24.0;
      west <= lon + 180.0 < west + 1.0 / 12.0 && south <= lat + 90.0 < south + 1.0 / 24.0
  {
    var adjLon := lon + 180.0;
    var adjLat := lat + 90.0;
    var g := GridIndicesOf(lat, lon);
    assert FloorMod(adjLon, 20.0) == adjLon - g.fieldLon as real * 20.0;
    assert FloorMod(adjLat, 10.0) == adjLat - g.fieldLat as real * 10.0;
    var mLon := FloorMod(adjLon, 20.0);
    var mLat := FloorMod(adjLat, 10.0);
    assert FloorMod(mLon, 2.0) == mLon - g.squareLon as real * 2.0;
    assert FloorMod(mLat, 1.0) == mLat - g.squareLat as real;
  }

  /** `format_distance`: the unit chosen for a distance in kilometres (the digits are not modelled). */
  datatype DistanceText = NoDistance | Metres(m: real) | Kilometres(km: real)

  function FormatDistance(km: Option<real>): (r: DistanceText)
    ensures km.None? <==> r.NoDistance?
    ensures r.Metres? ==> km.value < 1.0 && r.m == km.value * 1000.0
    ensures r.Kilometres? ==> km.value >= 1.0 && r.km == km.value
  {
    if km.None? then NoDistance
    else if km.value < 1.0 then Metres(km.value * 1000.0)
    else Kilometres(km.value)
  }
}
