/**
  The station-generation window: it imports fault lines from a text file,
  reads four corner coordinates, orders them with a convex hull, samples a
  grid inside the resulting quadrilateral and stores the generated stations
  as markers named Station_1, Station_2, ...
 */
module StationGeneration {
  import opened Geo
  import opened FaultLines
  import opened Grid

  /** What the file dialog and `open()` give the importer. */
  datatype FileChoice =
    | NoFileChosen                 // the dialog was cancelled
    | Unreadable                   // `open()` raised
    | Lines(lines: seq<string>)    // the lines of the file, in order

  /** The ConvexHull call: the indices of the hull's vertices, or None when it raises. */
  type HullFunction = seq<Coord> -> Option<seq<nat>>

  // ---------------------------------------------------------------------
  // Station names
  // ---------------------------------------------------------------------

  function DigitChar(d: nat): (c: char)
    requires d < 10
    ensures '0' <= c <= '9' && c as int - '0' as int == d
  {
    (d + '0' as int) as char
  }

  /** The decimal numeral of `n`, as Python's f-string writes it. */
  function NatToString(n: nat): (s: string)
    ensures s != [] && (|s| == 1 <==> n < 10)
    ensures forall k :: 0 <= k < |s| ==> '0' <= s[k] <= '9'
    decreases n
  {
    if n < 10 then [DigitChar(n)] else NatToString(n / 10) + [DigitChar(n % 10)]
  }

  /** Like `f"{n}"`, the numeral of a positive number has no leading zero. */
  lemma {:induction false} NoLeadingZero(n: nat)
    ensures n > 0 ==> NatToString(n)[0] != '0'
    decreases n
  {
    if n >= 10 {
      NoLeadingZero(n / 10);
      assert NatToString(n)[0] == NatToString(n / 10)[0];
    }
  }

  /** Reads a numeral of decimal digits back into its value. */
  function DecimalValue(s: string): nat
    decreases |s|
  {
    if s == [] then 0
    else
      var c := s[|s| - 1];
      DecimalValue(s[..|s| - 1]) * 10 + (if '0' <= c <= '9' then c as int - '0' as int else 0)
  }

  /** Writing a number in decimal and reading it back gives the number. */
  lemma {:induction false} DecimalRoundTrip(n: nat)
    ensures DecimalValue(NatToString(n)) == n
    decreases n
  {
    var s := NatToString(n);
    if n < 10 {
      assert s[..0] == [];
    } else {
      DecimalRoundTrip(n / 10);
      assert s[..|s| - 1] == NatToString(n / 10);
    }
  }

  /** The marker name `Station_{k}`. */
  function StationName(k: nat): string
  {
    "Station_" + NatToString(k)
  }

  /** Different numbers give different marker names. */
  lemma StationNamesDistinct()
    ensures forall i: nat, j: nat :: StationName(i) == StationName(j) ==> i == j
  {
    forall i: nat, j: nat | StationName(i) == StationName(j) ensures i == j {
      assert NatToString(i) == StationName(i)[8..];
      assert NatToString(j) == StationName(j)[8..];
      DecimalRoundTrip(i);
      DecimalRoundTrip(j);
    }
  }

  /** The markers `{Station_{i+1}: stations[i]}` stored after a successful generation. */
  function MarkerMap(stations: seq<Coord>): map<string, Coord>
  {
    StationNamesDistinct();
    map i | 0 <= i < |stations| :: StationName(i + 1) := stations[i]
  }

  /** `Station_{i+1}` names the i-th station. */
  lemma MarkerMapEntries(stations: seq<Coord>)
    ensures forall i :: 0 <= i < |stations| ==>
              StationName(i + 1) in MarkerMap(stations) && MarkerMap(stations)[StationName(i + 1)] == stations[i]
  {
    StationNamesDistinct();
  }

  /** No other key than `Station_1` .. `Station_{n}` occurs. */
  lemma MarkerMapKeys(stations: seq<Coord>)
    ensures forall key :: key in MarkerMap(stations) ==> exists n :: 1 <= n <= |stations| && key == StationName(n)
  {
    forall key | key in MarkerMap(stations) ensures exists n :: 1 <= n <= |stations| && key == StationName(n) {
      var i :| 0 <= i < |stations| && key == StationName(i + 1);
      assert 1 <= i + 1 <= |stations| && key == StationName(i + 1);
    }
  }


  // ---------------------------------------------------------------------
  // Reading the four corners
  // ---------------------------------------------------------------------

  /**
    One corner: the stripped latitude text is parsed first, then the
    stripped longitude text, then both are range-checked.
   */
  function ReadCorner(input: (string, string), parseFloat: string -> Option<real>): Result<Coord, GenerationError>
  {
    var latText := Strip(input.0);
    var lonText := Strip(input.1);
    match parseFloat(latText)
    case None => Err(InvalidNumber(latText))
    case Some(lat) =>
      match parseFloat(lonText)
      case None => Err(InvalidNumber(lonText))
      case Some(lon) =>
        if !InRange(Coord(lat, lon)) then Err(InvalidCoordinate(lat, lon)) else Ok(Coord(lat, lon))
  }

  /**
    A corner reads exactly when both stripped texts parse and the point is
    in range, and then it is that point. Otherwise the latitude text is
    reported first when it does not parse, then the longitude text, and
    only two numbers out of range give a range error.
   */
  lemma ReadCornerCases(input: (string, string), parseFloat: string -> Option<real>)
    ensures var r := ReadCorner(input, parseFloat);
            var lat := parseFloat(Strip(input.0));
            var lon := parseFloat(Strip(input.1));
            && (r.Ok? <==> lat.Some? && lon.Some? && InRange(Coord(lat.value, lon.value)))
            && (r.Ok? ==> r.value == Coord(lat.value, lon.value))
            && (r.Err? ==> r.error.InvalidNumber? || r.error.InvalidCoordinate?)
    ensures var lat := parseFloat(Strip(input.0));
            lat.None? ==> ReadCorner(input, parseFloat) == Err(InvalidNumber(Strip(input.0)))
    ensures var lat := parseFloat(Strip(input.0));
            var lon := parseFloat(Strip(input.1));
            lat.Some? && lon.None? ==> ReadCorner(input, parseFloat) == Err(InvalidNumber(Strip(input.1)))
    ensures var lat := parseFloat(Strip(input.0));
            var lon := parseFloat(Strip(input.1));
            lat.Some? && lon.Some? && !InRange(Coord(lat.value, lon.value)) ==>
              ReadCorner(input, parseFloat) == Err(InvalidCoordinate(lat.value, lon.value))
  {
  }

  /** One corner's input fields: the latitude text and the longitude text. */
  type CornerText = (string, string)

  /** `ReadCorner` as a function value, so the corner loop can be reasoned about once for any reader. */
  function CornerReader(parseFloat: string -> Option<real>): CornerText -> Result<Coord, GenerationError>
  {
    input => ReadCorner(input, parseFloat)
  }

  /** The corner loop: the first failing corner's error, or all corners in input order. */
  function ReadCorners(inputs: seq<CornerText>, read: CornerText -> Result<Coord, GenerationError>): Result<seq<Coord>, GenerationError>
    decreases |inputs|
  {
    if inputs == [] then Ok([])
    else
      match ReadCorners(inputs[..|inputs| - 1], read)
      case Err(e) => Err(e)
      case Ok(ps) =>
        match read(inputs[|inputs| - 1])
        case Err(e) => Err(e)
        case Ok(c) => Ok(ps + [c])
  }

  /** Once a corner has failed, later corners change nothing. */
  lemma {:induction false} ReadCornersErrorSticks(inputs: seq<CornerText>, k: nat, read: CornerText -> Result<Coord, GenerationError>)
    requires k <= |inputs| && ReadCorners(inputs[..k], read).Err?
    ensures ReadCorners(inputs, read) == ReadCorners(inputs[..k], read)
    decreases |inputs| - k
  {
    if k < |inputs| {
      assert inputs[..k + 1][..k] == inputs[..k];
      ReadCornersErrorSticks(inputs, k + 1, read);
    } else {
      assert inputs[..k] == inputs;
    }
  }

  /** The corners are read exactly when every corner reads, and then in input order. */
  lemma {:induction false} ReadCornersOk(inputs: seq<CornerText>, read: CornerText -> Result<Coord, GenerationError>)
    ensures ReadCorners(inputs, read).Ok? <==> forall k :: 0 <= k < |inputs| ==> read(inputs[k]).Ok?
    ensures ReadCorners(inputs, read).Ok? ==>
              && |ReadCorners(inputs, read).value| == |inputs|
              && forall k :: 0 <= k < |inputs| ==> ReadCorners(inputs, read).value[k] == read(inputs[k]).value
    decreases |inputs|
  {
    if inputs != [] {
      var init := inputs[..|inputs| - 1];
      ReadCornersOk(init, read);
      assert forall k :: 0 <= k < |init| ==> init[k] == inputs[k];
    }
  }

  /** When the corners cannot be read, the error is that of the first corner that fails. */
  lemma {:induction false} ReadCornersFirstError(inputs: seq<CornerText>, read: CornerText -> Result<Coord, GenerationError>)
    requires ReadCorners(inputs, read).Err?
    ensures exists k :: 0 <= k < |inputs| && read(inputs[k]) == Err(ReadCorners(inputs, read).error)
                        && forall j :: 0 <= j < k ==> read(inputs[j]).Ok?
    decreases |inputs|
  {
    var init := inputs[..|inputs| - 1];
    assert forall k :: 0 <= k < |init| ==> init[k] == inputs[k];
    if ReadCorners(init, read).Err? {
      ReadCornersFirstError(init, read);
    } else {
      ReadCornersOk(init, read);
    }
  }

  /** Every corner that was read is in range. */
  lemma CornersInRange(inputs: seq<CornerText>, parseFloat: string -> Option<real>)
    requires ReadCorners(inputs, CornerReader(parseFloat)).Ok?
    ensures forall c :: c in ReadCorners(inputs, CornerReader(parseFloat)).value ==> InRange(c)
  {
    var read := CornerReader(parseFloat);
    var corners := ReadCorners(inputs, read).value;
    ReadCornersOk(inputs, read);
    forall c | c in corners ensures InRange(c) {
      var k :| 0 <= k < |corners| && corners[k] == c;
      ReadCornerCases(inputs[k], parseFloat);
    }
  }

  // ---------------------------------------------------------------------
  // Ordering the corners and the whole generation
  // ---------------------------------------------------------------------

  /**
    `[points_array[i] for i in hull.vertices]`. A hull call that raises, or
    that does not give at least three indices of input points, fails.
   */
  function HullPolygon(corners: seq<Coord>, hull: HullFunction): (r: Result<seq<Coord>, GenerationError>)
    ensures r.Ok? <==> hull(corners).Some? && |hull(corners).value| >= 3
                       && forall k :: 0 <= k < |hull(corners).value| ==> hull(corners).value[k] < |corners|
    ensures r.Ok? ==> |r.value| == |hull(corners).value|
                      && forall k :: 0 <= k < |r.value| ==> r.value[k] == corners[hull(corners).value[k]]
    ensures r.Err? ==> r.error == DegenerateHull
  {
    match hull(corners)
    case None => Err(DegenerateHull)
    case Some(v) =>
      if |v| < 3 || exists k :: 0 <= k < |v| && v[k] >= |corners| then Err(DegenerateHull)
      else Ok(seq(|v|, k requires 0 <= k < |v| => corners[v[k]]))
  }

  /** A box around in-range vertices has its lowest latitude in [-90, 90]. */
  lemma BoundsInRange(polygon: seq<Coord>)
    requires polygon != [] && forall c :: c in polygon ==> InRange(c)
    ensures -90.0 <= Bounds(polygon).latMin <= 90.0
  {
    var k :| 0 <= k < |polygon| && polygon[k].lat == MinLat(polygon);
    assert polygon[k] in polygon;
  }

  /** The ordered polygon and the generated stations. */
  datatype Generated = Generated(polygon: seq<Coord>, stations: seq<Coord>)

  /**
    What happens to the corners once they are read: there must be four,
    they are ordered along their hull, the polygon must be valid, and the
    grid inside it must not be empty.
   */
  function GenerateFromCorners(corners: seq<Coord>, interval: int, hull: HullFunction, isValid: seq<Coord> -> bool,
                               contains: (seq<Coord>, Coord) -> bool, kmPerLonDegree: real -> real)
    : (r: Result<Generated, GenerationError>)
    requires interval > 0
    requires forall lat: real :: -90.0 <= lat <= 90.0 ==> kmPerLonDegree(lat) > 0.0
    requires forall c :: c in corners ==> InRange(c)
    ensures r.Ok? ==> |corners| == 4 && r.value.stations != []
  {
    if |corners| != 4 then Err(NotFourCorners)
    else
      match HullPolygon(corners, hull)
      case Err(e) => Err(e)
      case Ok(polygon) =>
        if !isValid(polygon) then Err(InvalidPolygon)
        else
          HullInCorners(corners, hull);
          BoundsInRange(polygon);
          var b := Bounds(polygon);
          var g := GridPoints(LatAxis(b, interval), LonAxis(b, interval, kmPerLonDegree), polygon, contains);
          if g == [] then Err(NoStationGenerated) else Ok(Generated(polygon, g))
  }

  /** The hull-ordered polygon is made of the corners. */
  lemma HullInCorners(corners: seq<Coord>, hull: HullFunction)
    ensures HullPolygon(corners, hull).Ok? ==> forall c :: c in HullPolygon(corners, hull).value ==> c in corners
  {
    if HullPolygon(corners, hull).Ok? {
      var polygon := HullPolygon(corners, hull).value;
      forall c | c in polygon ensures c in corners {
        var k :| 0 <= k < |polygon| && polygon[k] == c;
        assert corners[hull(corners).value[k]] in corners;
      }
    }
  }

  /**
    On success there were four corners, the polygon has at least three of
    them and is valid, and the stations are the non-empty row-major grid
    inside the polygon and its bounding box.
   */
  lemma GenerateFromCornersOk(corners: seq<Coord>, interval: int, hull: HullFunction, isValid: seq<Coord> -> bool,
                              contains: (seq<Coord>, Coord) -> bool, kmPerLonDegree: real -> real)
    requires interval > 0
    requires forall lat: real :: -90.0 <= lat <= 90.0 ==> kmPerLonDegree(lat) > 0.0
    requires forall c :: c in corners ==> InRange(c)
    ensures var r := GenerateFromCorners(corners, interval, hull, isValid, contains, kmPerLonDegree);
            r.Ok? ==>
              && |corners| == 4
              && |r.value.polygon| >= 3
              && (forall c :: c in r.value.polygon ==> c in corners)
              && isValid(r.value.polygon)
              && r.value.stations != []
              && RowMajor(r.value.stations)
              && (forall c :: c in r.value.stations ==> contains(r.value.polygon, c) && InBox(Bounds(r.value.polygon), c))
  {
    var r := GenerateFromCorners(corners, interval, hull, isValid, contains, kmPerLonDegree);
    if r.Ok? {
      var polygon := HullPolygon(corners, hull).value;
      assert r.value.polygon == polygon;
      HullInCorners(corners, hull);
      BoundsInRange(polygon);
      GridInsideBox(polygon, contains, interval, kmPerLonDegree);
    }
  }

  /**
    The outcome of `generate_stations`: the first corner that does not
    read, or what the read corners give.
   */
  function Generate(inputs: seq<CornerText>, interval: int, parseFloat: string -> Option<real>,
                    hull: HullFunction, isValid: seq<Coord> -> bool,
                    contains: (seq<Coord>, Coord) -> bool, kmPerLonDegree: real -> real)
    : (r: Result<Generated, GenerationError>)
    requires interval > 0
    requires forall lat: real :: -90.0 <= lat <= 90.0 ==> kmPerLonDegree(lat) > 0.0
    ensures r.Ok? ==> |inputs| == 4 && r.value.stations != []
  {
    match ReadCorners(inputs, CornerReader(parseFloat))
    case Err(e) => Err(e)
    case Ok(corners) =>
      ReadCornersOk(inputs, CornerReader(parseFloat));
      CornersInRange(inputs, parseFloat);
      GenerateFromCorners(corners, interval, hull, isValid, contains, kmPerLonDegree)
  }

  /**
    On success all four corners read, the polygon is made of in-range
    corners and is valid, and the stations are the non-empty row-major grid
    inside it.
   */
  lemma GenerateOk(inputs: seq<CornerText>, interval: int, parseFloat: string -> Option<real>,
                   hull: HullFunction, isValid: seq<Coord> -> bool,
                   contains: (seq<Coord>, Coord) -> bool, kmPerLonDegree: real -> real)
    requires interval > 0
    requires forall lat: real :: -90.0 <= lat <= 90.0 ==> kmPerLonDegree(lat) > 0.0
    ensures var r := Generate(inputs, interval, parseFloat, hull, isValid, contains, kmPerLonDegree);
            r.Ok? ==>
              && |inputs| == 4
              && (forall k :: 0 <= k < |inputs| ==> ReadCorner(inputs[k], parseFloat).Ok?)
              && |r.value.polygon| >= 3
              && (forall c :: c in r.value.polygon ==> InRange(c))
              && isValid(r.value.polygon)
              && r.value.stations != []
              && RowMajor(r.value.stations)
              && (forall c :: c in r.value.stations ==> contains(r.value.polygon, c) && InBox(Bounds(r.value.polygon), c))
  {
    var read := ReadCorners(inputs, CornerReader(parseFloat));
    if read.Ok? {
      ReadCornersOk(inputs, CornerReader(parseFloat));
      CornersInRange(inputs, parseFloat);
      GenerateFromCornersOk(read.value, interval, hull, isValid, contains, kmPerLonDegree);
    }
  }

  /**
    A corner that does not read stops the corner loop, with a reading error:
    a number that does not parse or a point out of range.
   */
  lemma BadCornerStopsReading(inputs: seq<CornerText>, parseFloat: string -> Option<real>, k: nat)
    requires k < |inputs| && ReadCorner(inputs[k], parseFloat).Err?
    ensures ReadCorners(inputs, CornerReader(parseFloat)).Err?
    ensures ReadCorners(inputs, CornerReader(parseFloat)).error.InvalidNumber?
            || ReadCorners(inputs, CornerReader(parseFloat)).error.InvalidCoordinate?
  {
    var read := CornerReader(parseFloat);
    assert read(inputs[k]).Err?;
    ReadCornersOk(inputs, read);
    ReadCornersFirstError(inputs, read);
    var j :| 0 <= j < |inputs| && read(inputs[j]) == Err(ReadCorners(inputs, read).error);
    ReadCornerCases(inputs[j], parseFloat);
  }

  /**
    A corner out of range, or one whose text is not a number, makes the
    generation fail with the corner loop's reading error, whatever the hull,
    validity and containment tests would say: no geometry runs on bad input.
   */
  lemma ValidationPrecedesGeometry(inputs: seq<CornerText>, interval: int, parseFloat: string -> Option<real>,
                                   hull: HullFunction, isValid: seq<Coord> -> bool,
                                   contains: (seq<Coord>, Coord) -> bool, kmPerLonDegree: real -> real, k: nat)
    requires interval > 0
    requires forall lat: real :: -90.0 <= lat <= 90.0 ==> kmPerLonDegree(lat) > 0.0
    requires k < |inputs| && ReadCorner(inputs[k], parseFloat).Err?
    ensures ReadCorners(inputs, CornerReader(parseFloat)).Err?
    ensures Generate(inputs, interval, parseFloat, hull, isValid, contains, kmPerLonDegree)
            == Err(ReadCorners(inputs, CornerReader(parseFloat)).error)
    ensures ReadCorners(inputs, CornerReader(parseFloat)).error.InvalidNumber?
            || ReadCorners(inputs, CornerReader(parseFloat)).error.InvalidCoordinate?
  {
    BadCornerStopsReading(inputs, parseFloat, k);
    GenerateStopsOnReadError(inputs, interval, parseFloat, hull, isValid, contains, kmPerLonDegree);
  }

  /** The generation's outcome when the corner loop fails is that failure. */
  lemma GenerateStopsOnReadError(inputs: seq<CornerText>, interval: int, parseFloat: string -> Option<real>,
                                 hull: HullFunction, isValid: seq<Coord> -> bool,
                                 contains: (seq<Coord>, Coord) -> bool, kmPerLonDegree: real -> real)
    requires interval > 0
    requires forall lat: real :: -90.0 <= lat <= 90.0 ==> kmPerLonDegree(lat) > 0.0
    requires ReadCorners(inputs, CornerReader(parseFloat)).Err?
    ensures Generate(inputs, interval, parseFloat, hull, isValid, contains, kmPerLonDegree)
            == Err(ReadCorners(inputs, CornerReader(parseFloat)).error)
  {
  }

  /**
    The corner loop of `generate_stations`: each corner's latitude text,
    then its longitude text, is stripped and parsed, and the point is
    range-checked before the next corner is read.
   */
  method ReadCornerInputs(coordInputs: seq<CornerText>, parseFloat: string -> Option<real>)
    returns (r: Result<seq<Coord>, GenerationError>)
    ensures r == ReadCorners(coordInputs, CornerReader(parseFloat))
  {
    var points: seq<Coord> := [];
    var k := 0;
    while k < |coordInputs|
      invariant 0 <= k <= |coordInputs|
      invariant ReadCorners(coordInputs[..k], CornerReader(parseFloat)) == Ok(points)
    {
      assert coordInputs[..k + 1][..k] == coordInputs[..k];
      var latText := Strip(coordInputs[k].0);
      var lonText := Strip(coordInputs[k].1);
      var lat := parseFloat(latText);
      if lat.None? {
        assert ReadCorners(coordInputs[..k + 1], CornerReader(parseFloat)) == Err(InvalidNumber(latText));
        ReadCornersErrorSticks(coordInputs, k + 1, CornerReader(parseFloat));
        return Err(InvalidNumber(latText));
      }
      var lon := parseFloat(lonText);
      if lon.None? {
        assert ReadCorners(coordInputs[..k + 1], CornerReader(parseFloat)) == Err(InvalidNumber(lonText));
        ReadCornersErrorSticks(coordInputs, k + 1, CornerReader(parseFloat));
        return Err(InvalidNumber(lonText));
      }
      if !(-90.0 <= lat.value <= 90.0 && -180.0 <= lon.value <= 180.0) {
        assert ReadCorners(coordInputs[..k + 1], CornerReader(parseFloat)) == Err(InvalidCoordinate(lat.value, lon.value));
        ReadCornersErrorSticks(coordInputs, k + 1, CornerReader(parseFloat));
        return Err(InvalidCoordinate(lat.value, lon.value));
      }
      points := points + [Coord(lat.value, lon.value)];
      k := k + 1;
    }
    assert coordInputs[..k] == coordInputs;
    return Ok(points);
  }

  /** The generation's outcome when the corners read is what those corners give. */
  lemma GenerateOnCorners(inputs: seq<CornerText>, interval: int, parseFloat: string -> Option<real>,
                          hull: HullFunction, isValid: seq<Coord> -> bool,
                          contains: (seq<Coord>, Coord) -> bool, kmPerLonDegree: real -> real)
    requires interval > 0
    requires forall lat: real :: -90.0 <= lat <= 90.0 ==> kmPerLonDegree(lat) > 0.0
    requires ReadCorners(inputs, CornerReader(parseFloat)).Ok?
    ensures forall c :: c in ReadCorners(inputs, CornerReader(parseFloat)).value ==> InRange(c)
    ensures Generate(inputs, interval, parseFloat, hull, isValid, contains, kmPerLonDegree)
            == GenerateFromCorners(ReadCorners(inputs, CornerReader(parseFloat)).value, interval, hull, isValid, contains, kmPerLonDegree)
  {
    CornersInRange(inputs, parseFloat);
  }

  /**
    The geometry of `generate_stations` on the corners read: the count
    check, the hull ordering, the validity check and `create_grid`.
   */
  method BuildStations(points: seq<Coord>, interval: int, hull: HullFunction, isValid: seq<Coord> -> bool,
                       contains: (seq<Coord>, Coord) -> bool, kmPerLonDegree: real -> real)
    returns (r: Result<Generated, GenerationError>)
    requires interval > 0
    requires forall lat: real :: -90.0 <= lat <= 90.0 ==> kmPerLonDegree(lat) > 0.0
    requires forall c :: c in points ==> InRange(c)
    ensures r == GenerateFromCorners(points, interval, hull, isValid, contains, kmPerLonDegree)
  {
    if |points| != 4 {
      return Err(NotFourCorners);
    }
    var ordered := HullPolygon(points, hull);
    if ordered.Err? {
      return Err(ordered.error);
    }
    var polygon := ordered.value;
    if !isValid(polygon) {
      return Err(InvalidPolygon);
    }
    assert forall c :: c in polygon ==> InRange(c) by {
      forall c | c in polygon ensures InRange(c) {
        var j :| 0 <= j < |polygon| && polygon[j] == c;
        assert points[hull(points).value[j]] in points;
      }
    }
    BoundsInRange(polygon);
    var stations := CreateGrid(polygon, contains, interval, kmPerLonDegree);
    if stations.Err? {
      return Err(stations.error);
    }
    return Ok(Generated(polygon, stations.value));
  }

  // ---------------------------------------------------------------------
  // The window
  // ---------------------------------------------------------------------

  /** The body of `generate_stations` up to storing its results: read the corners, then build the stations. */
  method GenerateFromInputs(coordInputs: seq<CornerText>, interval: int, parseFloat: string -> Option<real>,
                            hull: HullFunction, isValid: seq<Coord> -> bool,
                            contains: (seq<Coord>, Coord) -> bool, kmPerLonDegree: real -> real)
    returns (r: Result<Generated, GenerationError>)
    requires interval > 0
    requires forall lat: real :: -90.0 <= lat <= 90.0 ==> kmPerLonDegree(lat) > 0.0
    ensures r == Generate(coordInputs, interval, parseFloat, hull, isValid, contains, kmPerLonDegree)
  {
    var read := ReadCornerInputs(coordInputs, parseFloat);
    if read.Err? {
      GenerateStopsOnReadError(coordInputs, interval, parseFloat, hull, isValid, contains, kmPerLonDegree);
      return Err(read.error);
    }
    GenerateOnCorners(coordInputs, interval, parseFloat, hull, isValid, contains, kmPerLonDegree);
    r := BuildStations(read.value, interval, hull, isValid, contains, kmPerLonDegree);
  }

  class StationApp {
    /** The generated stations by marker name. */
    var movedMarkers: map<string, Coord>
    /** The ordered quadrilateral, once one was generated. */
    var polygonPoints: Option<seq<Coord>>
    /** The imported fault lines. */
    var faultLines: seq<FaultLine>

    constructor ()
      ensures movedMarkers == map[] && polygonPoints == None && faultLines == []
    {
      movedMarkers := map[];
      polygonPoints := None;
      faultLines := [];
    }

    /**
      `load_fault_data`: nothing changes when no file is chosen; the fault
      lines are cleared before the file is opened; otherwise they become the
      blocks of the file's lines.
     */
    method LoadFaultData(file: FileChoice, parseFloat: string -> Option<real>)
      modifies this
      ensures file == NoFileChosen ==> faultLines == old(faultLines)
      ensures file == Unreadable ==> faultLines == []
      ensures file.Lines? ==> faultLines == FaultBlocks(file.lines, parseFloat)
      ensures movedMarkers == old(movedMarkers) && polygonPoints == old(polygonPoints)
    {
      if file == NoFileChosen {
        return;
      }
      faultLines := [];
      var currentCoords: seq<Coord> := [];
      if file == Unreadable {
        return;
      }
      var lines := file.lines;
      var i := 0;
      while i < |lines|
        invariant 0 <= i <= |lines|
        invariant ParseState(faultLines, currentCoords) == Run(ParseState([], []), lines[..i], parseFloat)
        invariant movedMarkers == old(movedMarkers) && polygonPoints == old(polygonPoints)
      {
        ghost var before := ParseState(faultLines, currentCoords);
        var line := Strip(lines[i]);
        if line == [] {
          assert Classify(lines[i], parseFloat) == Blank;
        } else if line[0] == '>' {
          assert Classify(lines[i], parseFloat) == Separator;
          if currentCoords != [] {
            faultLines := faultLines + [FaultLine(FaultName, currentCoords)];
            currentCoords := [];
          }
        } else {
          var parts := Split(line);
          if |parts| == 2 {
            var lon := parseFloat(parts[0]);
            if lon.Some? {
              var lat := parseFloat(parts[1]);
              if lat.Some? {
                assert Classify(lines[i], parseFloat) == Point(Coord(lat.value, lon.value));
                currentCoords := currentCoords + [Coord(lat.value, lon.value)];
              } else {
                assert Classify(lines[i], parseFloat) == Skipped;
              }
            } else {
              assert Classify(lines[i], parseFloat) == Skipped;
            }
          } else {
            assert Classify(lines[i], parseFloat) == Skipped;
          }
        }
        assert ParseState(faultLines, currentCoords) == Step(before, lines[i], parseFloat);
        assert lines[..i + 1][..i] == lines[..i];
        i := i + 1;
      }
      assert lines[..i] == lines;
      if currentCoords != [] {
        faultLines := faultLines + [FaultLine(FaultName, currentCoords)];
      }
    }

    /**
      `generate_stations`: on success the markers and the polygon are
      replaced by the generated ones; on failure the error is reported and
      nothing changes.
     */
    method GenerateStations(coordInputs: seq<(string, string)>, interval: int, parseFloat: string -> Option<real>,
                            hull: HullFunction, isValid: seq<Coord> -> bool,
                            contains: (seq<Coord>, Coord) -> bool, kmPerLonDegree: real -> real)
      returns (err: Option<GenerationError>)
      requires 1 <= interval <= 100
      requires forall lat: real :: -90.0 <= lat <= 90.0 ==> kmPerLonDegree(lat) > 0.0
      modifies this
      ensures var g := Generate(coordInputs, interval, parseFloat, hull, isValid, contains, kmPerLonDegree);
              && (g.Err? ==> err == Some(g.error) && movedMarkers == old(movedMarkers) && polygonPoints == old(polygonPoints))
              && (g.Ok? ==> err == None && movedMarkers == MarkerMap(g.value.stations) && polygonPoints == Some(g.value.polygon))
      ensures faultLines == old(faultLines)
    {
      var built := GenerateFromInputs(coordInputs, interval, parseFloat, hull, isValid, contains, kmPerLonDegree);
      if built.Err? {
        return Some(built.error);
      }
      movedMarkers := MarkerMap(built.value.stations);
      polygonPoints := Some(built.value.polygon);
      return None;
    }
  }
}
