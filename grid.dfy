/**
  Grid sampling of the station-generation tool: lay a lattice over the
  bounding box of the polygon, `np.arange` along each axis, and keep the
  lattice points the polygon contains, row by row.
 */
module Grid {
  import opened Geo

  /** Kilometres per degree of latitude used for the latitude step. */
  const KmPerLatDegree: real := 111.0

  /** The values of `np.arange(start, stop, step)`: `count` values `start + k * step`. */
  datatype Axis = Axis(start: real, step: real, count: nat)
  {
    function At(k: nat): real
    {
      start + k as real * step
    }
  }

  /** For a positive step, x * step is positive exactly when x is. */
  lemma PositiveProduct(x: real, step: real)
    requires step > 0.0
    ensures x * step > 0.0 <==> x > 0.0
    ensures x * step >= 0.0 <==> x >= 0.0
  {
  }

  /** `start + k * step` stays below `stop` exactly when `k` is below `(stop - start) / step`. */
  lemma ScaledBelow(start: real, stop: real, step: real, k: real)
    requires step > 0.0
    ensures start + k * step < stop <==> k < (stop - start) / step
  {
    var q := (stop - start) / step;
    assert q * step == stop - start;
    assert (q - k) * step == q * step - k * step;
    PositiveProduct(q - k, step);
  }

  /** The number of naturals strictly below `q`: `ceil(q)`, or 0 when `q` is not positive. */
  function CountBelow(q: real): nat
  {
    if q <= 0.0 then 0 else if q.Floor as real == q then q.Floor else q.Floor + 1
  }

  /** A natural is counted by `CountBelow(q)` exactly when it is below `q`. */
  lemma CountBelowSpec(q: real, k: nat)
    ensures k < CountBelow(q) <==> (k as real) < q
  {
    if q > 0.0 && q.Floor as real != q {
      assert k < q.Floor + 1 <==> k <= q.Floor;
    }
  }

  /**
    `np.arange` for a positive step, in exact arithmetic: its length is the
    number of steps that stay strictly below `stop`.
   */
  function Arange(start: real, stop: real, step: real): (a: Axis)
    requires step > 0.0
    ensures a.start == start && a.step == step
    ensures forall k: nat :: k < a.count <==> a.At(k) < stop
  {
    var a := Axis(start, step, CountBelow((stop - start) / step));
    assert forall k: nat :: k < a.count <==> a.At(k) < stop by {
      forall k: nat ensures k < a.count <==> a.At(k) < stop {
        ScaledBelow(start, stop, step, k as real);
        CountBelowSpec((stop - start) / step, k);
      }
    }
    a
  }

  /** Along an axis with a positive step the values strictly increase and never fall below the start. */
  lemma AxisIncreasing(a: Axis, j: nat, k: nat)
    requires a.step > 0.0
    ensures j < k ==> a.At(j) < a.At(k)
    ensures a.start <= a.At(k)
  {
    PositiveProduct(k as real - j as real, a.step);
    PositiveProduct(k as real, a.step);
  }

  /** `polygon.bounds`, with points stored as (lat, lon). */
  datatype Box = Box(latMin: real, lonMin: real, latMax: real, lonMax: real)

  predicate InBox(b: Box, c: Coord)
  {
    b.latMin <= c.lat <= b.latMax && b.lonMin <= c.lon <= b.lonMax
  }

  function MinLat(ps: seq<Coord>): (m: real)
    requires ps != []
    ensures (exists k :: 0 <= k < |ps| && ps[k].lat == m) && forall k :: 0 <= k < |ps| ==> m <= ps[k].lat
  {
    if |ps| == 1 then ps[0].lat else var r := MinLat(ps[1..]); if ps[0].lat <= r then ps[0].lat else r
  }

  function MaxLat(ps: seq<Coord>): (m: real)
    requires ps != []
    ensures (exists k :: 0 <= k < |ps| && ps[k].lat == m) && forall k :: 0 <= k < |ps| ==> ps[k].lat <= m
  {
    if |ps| == 1 then ps[0].lat else var r := MaxLat(ps[1..]); if ps[0].lat >= r then ps[0].lat else r
  }

  function MinLon(ps: seq<Coord>): (m: real)
    requires ps != []
    ensures (exists k :: 0 <= k < |ps| && ps[k].lon == m) && forall k :: 0 <= k < |ps| ==> m <= ps[k].lon
  {
    if |ps| == 1 then ps[0].lon else var r := MinLon(ps[1..]); if ps[0].lon <= r then ps[0].lon else r
  }

  function MaxLon(ps: seq<Coord>): (m: real)
    requires ps != []
    ensures (exists k :: 0 <= k < |ps| && ps[k].lon == m) && forall k :: 0 <= k < |ps| ==> ps[k].lon <= m
  {
    if |ps| == 1 then ps[0].lon else var r := MaxLon(ps[1..]); if ps[0].lon >= r then ps[0].lon else r
  }

  /** The smallest box holding every vertex. */
  function Bounds(polygon: seq<Coord>): (b: Box)
    requires polygon != []
    ensures forall k :: 0 <= k < |polygon| ==> InBox(b, polygon[k])
  {
    Box(MinLat(polygon), MinLon(polygon), MaxLat(polygon), MaxLon(polygon))
  }

  /** The latitude values: the step is the interval over 111 km per degree. */
  function LatAxis(b: Box, interval: int): Axis
    requires interval > 0
  {
    Arange(b.latMin, b.latMax, interval as real / KmPerLatDegree)
  }

  /** The longitude values: the step is the interval over the kilometres per degree at the lowest latitude. */
  function LonAxis(b: Box, interval: int, kmPerLonDegree: real -> real): Axis
    requires interval > 0 && kmPerLonDegree(b.latMin) > 0.0
  {
    Arange(b.lonMin, b.lonMax, interval as real / kmPerLonDegree(b.latMin))
  }

  function LatticePoint(lat: Axis, lon: Axis, i: nat, j: nat): Coord
  {
    Coord(lat.At(i), lon.At(j))
  }

  /** The kept points of lattice row `i` among its first `j` columns. */
  function RowPoints(lat: Axis, lon: Axis, polygon: seq<Coord>, contains: (seq<Coord>, Coord) -> bool, i: nat, j: nat): seq<Coord>
    decreases j
  {
    if j == 0 then []
    else
      var c := LatticePoint(lat, lon, i, j - 1);
      RowPoints(lat, lon, polygon, contains, i, j - 1) + (if contains(polygon, c) then [c] else [])
  }

  /** The kept points of the first `i` lattice rows. */
  function GridRows(lat: Axis, lon: Axis, polygon: seq<Coord>, contains: (seq<Coord>, Coord) -> bool, i: nat): seq<Coord>
  {
    if i == 0 then [] else GridRows(lat, lon, polygon, contains, i - 1) + RowPoints(lat, lon, polygon, contains, i - 1, lon.count)
  }

  /** All kept lattice points, row by row. */
  function GridPoints(lat: Axis, lon: Axis, polygon: seq<Coord>, contains: (seq<Coord>, Coord) -> bool): seq<Coord>
  {
    GridRows(lat, lon, polygon, contains, lat.count)
  }

  /** Row-major order: by latitude, then by longitude. */
  predicate Before(p: Coord, q: Coord)
  {
    p.lat < q.lat || (p.lat == q.lat && p.lon < q.lon)
  }

  predicate RowMajor(s: seq<Coord>)
  {
    forall a, b :: 0 <= a < b < |s| ==> Before(s[a], s[b])
  }

  lemma RowMajorAppend(s: seq<Coord>, t: seq<Coord>)
    requires RowMajor(s) && RowMajor(t)
    requires forall p, q :: p in s && q in t ==> Before(p, q)
    ensures RowMajor(s + t)
  {
    var r := s + t;
    forall a, b | 0 <= a < b < |r| ensures Before(r[a], r[b]) {
      if b < |s| {
        assert r[a] == s[a] && r[b] == s[b];
      } else if a < |s| {
        assert r[a] == s[a] && s[a] in s && r[b] == t[b - |s|] && t[b - |s|] in t;
      } else {
        assert r[a] == t[a - |s|] && r[b] == t[b - |s|];
      }
    }
  }

  lemma {:induction false} RowPointsMembership(lat: Axis, lon: Axis, polygon: seq<Coord>, contains: (seq<Coord>, Coord) -> bool, i: nat, j: nat, c: Coord)
    ensures c in RowPoints(lat, lon, polygon, contains, i, j)
            <==> contains(polygon, c) && exists k: nat :: k < j && c == LatticePoint(lat, lon, i, k)
    decreases j
  {
    if j > 0 {
      RowPointsMembership(lat, lon, polygon, contains, i, j - 1, c);
    }
  }

  lemma {:induction false} GridRowsMembership(lat: Axis, lon: Axis, polygon: seq<Coord>, contains: (seq<Coord>, Coord) -> bool, i: nat, c: Coord)
    ensures c in GridRows(lat, lon, polygon, contains, i)
            <==> contains(polygon, c) && exists r: nat, k: nat :: r < i && k < lon.count && c == LatticePoint(lat, lon, r, k)
    decreases i
  {
    if i > 0 {
      GridRowsMembership(lat, lon, polygon, contains, i - 1, c);
      RowPointsMembership(lat, lon, polygon, contains, i - 1, lon.count, c);
    }
  }

  lemma {:induction false} RowPointsRowMajor(lat: Axis, lon: Axis, polygon: seq<Coord>, contains: (seq<Coord>, Coord) -> bool, i: nat, j: nat)
    requires lon.step > 0.0
    ensures RowMajor(RowPoints(lat, lon, polygon, contains, i, j))
    decreases j
  {
    if j > 0 {
      var init := RowPoints(lat, lon, polygon, contains, i, j - 1);
      var c := LatticePoint(lat, lon, i, j - 1);
      RowPointsRowMajor(lat, lon, polygon, contains, i, j - 1);
      forall p | p in init ensures Before(p, c) {
        RowPointsMembership(lat, lon, polygon, contains, i, j - 1, p);
        var k: nat :| k < j - 1 && p == LatticePoint(lat, lon, i, k);
        AxisIncreasing(lon, k, j - 1);
      }
      RowMajorAppend(init, if contains(polygon, c) then [c] else []);
    }
  }

  lemma {:induction false} GridRowsRowMajor(lat: Axis, lon: Axis, polygon: seq<Coord>, contains: (seq<Coord>, Coord) -> bool, i: nat)
    requires lat.step > 0.0 && lon.step > 0.0
    ensures RowMajor(GridRows(lat, lon, polygon, contains, i))
    decreases i
  {
    if i > 0 {
      var init := GridRows(lat, lon, polygon, contains, i - 1);
      var row := RowPoints(lat, lon, polygon, contains, i - 1, lon.count);
      GridRowsRowMajor(lat, lon, polygon, contains, i - 1);
      RowPointsRowMajor(lat, lon, polygon, contains, i - 1, lon.count);
      forall p, q | p in init && q in row ensures Before(p, q) {
        EarlierRowBefore(lat, lon, polygon, contains, i - 1, p, q);
      }
      RowMajorAppend(init, row);
    }
  }

  /** A kept point of an earlier row comes before every kept point of row `i`. */
  lemma EarlierRowBefore(lat: Axis, lon: Axis, polygon: seq<Coord>, contains: (seq<Coord>, Coord) -> bool, i: nat, p: Coord, q: Coord)
    requires lat.step > 0.0
    requires p in GridRows(lat, lon, polygon, contains, i)
    requires q in RowPoints(lat, lon, polygon, contains, i, lon.count)
    ensures Before(p, q)
  {
    GridRowsMembership(lat, lon, polygon, contains, i, p);
    RowPointsMembership(lat, lon, polygon, contains, i, lon.count, q);
    var r: nat, k: nat :| r < i && k < lon.count && p == LatticePoint(lat, lon, r, k);
    AxisIncreasing(lat, r, i);
  }

  /** Every kept point is contained and is a lattice point of the box. */
  lemma GridPointsInside(lat: Axis, lon: Axis, polygon: seq<Coord>, contains: (seq<Coord>, Coord) -> bool, c: Coord)
    requires lat.step > 0.0 && lon.step > 0.0
    requires c in GridPoints(lat, lon, polygon, contains)
    ensures contains(polygon, c)
    ensures exists r: nat, k: nat :: r < lat.count && k < lon.count && c == LatticePoint(lat, lon, r, k)
    ensures lat.start <= c.lat && lon.start <= c.lon
  {
    GridRowsMembership(lat, lon, polygon, contains, lat.count, c);
    var r: nat, k: nat :| r < lat.count && k < lon.count && c == LatticePoint(lat, lon, r, k);
    AxisIncreasing(lat, r, r);
    AxisIncreasing(lon, k, k);
  }

  /** The kept points come in row-major order. */
  lemma GridOrdered(polygon: seq<Coord>, contains: (seq<Coord>, Coord) -> bool, interval: int, kmPerLonDegree: real -> real)
    requires polygon != []
    requires interval > 0 && kmPerLonDegree(Bounds(polygon).latMin) > 0.0
    ensures RowMajor(GridPoints(LatAxis(Bounds(polygon), interval), LonAxis(Bounds(polygon), interval, kmPerLonDegree), polygon, contains))
  {
    var lat := LatAxis(Bounds(polygon), interval);
    GridRowsRowMajor(lat, LonAxis(Bounds(polygon), interval, kmPerLonDegree), polygon, contains, lat.count);
  }

  /** Each kept point is inside the polygon, with lat in [latMin, latMax) and lon in [lonMin, lonMax). */
  lemma GridBounded(polygon: seq<Coord>, contains: (seq<Coord>, Coord) -> bool, interval: int, kmPerLonDegree: real -> real)
    requires polygon != []
    requires interval > 0 && kmPerLonDegree(Bounds(polygon).latMin) > 0.0
    ensures var b := Bounds(polygon);
            forall c :: c in GridPoints(LatAxis(b, interval), LonAxis(b, interval, kmPerLonDegree), polygon, contains) ==>
              && contains(polygon, c)
              && b.latMin <= c.lat < b.latMax
              && b.lonMin <= c.lon < b.lonMax
  {
    var b := Bounds(polygon);
    forall c | c in GridPoints(LatAxis(b, interval), LonAxis(b, interval, kmPerLonDegree), polygon, contains)
      ensures contains(polygon, c) && b.latMin <= c.lat < b.latMax && b.lonMin <= c.lon < b.lonMax
    {
      GridPointBounded(b, polygon, contains, interval, kmPerLonDegree, c);
    }
  }

  /** One kept point of the grid over box `b` is inside the polygon and the half-open box. */
  lemma GridPointBounded(b: Box, polygon: seq<Coord>, contains: (seq<Coord>, Coord) -> bool, interval: int,
                         kmPerLonDegree: real -> real, c: Coord)
    requires interval > 0 && kmPerLonDegree(b.latMin) > 0.0
    requires c in GridPoints(LatAxis(b, interval), LonAxis(b, interval, kmPerLonDegree), polygon, contains)
    ensures contains(polygon, c) && b.latMin <= c.lat < b.latMax && b.lonMin <= c.lon < b.lonMax
  {
    var lat := LatAxis(b, interval);
    var lon := LonAxis(b, interval, kmPerLonDegree);
    GridPointsInside(lat, lon, polygon, contains, c);
    var r: nat, k: nat :| r < lat.count && k < lon.count && c == LatticePoint(lat, lon, r, k);
    assert lat.At(r) < b.latMax && lon.At(k) < b.lonMax;
  }



  /** Every lattice point the polygon contains is kept. */
  lemma GridComplete(polygon: seq<Coord>, contains: (seq<Coord>, Coord) -> bool, interval: int, kmPerLonDegree: real -> real)
    requires polygon != []
    requires interval > 0 && kmPerLonDegree(Bounds(polygon).latMin) > 0.0
    ensures var lat := LatAxis(Bounds(polygon), interval);
            var lon := LonAxis(Bounds(polygon), interval, kmPerLonDegree);
            forall i: nat, j: nat :: i < lat.count && j < lon.count && contains(polygon, LatticePoint(lat, lon, i, j))
              ==> LatticePoint(lat, lon, i, j) in GridPoints(lat, lon, polygon, contains)
  {
    var lat := LatAxis(Bounds(polygon), interval);
    var lon := LonAxis(Bounds(polygon), interval, kmPerLonDegree);
    forall i: nat, j: nat | i < lat.count && j < lon.count && contains(polygon, LatticePoint(lat, lon, i, j))
      ensures LatticePoint(lat, lon, i, j) in GridPoints(lat, lon, polygon, contains)
    {
      GridRowsMembership(lat, lon, polygon, contains, lat.count, LatticePoint(lat, lon, i, j));
    }
  }

  /** `create_grid` finds nothing exactly when no lattice point of the box is inside the polygon. */
  lemma GridEmptyIff(polygon: seq<Coord>, contains: (seq<Coord>, Coord) -> bool, interval: int, kmPerLonDegree: real -> real)
    requires polygon != []
    requires interval > 0 && kmPerLonDegree(Bounds(polygon).latMin) > 0.0
    ensures var lat := LatAxis(Bounds(polygon), interval);
            var lon := LonAxis(Bounds(polygon), interval, kmPerLonDegree);
            GridPoints(lat, lon, polygon, contains) == [] <==>
              forall i: nat, j: nat :: i < lat.count && j < lon.count ==> !contains(polygon, LatticePoint(lat, lon, i, j))
  {
    var lat := LatAxis(Bounds(polygon), interval);
    var lon := LonAxis(Bounds(polygon), interval, kmPerLonDegree);
    var g := GridPoints(lat, lon, polygon, contains);
    GridComplete(polygon, contains, interval, kmPerLonDegree);
    if g != [] {
      GridPointsInside(lat, lon, polygon, contains, g[0]);
    }
  }

  /** What the callers of `create_grid` rely on: the kept points are row-major, contained and inside the box. */
  lemma GridInsideBox(polygon: seq<Coord>, contains: (seq<Coord>, Coord) -> bool, interval: int, kmPerLonDegree: real -> real)
    requires polygon != []
    requires interval > 0 && kmPerLonDegree(Bounds(polygon).latMin) > 0.0
    ensures var g := GridPoints(LatAxis(Bounds(polygon), interval), LonAxis(Bounds(polygon), interval, kmPerLonDegree), polygon, contains);
            RowMajor(g) && forall c :: c in g ==> contains(polygon, c) && InBox(Bounds(polygon), c)
  {
    GridOrdered(polygon, contains, interval, kmPerLonDegree);
    GridBounded(polygon, contains, interval, kmPerLonDegree);
  }

  /** The nested loop of `create_grid`: every lattice point, row by row, kept when the polygon contains it. */
  method SampleLattice(lat: Axis, lon: Axis, polygon: seq<Coord>, contains: (seq<Coord>, Coord) -> bool)
    returns (stations: seq<Coord>)
    ensures stations == GridPoints(lat, lon, polygon, contains)
  {
    stations := [];
    var i := 0;
    while i < lat.count
      invariant 0 <= i <= lat.count
      invariant stations == GridRows(lat, lon, polygon, contains, i)
    {
      var j := 0;
      while j < lon.count
        invariant 0 <= j <= lon.count
        invariant stations == GridRows(lat, lon, polygon, contains, i) + RowPoints(lat, lon, polygon, contains, i, j)
      {
        var point := Coord(lat.At(i), lon.At(j));
        if contains(polygon, point) {
          stations := stations + [point];
        }
        j := j + 1;
      }
      i := i + 1;
    }
  }

  /**
    `create_grid`: sample the lattice over the polygon's bounding box and
    fail when no lattice point is inside.
   */
  method CreateGrid(polygon: seq<Coord>, contains: (seq<Coord>, Coord) -> bool, interval: int, kmPerLonDegree: real -> real)
    returns (r: Result<seq<Coord>, GenerationError>)
    requires |polygon| >= 3
    requires interval > 0 && kmPerLonDegree(Bounds(polygon).latMin) > 0.0
    ensures var b := Bounds(polygon);
            var g := GridPoints(LatAxis(b, interval), LonAxis(b, interval, kmPerLonDegree), polygon, contains);
            r == if g == [] then Err(NoStationGenerated) else Ok(g)
    ensures r.Ok? ==> RowMajor(r.value) && forall c :: c in r.value ==> contains(polygon, c) && InBox(Bounds(polygon), c)
  {
    var b := Bounds(polygon);
    var latStep := interval as real / KmPerLatDegree;
    var lonStep := interval as real / kmPerLonDegree(b.latMin);
    var latValues := Arange(b.latMin, b.latMax, latStep);
    var lonValues := Arange(b.lonMin, b.lonMax, lonStep);
    assert latValues == LatAxis(b, interval) && lonValues == LonAxis(b, interval, kmPerLonDegree);
    var stations := SampleLattice(latValues, lonValues, polygon, contains);
    GridInsideBox(polygon, contains, interval, kmPerLonDegree);
    if stations == [] {
      r := Err(NoStationGenerated);
    } else {
      r := Ok(stations);
    }
  }
}
