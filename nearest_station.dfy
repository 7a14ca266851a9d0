/**
  The distance filter of the planned-station tool: for every planned station
  ("sifen") find the nearest general station ("yiban") and keep the planned
  station when that nearest distance is within the chosen maximum.
 */
module NearestStation {
  import opened Geo

  /** One row of the result table: planned station, nearest station, distance. */
  datatype Match = Match(planned: string, nearest: string, distance: real)

  /**
    The index the scan over `refs` settles on: a later station replaces the
    current best only when it is strictly closer. `None` stands for the
    initial infinite distance, which survives only when `refs` is empty.
   */
  function Nearest(p: Coord, refs: seq<Station>, dist: Metric): (k: Option<nat>)
    ensures k.None? <==> refs == []
    ensures k.Some? ==> k.value < |refs|
    decreases |refs|
  {
    if refs == [] then None
    else
      var last := |refs| - 1;
      match Nearest(p, refs[..last], dist)
      case None => Some(last)
      case Some(best) =>
        if dist(p, refs[last].pos) < dist(p, refs[best].pos) then Some(last) else Some(best)
  }

  /** `k` is a station at minimal distance from `p`, and no earlier station is as close. */
  ghost predicate IsEarliestNearest(p: Coord, refs: seq<Station>, dist: Metric, k: nat)
  {
    && k < |refs|
    && (forall j :: 0 <= j < |refs| ==> dist(p, refs[k].pos) <= dist(p, refs[j].pos))
    && (forall j :: 0 <= j < k ==> dist(p, refs[k].pos) < dist(p, refs[j].pos))
  }

  /** The scan finds the minimum, and on ties the first station in table order. */
  lemma {:induction false} NearestIsEarliestMinimum(p: Coord, refs: seq<Station>, dist: Metric)
    requires refs != []
    ensures IsEarliestNearest(p, refs, dist, Nearest(p, refs, dist).value)
    decreases |refs|
  {
    var last := |refs| - 1;
    var init := refs[..last];
    if init != [] {
      NearestIsEarliestMinimum(p, init, dist);
      assert forall j :: 0 <= j < last ==> refs[j] == init[j];
    }
  }

  /** The minimum and earliest conditions pin down a single station. */
  lemma EarliestNearestIsUnique(p: Coord, refs: seq<Station>, dist: Metric, k1: nat, k2: nat)
    requires IsEarliestNearest(p, refs, dist, k1) && IsEarliestNearest(p, refs, dist, k2)
    ensures k1 == k2
  {
    assert dist(p, refs[k1].pos) == dist(p, refs[k2].pos);
  }

  /** The minimum distance from `p` to `refs`; `None` is the source's `inf`. */
  function MinDistance(p: Coord, refs: seq<Station>, dist: Metric): (d: Option<real>)
    ensures d.None? <==> refs == []
  {
    match Nearest(p, refs, dist)
    case None => None
    case Some(k) => Some(dist(p, refs[k].pos))
  }

  /** `inf <= maxDistance` is false, so an empty reference table keeps nothing. */
  predicate Within(p: Coord, refs: seq<Station>, maxDistance: real, dist: Metric)
  {
    match MinDistance(p, refs, dist)
    case None => false
    case Some(d) => d <= maxDistance
  }

  /** The result row written for a planned station that has a nearest station. */
  function MatchFor(s: Station, refs: seq<Station>, dist: Metric): Match
    requires refs != []
  {
    var k := Nearest(s.pos, refs, dist).value;
    Match(s.name, refs[k].name, dist(s.pos, refs[k].pos))
  }

  /** Positions in `planned` of the rows the filter keeps, in table order. */
  function KeptIndices(planned: seq<Station>, refs: seq<Station>, maxDistance: real, dist: Metric): (r: seq<nat>)
    ensures forall i :: i in r ==> i < |planned|
    decreases |planned|
  {
    if planned == [] then []
    else
      var last := |planned| - 1;
      KeptIndices(planned[..last], refs, maxDistance, dist)
        + (if Within(planned[last].pos, refs, maxDistance, dist) then [last] else [])
  }

  /** The planned rows the filter keeps (`filtered_rows`). */
  function KeptRows(planned: seq<Station>, refs: seq<Station>, maxDistance: real, dist: Metric): seq<Station>
    decreases |planned|
  {
    if planned == [] then []
    else
      var last := |planned| - 1;
      KeptRows(planned[..last], refs, maxDistance, dist)
        + (if Within(planned[last].pos, refs, maxDistance, dist) then [planned[last]] else [])
  }

  /** The result table (`results`). */
  function Matches(planned: seq<Station>, refs: seq<Station>, maxDistance: real, dist: Metric): seq<Match>
    decreases |planned|
  {
    if planned == [] then []
    else
      var last := |planned| - 1;
      Matches(planned[..last], refs, maxDistance, dist)
        + (if Within(planned[last].pos, refs, maxDistance, dist) then [MatchFor(planned[last], refs, dist)] else [])
  }

  /** A planned row is kept iff its minimum distance is at most the threshold (boundary included). */
  lemma {:induction false} KeptIndicesMembership(planned: seq<Station>, refs: seq<Station>, maxDistance: real, dist: Metric, i: nat)
    ensures i in KeptIndices(planned, refs, maxDistance, dist)
            <==> i < |planned| && Within(planned[i].pos, refs, maxDistance, dist)
    decreases |planned|
  {
    if planned != [] {
      var last := |planned| - 1;
      KeptIndicesMembership(planned[..last], refs, maxDistance, dist, i);
    }
  }

  predicate StrictlyIncreasing(s: seq<nat>)
  {
    forall a, b :: 0 <= a < b < |s| ==> s[a] < s[b]
  }

  /** Kept positions are strictly increasing: the order of `planned` is kept, each row at most once. */
  lemma {:induction false} KeptIndicesIncreasing(planned: seq<Station>, refs: seq<Station>, maxDistance: real, dist: Metric)
    ensures StrictlyIncreasing(KeptIndices(planned, refs, maxDistance, dist))
    decreases |planned|
  {
    if planned != [] {
      var last := |planned| - 1;
      var init := KeptIndices(planned[..last], refs, maxDistance, dist);
      KeptIndicesIncreasing(planned[..last], refs, maxDistance, dist);
      var r := KeptIndices(planned, refs, maxDistance, dist);
      assert r == init + (if Within(planned[last].pos, refs, maxDistance, dist) then [last] else []);
      forall a, b | 0 <= a < b < |r| ensures r[a] < r[b] {
        if b == |init| {
          assert r[b] == last;
          assert r[a] == init[a] && init[a] in init;
        } else {
          assert r[a] == init[a] && r[b] == init[b];
        }
      }
    }
  }

  /**
    `m` is the result row for planned station `s`: it names `s`, the
    earliest nearest reference station and their distance, which is within
    the threshold.
   */
  ghost predicate ReportsNearest(m: Match, s: Station, refs: seq<Station>, maxDistance: real, dist: Metric)
  {
    && m.planned == s.name
    && m.distance <= maxDistance
    && exists j: nat :: IsEarliestNearest(s.pos, refs, dist, j)
                     && m.nearest == refs[j].name
                     && m.distance == dist(s.pos, refs[j].pos)
  }

  /** The row written for a kept planned station reports its nearest station. */
  lemma MatchForReports(s: Station, refs: seq<Station>, maxDistance: real, dist: Metric)
    requires Within(s.pos, refs, maxDistance, dist)
    ensures refs != [] && ReportsNearest(MatchFor(s, refs, dist), s, refs, maxDistance, dist)
  {
    NearestIsEarliestMinimum(s.pos, refs, dist);
  }

  /**
    `results` and `filtered_rows` line up with the kept positions: the k-th
    kept row is `planned` at the k-th kept position, and the k-th result row
    reports that row's nearest station.
   */
  lemma {:induction false} KeptRowsAligned(planned: seq<Station>, refs: seq<Station>, maxDistance: real, dist: Metric)
    ensures var idx := KeptIndices(planned, refs, maxDistance, dist);
            var rows := KeptRows(planned, refs, maxDistance, dist);
            var ms := Matches(planned, refs, maxDistance, dist);
            && |rows| == |idx| && |ms| == |idx|
            && forall k :: 0 <= k < |idx| ==>
                 && idx[k] < |planned|
                 && rows[k] == planned[idx[k]]
                 && ReportsNearest(ms[k], rows[k], refs, maxDistance, dist)
    decreases |planned|
  {
    if planned != [] {
      var last := |planned| - 1;
      var init := planned[..last];
      KeptRowsAligned(init, refs, maxDistance, dist);
      var idx0 := KeptIndices(init, refs, maxDistance, dist);
      var rows0 := KeptRows(init, refs, maxDistance, dist);
      var ms0 := Matches(init, refs, maxDistance, dist);
      var idx := KeptIndices(planned, refs, maxDistance, dist);
      var rows := KeptRows(planned, refs, maxDistance, dist);
      var ms := Matches(planned, refs, maxDistance, dist);
      if Within(planned[last].pos, refs, maxDistance, dist) {
        MatchForReports(planned[last], refs, maxDistance, dist);
        assert idx == idx0 + [last] && rows == rows0 + [planned[last]] && ms == ms0 + [MatchFor(planned[last], refs, dist)];
      } else {
        assert idx == idx0 && rows == rows0 && ms == ms0;
      }
      forall k | 0 <= k < |idx|
        ensures idx[k] < |planned| && rows[k] == planned[idx[k]] && ReportsNearest(ms[k], rows[k], refs, maxDistance, dist)
      {
        if k < |idx0| {
          assert idx[k] == idx0[k] && rows[k] == rows0[k] && ms[k] == ms0[k];
          assert planned[idx0[k]] == init[idx0[k]];
        }
      }
    }
  }

  /** Raising the threshold never removes a planned row from the result. */
  lemma ThresholdMonotone(planned: seq<Station>, refs: seq<Station>, lower: real, higher: real, dist: Metric)
    requires lower <= higher
    ensures forall i :: i in KeptIndices(planned, refs, lower, dist) ==> i in KeptIndices(planned, refs, higher, dist)
  {
    forall i | i in KeptIndices(planned, refs, lower, dist)
      ensures i in KeptIndices(planned, refs, higher, dist)
    {
      KeptIndicesMembership(planned, refs, lower, dist, i);
      KeptIndicesMembership(planned, refs, higher, dist, i);
    }
  }

  /** With no reference stations every minimum is `inf` and nothing is kept. */
  lemma {:induction false} NoReferenceKeepsNothing(planned: seq<Station>, maxDistance: real, dist: Metric)
    ensures Matches(planned, [], maxDistance, dist) == []
    ensures KeptRows(planned, [], maxDistance, dist) == []
    decreases |planned|
  {
    if planned != [] {
      NoReferenceKeepsNothing(planned[..|planned| - 1], maxDistance, dist);
    }
  }

  /**
    The scan of `find_closest_station`: the name and distance of the earliest
    nearest station, or `("", inf)` when there is none.
   */
  method FindClosestStation(p: Coord, stations: seq<Station>, dist: Metric)
    returns (closest: string, minDistance: Option<real>)
    ensures minDistance == MinDistance(p, stations, dist)
    ensures stations == [] ==> closest == ""
    ensures stations != [] ==> closest == stations[Nearest(p, stations, dist).value].name
    ensures stations != [] ==>
              exists k: nat :: IsEarliestNearest(p, stations, dist, k)
                          && closest == stations[k].name
                          && minDistance == Some(dist(p, stations[k].pos))
  {
    closest, minDistance := "", None;
    ghost var best: Option<nat> := None;
    var i := 0;
    while i < |stations|
      invariant 0 <= i <= |stations|
      invariant best == Nearest(p, stations[..i], dist)
      invariant best.None? ==> closest == "" && minDistance == None
      invariant best.Some? ==> best.value < i && closest == stations[best.value].name
                               && minDistance == Some(dist(p, stations[best.value].pos))
    {
      assert stations[..i + 1][..i] == stations[..i];
      var d := dist(p, stations[i].pos);
      if minDistance.None? || d < minDistance.value {
        minDistance := Some(d);
        closest := stations[i].name;
        best := Some(i);
      }
      i := i + 1;
    }
    assert stations[..i] == stations;
    if stations != [] {
      NearestIsEarliestMinimum(p, stations, dist);
    }
  }

  /** The window of the planned-station tool, reduced to the state the filter reads and writes. */
  class EarthquakeApp {
    /** General (already built) stations, `None` until a file is loaded. */
    var yiban: Option<seq<Station>>
    /** Planned stations, `None` until a file is loaded. */
    var sifen: Option<seq<Station>>
    /** Planned stations that passed the last filter, `None` before the first one. */
    var filteredSifen: Option<seq<Station>>
    /** Rows shown in the result table (what the save button exports). */
    var resultTable: seq<Match>

    constructor ()
      ensures yiban == None && sifen == None && filteredSifen == None && resultTable == []
    {
      yiban, sifen, filteredSifen, resultTable := None, None, None, [];
    }

    /**
      `filter_data`: without both tables nothing happens; otherwise every
      planned station within `maxDistance` of its nearest general station
      is kept, in table order, and the result table shows the matches.
     */
    method FilterData(maxDistance: int, dist: Metric)
      modifies this
      ensures yiban == old(yiban) && sifen == old(sifen)
      ensures old(sifen).None? || old(yiban).None? ==>
                filteredSifen == old(filteredSifen) && resultTable == old(resultTable)
      ensures old(sifen).Some? && old(yiban).Some? ==>
                && filteredSifen == Some(KeptRows(sifen.value, yiban.value, maxDistance as real, dist))
                && resultTable == Matches(sifen.value, yiban.value, maxDistance as real, dist)
    {
      if sifen.None? || yiban.None? {
        return;
      }
      var planned, refs := sifen.value, yiban.value;
      var limit := maxDistance as real;
      var results: seq<Match> := [];
      var filteredRows: seq<Station> := [];
      var i := 0;
      while i < |planned|
        invariant 0 <= i <= |planned|
        invariant sifen == old(sifen) && yiban == old(yiban)
        invariant results == Matches(planned[..i], refs, limit, dist)
        invariant filteredRows == KeptRows(planned[..i], refs, limit, dist)
      {
        assert planned[..i + 1][..i] == planned[..i];
        var row := planned[i];
        var closest, minDistance := FindClosestStation(row.pos, refs, dist);
        if minDistance.Some? && minDistance.value <= limit {
          results := results + [Match(row.name, closest, minDistance.value)];
          filteredRows := filteredRows + [row];
        }
        i := i + 1;
      }
      assert planned[..i] == planned;
      filteredSifen := Some(filteredRows);
      resultTable := results;
    }
  }
}
