/**
  The pairwise filter of the station-distance tool: every pair of rows of one
  station table, taken in `itertools.combinations` order, is reported when
  the two names differ and their distance is within the chosen maximum.
 */
module ClosePairs {
  import opened Geo

  /** One result row: the two station names and their distance. */
  datatype PairRow = PairRow(first: string, second: string, distance: real)

  /** A pair of row positions (i, j). */
  type IndexPair = (nat, nat)

  /** Lexicographic order on index pairs. */
  predicate LexBefore(p: IndexPair, q: IndexPair)
  {
    p.0 < q.0 || (p.0 == q.0 && p.1 < q.1)
  }

  predicate LexIncreasing(s: seq<IndexPair>)
  {
    forall a, b :: 0 <= a < b < |s| ==> LexBefore(s[a], s[b])
  }

  /** The pairs (i, k) with i < k < j, in increasing k. */
  function RowPairs(i: nat, j: nat): seq<IndexPair>
    decreases j
  {
    if j <= i + 1 then [] else RowPairs(i, j - 1) + [(i, j - 1)]
  }

  /** All pairs of positions below `n` whose first position is below `i`, in lexicographic order. */
  function PairsBefore(n: nat, i: nat): seq<IndexPair>
  {
    if i == 0 then [] else PairsBefore(n, i - 1) + RowPairs(i - 1, n)
  }

  /** `itertools.combinations(range(n), 2)`. */
  function Combinations(n: nat): seq<IndexPair>
  {
    PairsBefore(n, n)
  }

  lemma {:induction false} RowPairsMembership(i: nat, j: nat)
    ensures forall p {:trigger p in RowPairs(i, j)} :: p in RowPairs(i, j) <==> p.0 == i && i < p.1 < j
    decreases j
  {
    if j > i + 1 {
      RowPairsMembership(i, j - 1);
    }
  }

  lemma {:induction false} RowPairsIncreasing(i: nat, j: nat)
    ensures LexIncreasing(RowPairs(i, j))
    decreases j
  {
    if j > i + 1 {
      RowPairsIncreasing(i, j - 1);
      RowPairsMembership(i, j - 1);
      var init := RowPairs(i, j - 1);
      var r := RowPairs(i, j);
      forall a, b | 0 <= a < b < |r| ensures LexBefore(r[a], r[b]) {
        if b == |init| {
          assert r[a] == init[a] && init[a] in init;
        } else {
          assert r[a] == init[a] && r[b] == init[b];
        }
      }
    }
  }

  lemma {:induction false} RowPairsLength(i: nat, j: nat)
    ensures |RowPairs(i, j)| == if j <= i + 1 then 0 else j - i - 1
    decreases j
  {
    if j > i + 1 {
      RowPairsLength(i, j - 1);
    }
  }

  /** Concatenating two lexicographically increasing runs, the first wholly below the second. */
  lemma LexIncreasingAppend(s: seq<IndexPair>, t: seq<IndexPair>)
    requires LexIncreasing(s) && LexIncreasing(t)
    requires forall p, q :: p in s && q in t ==> LexBefore(p, q)
    ensures LexIncreasing(s + t)
  {
    var r := s + t;
    forall a, b | 0 <= a < b < |r| ensures LexBefore(r[a], r[b]) {
      if b < |s| {
        assert r[a] == s[a] && r[b] == s[b];
      } else if a < |s| {
        assert r[a] == s[a] && s[a] in s && r[b] == t[b - |s|] && t[b - |s|] in t;
      } else {
        assert r[a] == t[a - |s|] && r[b] == t[b - |s|];
      }
    }
  }

  lemma {:induction false} PairsBeforeMembership(n: nat, i: nat)
    requires i <= n
    ensures forall p {:trigger p in PairsBefore(n, i)} :: p in PairsBefore(n, i) <==> p.0 < i && p.0 < p.1 < n
    decreases i
  {
    if i > 0 {
      PairsBeforeMembership(n, i - 1);
      RowPairsMembership(i - 1, n);
      assert PairsBefore(n, i) == PairsBefore(n, i - 1) + RowPairs(i - 1, n);
    }
  }

  /** Every pair of the earlier rows comes before every pair of row i - 1. */
  lemma EarlierRowsFirst(n: nat, i: nat)
    requires 0 < i <= n
    ensures forall p, q :: p in PairsBefore(n, i - 1) && q in RowPairs(i - 1, n) ==> LexBefore(p, q)
  {
    forall p, q | p in PairsBefore(n, i - 1) && q in RowPairs(i - 1, n) ensures LexBefore(p, q) {
      PairsBeforeMembership(n, i - 1);
      RowPairsMembership(i - 1, n);
      assert p.0 < i - 1 && q.0 == i - 1;
    }
  }

  lemma {:induction false} PairsBeforeIncreasing(n: nat, i: nat)
    requires i <= n
    ensures LexIncreasing(PairsBefore(n, i))
    decreases i
  {
    if i > 0 {
      PairsBeforeIncreasing(n, i - 1);
      RowPairsIncreasing(i - 1, n);
      EarlierRowsFirst(n, i);
      LexIncreasingAppend(PairsBefore(n, i - 1), RowPairs(i - 1, n));
    }
  }

  /** Row k < i contributes n - k - 1 pairs; twice their sum is i(2n - 1 - i). */
  lemma {:induction false} PairsBeforeCount(n: nat, i: nat)
    requires i <= n
    ensures 2 * |PairsBefore(n, i)| == i * (2 * n - 1 - i)
    decreases i
  {
    if i > 0 {
      PairsBeforeCount(n, i - 1);
      RowPairsLength(i - 1, n);
      CountStep(n, i, |PairsBefore(n, i - 1)|);
    }
  }

  lemma CountStep(n: int, i: int, prev: int)
    requires 2 * prev == (i - 1) * (2 * n - i)
    ensures 2 * (prev + (n - i)) == i * (2 * n - 1 - i)
  {
    var m := 2 * n - i;
    assert (i - 1) * m == i * m - m;
    assert i * (m - 1) == i * m - i;
  }

  /**
    The combinations enumeration visits exactly the pairs i < j < n, each
    once, in lexicographic order, n(n-1)/2 of them.
   */
  lemma CombinationsShape(n: nat)
    ensures forall p :: p in Combinations(n) <==> p.0 < p.1 < n
    ensures LexIncreasing(Combinations(n))
    ensures 2 * |Combinations(n)| == n * (n - 1)
  {
    PairsBeforeMembership(n, n);
    PairsBeforeIncreasing(n, n);
    PairsBeforeCount(n, n);
  }

  /** The test applied to one pair of rows. */
  predicate Keeps(st: seq<Station>, maxDistance: real, dist: Metric, p: IndexPair)
  {
    && p.0 < |st| && p.1 < |st|
    && st[p.0].name != st[p.1].name
    && dist(st[p.0].pos, st[p.1].pos) <= maxDistance
  }

  function Entry(st: seq<Station>, dist: Metric, p: IndexPair): PairRow
    requires p.0 < |st| && p.1 < |st|
  {
    PairRow(st[p.0].name, st[p.1].name, dist(st[p.0].pos, st[p.1].pos))
  }

  /** The pairs of `ps` that pass the test, in the order of `ps`. */
  function Selected(st: seq<Station>, maxDistance: real, dist: Metric, ps: seq<IndexPair>): (r: seq<IndexPair>)
    ensures forall p :: p in r ==> Keeps(st, maxDistance, dist, p)
    decreases |ps|
  {
    if ps == [] then []
    else
      var last := ps[|ps| - 1];
      Selected(st, maxDistance, dist, ps[..|ps| - 1])
        + (if Keeps(st, maxDistance, dist, last) then [last] else [])
  }

  /** The rows appended to `filtered_results` while walking `ps`. */
  function Rows(st: seq<Station>, maxDistance: real, dist: Metric, ps: seq<IndexPair>): seq<PairRow>
    decreases |ps|
  {
    if ps == [] then []
    else
      var last := ps[|ps| - 1];
      Rows(st, maxDistance, dist, ps[..|ps| - 1])
        + (if Keeps(st, maxDistance, dist, last) then [Entry(st, dist, last)] else [])
  }

  /** The result of one run of the filter over a whole table. */
  function ClosePairRows(st: seq<Station>, maxDistance: real, dist: Metric): seq<PairRow>
  {
    Rows(st, maxDistance, dist, Combinations(|st|))
  }

  lemma {:induction false} SelectedMembership(st: seq<Station>, maxDistance: real, dist: Metric, ps: seq<IndexPair>, p: IndexPair)
    ensures p in Selected(st, maxDistance, dist, ps) <==> p in ps && Keeps(st, maxDistance, dist, p)
    decreases |ps|
  {
    if ps != [] {
      SelectedMembership(st, maxDistance, dist, ps[..|ps| - 1], p);
      assert ps == ps[..|ps| - 1] + [ps[|ps| - 1]];
    }
  }

  /** Filtering keeps the enumeration order. */
  lemma {:induction false} SelectedIncreasing(st: seq<Station>, maxDistance: real, dist: Metric, ps: seq<IndexPair>)
    requires LexIncreasing(ps)
    ensures LexIncreasing(Selected(st, maxDistance, dist, ps))
    ensures |Selected(st, maxDistance, dist, ps)| <= |ps|
    decreases |ps|
  {
    if ps != [] {
      var n := |ps| - 1;
      var init := ps[..n];
      SelectedIncreasing(st, maxDistance, dist, init);
      var sel := Selected(st, maxDistance, dist, init);
      forall q | q in sel ensures LexBefore(q, ps[n]) {
        SelectedMembership(st, maxDistance, dist, init, q);
        var k :| 0 <= k < n && init[k] == q;
      }
      LexIncreasingAppend(sel, if Keeps(st, maxDistance, dist, ps[n]) then [ps[n]] else []);
    }
  }

  /** The k-th result row is the entry of the k-th selected pair. */
  lemma {:induction false} RowsFollowSelected(st: seq<Station>, maxDistance: real, dist: Metric, ps: seq<IndexPair>)
    ensures var sel := Selected(st, maxDistance, dist, ps);
            var rows := Rows(st, maxDistance, dist, ps);
            && |rows| == |sel|
            && forall k :: 0 <= k < |sel| ==>
                 && Keeps(st, maxDistance, dist, sel[k])
                 && rows[k] == Entry(st, dist, sel[k])
    decreases |ps|
  {
    if ps != [] {
      RowsFollowSelected(st, maxDistance, dist, ps[..|ps| - 1]);
      var sel := Selected(st, maxDistance, dist, ps);
      assert forall k :: 0 <= k < |sel| ==> sel[k] in sel;
    }
  }

  /**
    What one run reports: exactly the pairs i < j with different names and
    distance at most the threshold, in lexicographic order of (i, j), each
    at most once, so at most n(n-1)/2 rows, none pairing a name with itself.
   */
  lemma ClosePairsSpec(st: seq<Station>, maxDistance: real, dist: Metric)
    ensures var sel := Selected(st, maxDistance, dist, Combinations(|st|));
            var rows := ClosePairRows(st, maxDistance, dist);
            && (forall p :: p in sel <==>
                  p.0 < p.1 < |st| && st[p.0].name != st[p.1].name
                  && dist(st[p.0].pos, st[p.1].pos) <= maxDistance)
            && LexIncreasing(sel)
            && |rows| == |sel|
            && 2 * |rows| <= |st| * (|st| - 1)
            && forall k :: 0 <= k < |rows| ==>
                 && sel[k].0 < sel[k].1 < |st|
                 && rows[k] == Entry(st, dist, sel[k])
                 && rows[k].first != rows[k].second
                 && rows[k].distance <= maxDistance
  {
    var n := |st|;
    var ps := Combinations(n);
    CombinationsShape(n);
    SelectedIncreasing(st, maxDistance, dist, ps);
    RowsFollowSelected(st, maxDistance, dist, ps);
    var sel := Selected(st, maxDistance, dist, ps);
    forall p: IndexPair
      ensures p in sel <==> (p.0 < p.1 < n && st[p.0].name != st[p.1].name
                             && dist(st[p.0].pos, st[p.1].pos) <= maxDistance)
    {
      SelectedMembership(st, maxDistance, dist, ps, p);
    }
    forall k | 0 <= k < |sel| ensures sel[k].0 < sel[k].1 < n {
      assert sel[k] in sel;
    }
  }

  /** Raising the threshold never removes a pair from the result. */
  lemma ThresholdMonotone(st: seq<Station>, lower: real, higher: real, dist: Metric)
    requires lower <= higher
    ensures forall p :: p in Selected(st, lower, dist, Combinations(|st|))
                        ==> p in Selected(st, higher, dist, Combinations(|st|))
  {
    forall p | p in Selected(st, lower, dist, Combinations(|st|))
      ensures p in Selected(st, higher, dist, Combinations(|st|))
    {
      SelectedMembership(st, lower, dist, Combinations(|st|), p);
      SelectedMembership(st, higher, dist, Combinations(|st|), p);
    }
  }

  /** The station-distance widget, reduced to the state the filter reads and writes. */
  class StationDistanceWidget {
    /** The loaded station table, `None` until a file is loaded. */
    var stations: Option<seq<Station>>
    /** Rows of the last run, shown in the result table. */
    var filteredResults: seq<PairRow>

    constructor ()
      ensures stations == None && filteredResults == []
    {
      stations, filteredResults := None, [];
    }

    /**
      `filter_data`: without a table nothing changes (the source only warns);
      otherwise the result list is cleared and refilled by walking the
      combinations of row positions.
     */
    method FilterData(maxDistance: int, dist: Metric)
      modifies this
      ensures stations == old(stations)
      ensures old(stations).None? ==> filteredResults == old(filteredResults)
      ensures old(stations).Some? ==>
                filteredResults == ClosePairRows(stations.value, maxDistance as real, dist)
    {
      if stations.None? {
        return;
      }
      var st := stations.value;
      var limit := maxDistance as real;
      filteredResults := [];
      var pairs := Combinations(|st|);
      CombinationsShape(|st|);
      var k := 0;
      while k < |pairs|
        invariant 0 <= k <= |pairs|
        invariant stations == old(stations)
        invariant filteredResults == Rows(st, limit, dist, pairs[..k])
      {
        assert pairs[..k + 1][..k] == pairs[..k];
        assert pairs[k] in pairs;
        var (i, j) := pairs[k];
        var row1, row2 := st[i], st[j];
        if row1.name != row2.name {
          var distance := dist(row1.pos, row2.pos);
          if distance <= limit {
            filteredResults := filteredResults + [PairRow(row1.name, row2.name, distance)];
          }
        }
        k := k + 1;
      }
      assert pairs[..k] == pairs;
    }
  }
}
