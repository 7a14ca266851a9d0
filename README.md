# Seismic station planning tools — a verified model

The repository is a desktop toolkit that helps plan seismic monitoring stations. It has three windows, and this project models the logic behind each one.

* **Planned-station filter** (`Function1.py`). There are two station tables: the general stations already built (`yiban`) and the planned stations (`sifen`). For every planned station, the window finds the nearest general station and keeps the planned station when that distance is at most the threshold. The result table lists each kept planned station with the name of its nearest general station and that distance. Ties go to the earliest general station.
* **Close-pair finder** (`Function2.py`). The window takes one station table and lists every unordered pair of rows, in `itertools.combinations` order, whose names differ and whose distance is at most the threshold.
* **Station generator** (`Function3.py`).
  * It reads four corner coordinates from text fields, checks that each is a number and lies in range, and orders the corners with a convex hull.
  * It checks that the resulting polygon is valid. It then samples a lattice inside the polygon's bounding box and keeps the points inside the polygon, using `interval / 111` degrees of latitude and `interval / (111·cos latMin)` degrees of longitude as steps.
  * It stores the points as markers `Station_1`, `Station_2`, … and stores the polygon.
  * Separately, it parses a fault-line text file. Lines starting with `>` separate the blocks. Every other line holds `lon lat` pairs, and the parser turns them into blocks of `(lat, lon)` points.

Modules:

| file | module | models |
|---|---|---|
| `geo.dfy` | `Geo` | coordinates, stations, `Option`/`Result`, the range check `-90 ≤ lat ≤ 90`, `-180 ≤ lon ≤ 180`, the errors `generate_stations` reports |
| `nearest_station.dfy` | `NearestStation` | `find_closest_station`, `filter_data` of the planned-station window (a class over its tables) |
| `close_pairs.dfy` | `ClosePairs` | `itertools.combinations(range(n), 2)`, `filter_data` of the close-pair window (a class) |
| `fault_lines.dfy` | `FaultLines` | `str.strip`, `str.split`, the line-by-line fault file parser |
| `grid.dfy` | `Grid` | `polygon.bounds`, `np.arange`, `create_grid` with its nested loops |
| `station_generation.dfy` | `StationGeneration` | `generate_stations`, `load_fault_data` and the window state they update (a class) |

Several things the source takes from libraries are parameters of the model:

* The great-circle distance is a `Metric`, a function `(Coord, Coord) -> real`.
* Python's `float()` on a stripped token is `parseFloat: string -> Option<real>`, where `None` means `ValueError`.
* Shapely's `Polygon.contains` is `contains`, and `Polygon.is_valid` is `isValid`.
* SciPy's `ConvexHull(...).vertices` is `hull`. It returns indices, or `None` when Qhull raises.
* `111·cos(radians(lat))` is `kmPerLonDegree`. Callers must guarantee it is positive on `[-90, 90]`.

`float('inf')`, the starting minimum of the nearest-station scan, is `None`.

## Model

| member | source | states |
|---|---|---|
| Geo.InRange | Function3.py:342 | the range check `-90 <= lat <= 90 and -180 <= lon <= 180`, bounds included; ReadCornerCases and CornersInRange state where it applies |
| NearestStation.Nearest | Function1.py:279-287 | the scan reports no station exactly when the table is empty, and otherwise an index inside the table |
| NearestStation.NearestIsEarliestMinimum | Function1.py:279-287 | the reported index has the least distance of all stations and every earlier station is strictly farther (strict `<` at line 284 keeps the first minimum) |
| NearestStation.EarliestNearestIsUnique | Function1.py:282-286 | at most one index is the earliest nearest station, so the tie-break is well defined |
| NearestStation.MinDistance | Function1.py:280-287 | the minimum distance stays infinite exactly when the table is empty |
| NearestStation.Within | Function1.py:230 | the threshold test `min_distance <= max_distance`, false for the infinite minimum of an empty general table; KeptIndicesMembership, ThresholdMonotone and NoReferenceKeepsNothing state its effect |
| NearestStation.MatchFor | Function1.py:231 | the result row `[name, closest_station, min_distance]` of a planned station; MatchForReports states its contents |
| NearestStation.FindClosestStation | Function1.py:279-287 | the loop returns `""` and infinity for an empty table; otherwise it returns the name and distance of the earliest nearest station |
| NearestStation.KeptIndices | Function1.py:227-232 | every kept position lies inside the planned table |
| NearestStation.KeptIndicesMembership | Function1.py:227-232 | a planned row is kept exactly when the general table is non-empty and its nearest distance is at most the threshold |
| NearestStation.KeptIndicesIncreasing | Function1.py:227-232 | kept rows appear in table order, each at most once |
| NearestStation.KeptRows | Function1.py:227-232 | `filtered_rows`: the planned rows that pass `Within`, in table order; KeptRowsAligned ties them to the kept positions |
| NearestStation.Matches | Function1.py:227-232 | `results`: one `MatchFor` row per kept planned row, in table order; KeptRowsAligned ties them to the kept positions |
| NearestStation.MatchForReports | Function1.py:229-231 | a kept planned station's result row names the station, its earliest nearest general station and that distance, which is within the threshold |
| NearestStation.KeptRowsAligned | Function1.py:227-234 | `filtered_sifen` and the result rows line up one for one with the kept positions, each row reporting its station's nearest match |
| NearestStation.ThresholdMonotone | Function1.py:230 | raising the threshold never drops a planned station |
| NearestStation.NoReferenceKeepsNothing | Function1.py:227-232 | with an empty general table the infinite minimum passes no threshold, so nothing is kept |
| NearestStation.EarthquakeApp.constructor | Function1.py:18-25 | both tables and the filtered table start unloaded and the result table starts empty |
| NearestStation.EarthquakeApp.FilterData | Function1.py:219-235 | without both tables nothing changes; otherwise `filtered_sifen` becomes the kept planned rows and the result table shows their matches, while the source tables stay unchanged |
| ClosePairs.RowPairs | Function2.py:127 | the pairs `(i, k)` for increasing `k` below `j`; RowPairsMembership, RowPairsIncreasing and RowPairsLength state which and how many |
| ClosePairs.PairsBefore | Function2.py:127 | the rows of pairs whose first position is below `i`, one after another; PairsBeforeMembership, PairsBeforeIncreasing and PairsBeforeCount state which, in what order and how many |
| ClosePairs.RowPairsMembership | Function2.py:127 | the pairs emitted for row `i` are exactly `(i, k)` with `i < k < n` |
| ClosePairs.RowPairsIncreasing | Function2.py:127 | the pairs of one row come out in strictly increasing lexicographic order |
| ClosePairs.RowPairsLength | Function2.py:127 | row `i` below `j` has `j − i − 1` pairs, or none when `j ≤ i + 1` |
| ClosePairs.LexIncreasingAppend | Function2.py:127 | proof helper for PairsBeforeIncreasing: two increasing runs, every pair of the first before every pair of the second, join into an increasing run |
| ClosePairs.PairsBeforeMembership | Function2.py:127 | the pairs of the first `i` rows are exactly those whose first index is below `i` |
| ClosePairs.EarlierRowsFirst | Function2.py:127 | every pair of the earlier rows comes before every pair of the next row |
| ClosePairs.PairsBeforeIncreasing | Function2.py:127 | combinations come out in strictly increasing lexicographic order |
| ClosePairs.PairsBeforeCount | Function2.py:127 | the number of pairs of the first `i` rows |
| ClosePairs.CountStep | Function2.py:127 | proof helper for PairsBeforeCount: the arithmetic of adding one row to the running pair count |
| ClosePairs.Combinations | Function2.py:127 | `itertools.combinations(range(n), 2)` as the rows of pairs below `n`, one after another; CombinationsShape states what it yields |
| ClosePairs.CombinationsShape | Function2.py:127-128 | `combinations(range(n), 2)` yields every pair `p.0 < p.1 < n` once, in lexicographic order, n(n−1)/2 in all |
| ClosePairs.Keeps | Function2.py:131-133 | the test applied to one pair: both positions in the table, different names, distance at most the threshold; SelectedMembership states which pairs pass |
| ClosePairs.Entry | Function2.py:134 | the row appended for a kept pair: both names and their distance; RowsFollowSelected states that each row is this entry |
| ClosePairs.Selected | Function2.py:131-133 | every selected pair passes the name and distance test |
| ClosePairs.SelectedMembership | Function2.py:131-133 | a pair is selected exactly when it is enumerated and has different names and a distance at most the threshold |
| ClosePairs.SelectedIncreasing | Function2.py:128-134 | filtering keeps the enumeration order and never adds pairs |
| ClosePairs.RowsFollowSelected | Function2.py:134 | each result row holds the two names and the distance of the corresponding selected pair |
| ClosePairs.Rows | Function2.py:128-134 | the rows appended while walking a sequence of pairs; RowsFollowSelected and ClosePairsSpec state which rows these are |
| ClosePairs.ClosePairRows | Function2.py:127-134 | `filtered_results` after one run over the whole table; ClosePairsSpec states exactly which rows it holds |
| ClosePairs.ClosePairsSpec | Function2.py:119-134 | the result rows are exactly the qualifying pairs `i < j`, in lexicographic order, with names and distance |
| ClosePairs.ThresholdMonotone | Function2.py:133 | raising the threshold never drops a pair |
| ClosePairs.StationDistanceWidget.constructor | Function2.py:24-27 | no table is loaded and the result list is empty |
| ClosePairs.StationDistanceWidget.FilterData | Function2.py:119-134 | without a table nothing changes; otherwise the result list is reset and becomes the rows of all qualifying pairs |
| FaultLines.IsSpace | Function3.py:152 | the characters `str.isspace` accepts, which `strip()` and `split()` treat as whitespace |
| FaultLines.TrimStart | Function3.py:152 | the leading half of `strip()`; TrimStartSpec states its result |
| FaultLines.TrimEnd | Function3.py:152 | the trailing half of `strip()`; TrimEndSpec states its result |
| FaultLines.TrimStartSpec | Function3.py:152 | leading whitespace is removed and what remains does not start with whitespace |
| FaultLines.TrimEndSpec | Function3.py:152 | trailing whitespace is removed and what remains does not end with whitespace |
| FaultLines.Strip | Function3.py:152 | `str.strip()` as trimming the front, then the back; StripSpec states its result |
| FaultLines.TrimStartAt | Function3.py:152 | proof helper for SplitLeadingWord: trimming the front stops exactly at the first non-whitespace character |
| FaultLines.StripSpec | Function3.py:152-153 | `strip()` yields the middle slice between whitespace runs, empty exactly when the line is all whitespace |
| FaultLines.WordLength | Function3.py:164 | a token runs up to the next whitespace character |
| FaultLines.Split | Function3.py:164 | `split()` yields only non-empty tokens without whitespace |
| FaultLines.SplitKeepsText | Function3.py:164 | the tokens concatenated are the line with its whitespace removed |
| FaultLines.SplitEmptyIff | Function3.py:164 | `split()` finds no word exactly when the string is all whitespace |
| FaultLines.SplitSkipsSpace | Function3.py:164 | leading whitespace does not change the words |
| FaultLines.WordLengthAt | Function3.py:164 | proof helper for SplitLeadingWord: the first word ends at the first whitespace character |
| FaultLines.SplitFirstWordAt | Function3.py:164 | proof helper for SplitLeadingWord: a leading word that ends at whitespace position `i` is the first word, and the words after it are those of the rest |
| FaultLines.SplitSkipsGap | Function3.py:164 | proof helper for SplitLeadingWord: a whitespace run of any length before a word is skipped |
| FaultLines.SplitWholeWord | Function3.py:164 | a string that is one word splits into exactly that word |
| FaultLines.SplitLeadingWord | Function3.py:164 | `split()` takes maximal runs of non-whitespace, in order: after leading whitespace `g`, a word `w` followed by the end or by whitespace is the first word and the rest `r` gives the others; with SplitEmptyIff this fixes `split()` on every string |
| FaultLines.SplitWordThenGap | Function3.py:164 | a word directly followed by whitespace is the first word |
| FaultLines.SplitTwoWords | Function3.py:164-165 | a stripped line of two words `x` and `y` separated by whitespace splits into exactly `[x, y]`, the two parts the loop reads |
| FaultLines.NonSpaceOfWord | Function3.py:164 | proof helper for SplitKeepsText: a word has no whitespace to remove |
| FaultLines.NonSpaceAppend | Function3.py:164 | proof helper for SplitKeepsText: removing whitespace distributes over concatenation |
| FaultLines.NonSpaceCons | Function3.py:164 | proof helper for NonSpaceAppend: removing whitespace keeps or drops the first character by itself and goes on with the rest |
| FaultLines.Classify | Function3.py:152-171 | how the loop treats one line: blank, separator, point `(lat, lon)` or skipped; ClassifyCases states when each happens |
| FaultLines.ClassifyCases | Function3.py:152-171 | a line is skipped as blank exactly when it is all whitespace, it is a separator exactly when its stripped text starts with `>`, and it is a point exactly when it strips to two tokens that both parse, giving `(lat, lon)` in swapped order |
| FaultLines.Step | Function3.py:153-171 | one turn of the loop on (`fault_lines`, `current_coords`); StepKeepsPoints and SkippedLineIsInvisible state its effect |
| FaultLines.Run | Function3.py:151-171 | the loop over all lines; RunAppend, RunKeepsPoints and RunBlockCount state its effect |
| FaultLines.Flush | Function3.py:173-178 | the open block is stored after the last line when it has points; FlattenIsAccepted and BlocksNonEmpty state the result |
| FaultLines.FaultBlocks | Function3.py:147-178 | the fault lines read from a file; SeparatorSplits and NoSeparatorBlocks state how `>` lines split the points into blocks, and FlattenIsAccepted, BlockCount and BlocksNonEmpty state what they hold |
| FaultLines.StepKeepsPoints | Function3.py:156-171 | one line adds exactly its accepted point, if any, to the stored blocks followed by the open block |
| FaultLines.RunAppend | Function3.py:151-171 | parsing a file is parsing its first part and then continuing from that state |
| FaultLines.SkippedLineIsInvisible | Function3.py:152-171 | a blank line, or a line not starting with `>` that does not give a point, can be deleted without changing the result |
| FaultLines.RunFromBlocks | Function3.py:151-171 | proof helper for SeparatorSplits: continuing from stored blocks with no open block only appends to those blocks what a fresh run would give |
| FaultLines.SeparatorSplits | Function3.py:156-162 | a `>` line closes the open block: the blocks of `a + [>] + b` are the blocks of `a` followed by the blocks of `b` |
| FaultLines.NoSeparatorRun | Function3.py:151-171 | without `>` lines no block is closed during the loop and the open block holds every accepted point in order |
| FaultLines.NoSeparatorBlocks | Function3.py:151-178 | a file without `>` lines gives no fault line when it has no accepted point, and otherwise exactly one holding all accepted points |
| FaultLines.RunBlocksNonEmpty | Function3.py:156-162 | the loop only stores blocks that have points |
| FaultLines.RunNames | Function3.py:156-162 | every block the loop stores carries the fixed fault name |
| FaultLines.BlocksNonEmpty | Function3.py:156-178 | every stored fault line has at least one point and the fixed fault name |
| FaultLines.RunKeepsPoints | Function3.py:156-171 | the parser loses no point: stored blocks followed by the pending block are the points accepted so far |
| FaultLines.FlattenIsAccepted | Function3.py:147-178 | all stored blocks together hold exactly the accepted points, in file order |
| FaultLines.RunBlockCount | Function3.py:156-162 | each separator line adds at most one block |
| FaultLines.BlockCount | Function3.py:147-178 | there are at most one more fault lines than `>` lines |
| Grid.ScaledBelow | Function3.py:302-303 | proof helper for Arange: `start + k·step < stop` exactly when `k < (stop − start)/step` |
| Grid.PositiveProduct | Function3.py:302-303 | proof helper for Arange and AxisIncreasing: a product with a positive step has the sign of the other factor |
| Grid.CountBelow | Function3.py:302-303 | the length of `arange`, in exact arithmetic: `ceil` of the quotient, or 0 when it is not positive; CountBelowSpec states what it counts |
| Grid.CountBelowSpec | Function3.py:302-303 | the element count of `arange` is the number of naturals below `(stop − start)/step` |
| Grid.Arange | Function3.py:302-303 | `arange(start, stop, step)`, in exact arithmetic, holds `start + k·step` exactly for the `k` whose value lies below `stop` |
| Grid.AxisIncreasing | Function3.py:302-303 | axis values strictly increase and never fall below the start |
| Grid.MinLat | Function3.py:298 | the least latitude of the polygon, attained by some vertex |
| Grid.MaxLat | Function3.py:298 | the greatest latitude of the polygon, attained by some vertex |
| Grid.MinLon | Function3.py:298 | the least longitude of the polygon, attained by some vertex |
| Grid.MaxLon | Function3.py:298 | the greatest longitude of the polygon, attained by some vertex |
| Grid.Bounds | Function3.py:298 | `polygon.bounds` contains every vertex |
| Grid.LatAxis | Function3.py:299-302 | the latitude values `arange(lat_min, lat_max, interval / 111)`; Arange states which values these are |
| Grid.LonAxis | Function3.py:300-303 | the longitude values, with the step `interval` over the kilometres per degree at `lat_min`; Arange states which values these are |
| Grid.RowPoints | Function3.py:307-310 | the kept points of one lattice row; RowPointsMembership and RowPointsRowMajor state which and in what order |
| Grid.GridRows | Function3.py:306-310 | the kept points of the first `i` rows; GridRowsMembership and GridRowsRowMajor state which and in what order |
| Grid.GridPoints | Function3.py:305-310 | `stations` after the nested loops; GridPointsInside, GridComplete and GridEmptyIff state what it holds |
| Grid.RowPointsMembership | Function3.py:307-310 | a point of a lattice row is kept exactly when it lies inside the polygon |
| Grid.GridRowsMembership | Function3.py:306-310 | the same holds for the whole lattice |
| Grid.RowPointsRowMajor | Function3.py:307-310 | the points of one row come out in increasing longitude |
| Grid.GridRowsRowMajor | Function3.py:306-310 | rows come out in increasing latitude, then longitude |
| Grid.RowMajorAppend | Function3.py:306-310 | proof helper for GridRowsRowMajor: joining ordered rows, every point of the first before every point of the second, keeps the order |
| Grid.EarlierRowBefore | Function3.py:306-310 | a kept point of an earlier row comes before every kept point of the next row |
| Grid.GridPointsInside | Function3.py:305-310 | every generated point is a lattice point inside the polygon, at or above both axis starts |
| Grid.GridOrdered | Function3.py:297-310 | generated stations are in row-major order |
| Grid.GridBounded | Function3.py:297-310 | every generated station lies inside the polygon and in the half-open bounding box `[latMin, latMax) × [lonMin, lonMax)` |
| Grid.GridPointBounded | Function3.py:297-310 | one kept point lies inside the polygon and in the half-open bounding box |
| Grid.GridComplete | Function3.py:297-310 | every lattice point inside the polygon is generated |
| Grid.GridEmptyIff | Function3.py:305-313 | no station is generated exactly when no lattice point lies inside the polygon |
| Grid.GridInsideBox | Function3.py:297-310 | generated stations are ordered, inside the polygon and inside its bounds |
| Grid.SampleLattice | Function3.py:305-310 | the nested loops collect exactly the lattice points inside the polygon, row by row |
| Grid.CreateGrid | Function3.py:297-315 | `create_grid` raises when no point is generated and otherwise returns the lattice points inside the polygon, in order and inside the bounds |
| StationGeneration.DigitChar | Function3.py:369 | a decimal digit maps to its character |
| StationGeneration.NatToString | Function3.py:369 | the decimal text of a number is non-empty, is all digits, and has one digit exactly below ten |
| StationGeneration.NoLeadingZero | Function3.py:369 | like `f"{n}"`, the text of a positive number does not start with `0` |
| StationGeneration.DecimalRoundTrip | Function3.py:369 | reading the decimal text back gives the number |
| StationGeneration.StationName | Function3.py:369 | the marker key `Station_{k}`; StationNamesDistinct states that keys of different numbers differ |
| StationGeneration.StationNamesDistinct | Function3.py:369 | distinct indices give distinct `Station_{n}` names |
| StationGeneration.MarkerMap | Function3.py:369 | the markers dict built from the stations; MarkerMapEntries and MarkerMapKeys state its keys and values |
| StationGeneration.MarkerMapEntries | Function3.py:369 | `Station_{i+1}` maps to the i-th station |
| StationGeneration.MarkerMapKeys | Function3.py:369 | no key other than `Station_1` … `Station_{n}` occurs |
| StationGeneration.ReadCorner | Function3.py:340-343 | one corner: the stripped latitude text is parsed, then the stripped longitude text, then both are range-checked; ReadCornerCases states each outcome |
| StationGeneration.ReadCornerCases | Function3.py:340-343 | a corner reads exactly when both stripped fields parse and lie in range, giving `(lat, lon)`; a latitude that does not parse is reported as a bad number with the latitude text; otherwise a longitude that does not parse is reported with the longitude text; otherwise a point out of range is reported with its latitude and longitude |
| StationGeneration.ReadCorners | Function3.py:339-344 | the loop over the coordinate fields, stopping at the first error; ReadCornersOk, ReadCornersErrorSticks and ReadCornersFirstError state its outcome |
| StationGeneration.ReadCornersErrorSticks | Function3.py:339-344 | once a corner fails, later corners do not change the outcome |
| StationGeneration.ReadCornersOk | Function3.py:339-344 | reading succeeds exactly when every corner reads, and it yields those corners in order |
| StationGeneration.ReadCornersFirstError | Function3.py:339-344 | a failed read reports the error of some corner |
| StationGeneration.CornersInRange | Function3.py:342-344 | every corner that was read lies in range |
| StationGeneration.HullPolygon | Function3.py:350-354 | the hull order is accepted exactly when it names at least three valid corner indices, and then it holds those corners; otherwise it is a degenerate hull |
| StationGeneration.HullInCorners | Function3.py:350-354 | the hull-ordered polygon is made of the given corners |
| StationGeneration.BoundsInRange | Function3.py:298-300 | the lowest latitude of in-range corners lies in [-90, 90], so the longitude step is defined |
| StationGeneration.GenerateFromCorners | Function3.py:346-366 | the geometric stage; on success there were four corners and at least one station, and GenerateFromCornersOk states the rest |
| StationGeneration.GenerateFromCornersOk | Function3.py:346-366 | on success there were four corners, the polygon has at least three corners drawn from them and is valid, and the stations are non-empty, ordered, inside the polygon and inside its bounds |
| StationGeneration.Generate | Function3.py:338-366 | the outcome of `generate_stations`; on success four corners were given and at least one station was generated, and GenerateOk states the rest |
| StationGeneration.GenerateOk | Function3.py:338-366 | on success four corners were given and all read; the polygon lies in range and is valid; the stations are non-empty, ordered, inside the polygon and inside its bounds |
| StationGeneration.BadCornerStopsReading | Function3.py:339-343 | one bad number anywhere makes reading fail with a corner error |
| StationGeneration.ValidationPrecedesGeometry | Function3.py:338-347 | a bad corner fails generation with that reading error before any count, hull or grid check |
| StationGeneration.GenerateStopsOnReadError | Function3.py:338-347 | a reading error is the generation error |
| StationGeneration.GenerateOnCorners | Function3.py:338-366 | after a successful read, generation is the geometric stage applied to in-range corners |
| StationGeneration.ReadCornerInputs | Function3.py:339-344 | the corner loop computes exactly the specified read, stopping at the first error |
| StationGeneration.BuildStations | Function3.py:346-366 | the geometric stage computes exactly the specified result |
| StationGeneration.GenerateFromInputs | Function3.py:338-366 | reading the fields and then running the geometric stage computes exactly the specified outcome |
| StationGeneration.StationApp.constructor | Function3.py:26-29 | no markers, no polygon and no fault lines at start |
| StationGeneration.StationApp.LoadFaultData | Function3.py:140-182 | a cancelled dialog changes nothing, an unreadable file leaves the fault lines reset, and a read file stores exactly the parsed blocks; other state is untouched |
| StationGeneration.StationApp.GenerateStations | Function3.py:335-377 | on any error the markers and polygon stay as they were; on success the markers are `Station_1…` for the generated stations and the polygon is the hull polygon; fault lines are never touched |

## Left out

- The windows' widgets, dialogs, message boxes and folium maps (`initUI`, `update_map`, `update_table`, `display_results`, `display_stations`, `save_results`, satellite toggling, marker dragging) are not modelled. They only display or export state.
- Loading Excel/CSV tables (`load_yiban`, `load_sifen`, `load_jizhun`, `load_jiben`, `load_stations`) is left out because it is file I/O. The tables are given as sequences. `jizhun` and `jiben` are loaded but never used by the filters.
- The haversine distance body is not modelled. The distance is a parameter, so floating-point rounding and NaN are not modelled either.
- Grid.Arange: `lat_step`, `lon_step` and `np.arange` compute in floating point, and the model computes in exact arithmetic. numpy takes the length as `ceil((stop − start)/step)` of the rounded values, which can exceed the exact count: `np.arange(1, 1.3, 0.1)` has four values, the last one `1.3000000000000003`. The source can therefore sample one more row or column next to `lat_max` or `lon_max` than the model, and the model does not say whether points of that row or column are kept. The rounding of each `start + k·step` and of the two steps is not modelled either.
- The results' `round(distance, 2)` is not modelled. Result rows carry the exact distance.
- Python's `float()` grammar, together with `inf`/`nan` literals, is the parameter `parseFloat`. A NaN coordinate would fail every comparison in the source; the model compares reals.
- `111·cos(radians(lat_min))` is the parameter `kmPerLonDegree`. At latitude ±90 the source divides by (nearly) zero; the model requires a positive value.
- `ConvexHull`, `Polygon.is_valid` and `Polygon.contains` are parameters. Qhull failure is `None`.
- StationGeneration.HullPolygon: a hull result with fewer than three indices or with an out-of-range index is reported as `DegenerateHull`. SciPy never returns such a result for four points; when it cannot build a hull it raises, and that is also an error here.
- StationGeneration.StationApp.GenerateStations: `polygon.exterior.coords[:-1]` is modelled as the hull-ordered corners. Shapely keeps the given vertex order, and the closing duplicate is what `[:-1]` removes.
- The second `if not stations` check in `generate_stations` (Function3.py:365-366) can never fire, because `create_grid` already raises in that case. The model has a single error for it.
- The window always has four coordinate fields. The model accepts any sequence of fields, so the "four vertices" check is reachable.
- The distance threshold comes from a `QSpinBox`: 0–1000 in the two filter windows, 1–100 for the grid interval. The filters accept any integer, and `GenerateStations` requires the spin-box range.
- `load_fault_data` reading a file that fails partway (a decoding error after some lines) would keep the blocks stored so far. The model treats a file as either unreadable (`[]`) or fully read.
- ClosePairs.StationDistanceWidget.FilterData: the pandas index labels are taken as positions `0..n-1`, which holds for a table freshly read by `read_excel`.
- NearestStation.FindClosestStation: the planned and general tables are scanned with `iterrows()` in row order. Rows with missing coordinates (NaN) are not modelled.
