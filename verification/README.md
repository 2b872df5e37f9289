# MapCreator in Dafny

A model of `mapCreator.js` from the tiled-extensions repository. It is the
world generator behind a Tiled editor action. From a rectangular tile grid
and a land predicate it:

- splits the land into 4-connected continents (`identifyContinents`, `floodFill`);
- places fixed-size square settlements ("cities") on land by rejection
  sampling, keeping a minimum tile-to-tile distance (`generateCities`,
  `generateCitiesInArea`);
- shares a city budget among continents in proportion to their area
  (`generateCitiesByContinent`);
- joins cities with roads that never cross, in one of two ways: a
  nearest-neighbour graph with a degree cap (`generateRoads`), or a local
  triangulation per continent (`generateDelaunayRoads`);
- writes cities and roads to two quoted CSV tables and reads them back
  with validation (`exportToCSV`, `saveCSV`, `importFromCSV`,
  `parseCSVLine`, `validateImportedData`).

Randomness comes from `StableRandom`. This is the Park–Miller generator
(multiplier 16807, modulus 2^31 − 1). The model carries it as an explicit
value `Rng`: every operation that draws takes a generator and returns the
advanced one.

Modules, in dependency order:

| module | file | what it holds |
|---|---|---|
| `Wrappers` | wrappers.dfy | `Option`, `Outcome` and the `Draw` pair of a value and a generator |
| `Geometry` | geometry.dfy | points, squared distance, `doLinesIntersect`, `isPointInTriangle` |
| `StableRandom` | stable_random.dfy | the seeded generator and its `nextInt`, `choose`, `shuffle`, `setSeed` |
| `Sorting` | sorting.dfy | the stable sort, filter and slice that the array pipelines use |
| `Decimal` | decimal.dfy | `String(n)` and `parseInt(s, 10)` on integers |
| `Entities` | entities.dfy | configuration, city, road endpoint, road, session |
| `Placement` | placement.dfy | footprints, area and spacing checks, city generation |
| `RoadNetwork` | road_network.dfy | nearest connection points, both road builders |
| `Continents` | continents.dfy | flood fill and continent identification |
| `Apportionment` | apportionment.dfy | the per-continent budget and `generateCitiesByContinent` |
| `CsvFormat` | csv_format.dfy | CSV cell quoting, `saveCSV` text, `parseCSVLine`, line splitting |
| `CsvExchange` | csv_exchange.dfy | the two tables, import, validation, export/import round trip |

Modelling conventions:

- Distances are compared squared, on integers. The source compares
  `Math.sqrt(dx² + dy²)` against a threshold; for a non-negative threshold
  `sqrt(d) < m ⇔ d < m²`.
- JavaScript's `%` truncates towards zero. `StableRandom.JsRem` models it,
  so the generator's behaviour on a negative or zero seed is kept.
- The land predicate `isLandTile` and the region filter `isValidTile` are
  function parameters.
- A continent is a `set<Point>` rather than a set of `"x,y"` keys.
- JavaScript object identity (`cityA !== cityB`) is value inequality.
- Mutation of the `MapCreator` fields becomes a `Session` value going in and
  coming out. In `generateCitiesByContinent` the source relabels cities that
  are also referenced from `allCitys`, so the same relabelling is applied to
  the tail of the registry.

Where the documented behaviour and the code differ, the model follows the
code:

- A new city is kept apart only from the cities of the same
  `generateCities` call (mapCreator.js:122), not from every earlier city.
- Anchors are drawn in `[1, W − S]` on each axis (mapCreator.js:109-110),
  where W is the map size and S the city size, not in `[1, W − S − 1]`.
- `generateRoads` tests a new road for crossings only against the current
  batch `this.roads` (mapCreator.js:296). Pair de-duplication is also per
  call (mapCreator.js:250). `generateDelaunayRoads` checks only against its
  own local `roads` (mapCreator.js:609). Neither is checked against the
  session-wide `allRoads`.
- `isValidTriangle` looks at every other city of `this.cities`, whatever
  its continent (mapCreator.js:318-320). Because of the 0.01 tolerance it
  also rejects a city on the boundary, not only one strictly inside.
- Import validation measures anchor-to-anchor distance
  (mapCreator.js:539-542), not footprint-to-footprint distance.
- Import replaces the registries before validating
  (mapCreator.js:474-486). A failed validation therefore leaves the
  imported data in place and returns false.

## Model

| member | source | states |
|---|---|---|
| StableRandom.JsRem | mapCreator.js:15 | JavaScript `%`: for a non-negative dividend the result lies in [0, b) and equals Dafny's `%`; for a negative dividend it lies in (−b, 0] |
| StableRandom.Step | mapCreator.js:15 | from a valid seed (1 .. 2^31 − 2) the next seed is valid |
| StableRandom.Create | mapCreator.js:6-8 | a truthy seed is kept; a missing or zero seed takes the entropy value; the result is a valid seed whenever the chosen value is |
| StableRandom.Next | mapCreator.js:14-17 | the seed advances by one Park–Miller step; every draw is below 1; from a valid seed the new seed is valid and the draw lies in [0, 1) |
| StableRandom.StepStaysValid | mapCreator.js:15 | a step maps the range 1 .. 2^31 − 2 into itself (16807 is invertible modulo 2^31 − 1) |
| StableRandom.AdvanceStaysValid | mapCreator.js:14-17 | any number of steps from a valid seed stays valid |
| StableRandom.SeedZeroIsFixedPoint | mapCreator.js:15-16 | seed 0 never moves and its draws are negative (−1/(2^31 − 2)) |
| StableRandom.SeedModulusCollapses | mapCreator.js:15 | seed 2^31 − 1 collapses to the fixed point 0 after one step |
| StableRandom.FloorOfScaledDraw | mapCreator.js:26 | the floor of a draw in [0, 1) times n ≥ 1 lies in 0 .. n − 1 |
| StableRandom.FloorBelowWidth | mapCreator.js:26 | for any draw below 1, negative ones included, floor(v · n) is at most n − 1 |
| StableRandom.NextInt | mapCreator.js:25-27 | advances exactly like `next`; for min ≤ max the result is at most max, and from a valid seed it is also at least min |
| StableRandom.Choose | mapCreator.js:34-36 | advances like `next`; an empty array gives undefined (None); otherwise an element of the array |
| StableRandom.Shuffle | mapCreator.js:43-58 | the result has the input's length and every filled slot holds an input element; the generator advances once per swap step, n − 1 times; from a valid seed every slot is filled and the result is a permutation of the input |
| StableRandom.AdvanceOneMore | mapCreator.js:51-52 | n + 1 draws are n draws followed by one more |
| StableRandom.SeedZeroSwapIndex | mapCreator.js:52 | from seed 0, `nextInt(0, 1)` gives −1, so the swap reads outside the array |
| StableRandom.SetSeed | mapCreator.js:64-66 | `seed >>> 0`: the stored seed is the input reduced modulo 2^32 into [0, 2^32) |
| StableRandom.SetSeedGetSeed | mapCreator.js:64-74 | `getSeed` returns what `setSeed` stored for any 32-bit unsigned seed |
| StableRandom.SetSeedCanLeaveRange | mapCreator.js:64-66 | `setSeed` accepts 0 and 2^31 − 1, which are not valid generator states |
| Sorting.Insert | mapCreator.js:269 | inserting into a sorted list gives a sorted permutation of the list plus the element |
| Sorting.Positions | mapCreator.js:262-268 | the indices of the elements that pass, ascending, each in range, and every passing index among them |
| Sorting.SortBy | mapCreator.js:344 | `Array.prototype.sort` with a numeric key: the result is a permutation of the input sorted by the key |
| Sorting.Filter | mapCreator.js:262-268 | `filter`: the result is the input read at the ascending positions of the elements that pass, so order is kept, every passing element appears and nothing else does |
| Sorting.Take | mapCreator.js:569 | `slice(0, n)`: the first min(n, length) elements, unchanged |
| Sorting.TakeKeepsSmallest | mapCreator.js:568-569 | an element left out by `slice(0, n)` of the sorted list has a key at least that of every kept element |
| Decimal.DigitChar | mapCreator.js:393 | a digit value 0..9 maps to the character of that value |
| Decimal.NatToString | mapCreator.js:393 | `String(n)` of a natural number is a non-empty run of digits |
| Decimal.IntToString | mapCreator.js:393 | `String(n)`: digits, with a leading `-` exactly when n is negative |
| Decimal.NatToStringValue | mapCreator.js:393 | the digits of `String(n)` denote n |
| Decimal.ParseIntRoundTrip | mapCreator.js:424 | reading an exact numeral back gives the integer that was written |
| Decimal.TrimStartSpec | mapCreator.js:419 | leading white space is removed, and what is kept is a suffix that starts with no white space |
| Decimal.LeadingDigitsSpec | mapCreator.js:424 | the digit run that `parseInt` reads is a prefix of digits followed by a non-digit or the end |
| Decimal.JsParseIntOfNumeral | mapCreator.js:424-429 | `parseInt` agrees with exact numeral reading on every exact numeral |
| Decimal.JsParseIntRoundTrip | mapCreator.js:424-429 | `parseInt(String(n), 10) === n` for every integer n |
| Decimal.LeadingDigitsOfPrefix | mapCreator.js:424 | the digit run of a numeral followed by a non-digit is exactly that numeral |
| Decimal.JsParseIntReadsPrefix | mapCreator.js:424-429 | `parseInt` stops at the first non-digit: a numeral followed by other text reads as the numeral |
| Decimal.JsParseIntNaN | mapCreator.js:424-429 | text whose first non-blank character is neither a digit nor a sign gives NaN (None) |
| Entities.MakeConfig | mapCreator.js:84-85 | `options.minCityDistance \|\| 10` and `options.citySize \|\| 3`: a zero or absent option takes the default, any other is kept |
| Placement.GenerateCityTiles | mapCreator.js:136-144 | the footprint holds size² tiles, exactly the square of side `size` anchored at (x, y), the anchor first |
| Placement.IsValidCityArea | mapCreator.js:150-161 | true exactly when every footprint tile is on the map (`isInBounds`, 146-148) and on land |
| Placement.TileFarFrom | mapCreator.js:166-174 | true exactly when the tile is at least minCityDistance from every given tile |
| Placement.TilesFarFrom | mapCreator.js:165-175 | true exactly when every pair of tiles is at least minCityDistance apart |
| Placement.IsValidCityLocation | mapCreator.js:163-178 | true exactly when the new city is at least minCityDistance from every existing city, footprint tile to footprint tile |
| Placement.DrawAnchor | mapCreator.js:109-110 | `Math.floor(v * span + 1)`: for a draw in [0, 1) and span ≥ 0 the anchor lies in [1, max(1, span)] |
| Placement.DrawnAnchorInRange | mapCreator.js:109-110 | each anchor coordinate drawn from a valid draw lies in [1, max(1, W − S)] whenever the map is at least as wide (for x) or as high (for y) as a city |
| Placement.PlacementExtends | mapCreator.js:122-125 | accepting a well-placed, spaced city keeps the list well-placed and pairwise spaced |
| Placement.GenerateCities | mapCreator.js:103-134 | at most `count` cities; ids continue the registry; names `${prefix}City n`; each passes the region test, lies on land with its footprint, and is apart from the others; the registry grows by exactly the new cities; roads untouched |
| Placement.GenerateCitiesInArea | mapCreator.js:617-621 | as `generateCities`, with every anchor within 19 tiles on both axes of some tile of the area |
| Geometry.Between | mapCreator.js:208-211 | a point at parameter t in [0, 1] of a segment lies between the segment's ends on that axis |
| Geometry.DoLinesIntersect | mapCreator.js:184-212 | a reported crossing has a non-zero denominator, and segments that share an endpoint are never reported as crossing |
| Geometry.CramerIdentities | mapCreator.js:198-209 | the numerators of t and u solve the 2×2 system scaled by the denominator |
| Geometry.ComputedParametersMeet | mapCreator.js:202-209 | with a non-zero denominator the computed t and u name the same point on both lines |
| Geometry.SolutionIsUnique | mapCreator.js:202-209 | with a non-zero denominator no other parameters name a common point |
| Geometry.CrossingUnfold | mapCreator.js:184-212 | with a non-zero denominator a crossing is box overlap plus both parameters strictly inside (0.01, 0.99) |
| Geometry.MeetingExtentsOverlap | mapCreator.js:194 | two segments that meet within both have overlapping extents on each axis |
| Geometry.MeetingBoxesOverlap | mapCreator.js:194-196 | two segments that meet are never rejected by the bounding-box test |
| Geometry.CrossingMeets | mapCreator.js:184-212 | a reported crossing has a non-zero denominator and a common point at interior parameters |
| Geometry.MeetingCrosses | mapCreator.js:184-212 | non-parallel segments that meet at interior parameters are reported as crossing |
| Geometry.CrossingCharacterized | mapCreator.js:184-212 | `doLinesIntersect` holds exactly when the lines are not parallel and meet strictly inside both segments |
| Geometry.CrossingSymmetric | mapCreator.js:184-212 | swapping the two segments does not change the answer |
| Geometry.ReversedMeet | mapCreator.js:198-211 | reversing the first segment maps a meeting at t to a meeting at 1 − t |
| Geometry.CrossingIgnoresDirection | mapCreator.js:184-212 | reversing a segment's direction does not change the answer |
| Geometry.UNumeratorAtEndpoint | mapCreator.js:209 | if the second segment ends on an end of the first, u's numerator equals the denominator |
| Geometry.TNumeratorAtEndpoint | mapCreator.js:208 | if the second segment starts at the first one's end, t's numerator equals the denominator |
| Geometry.EndParameterNotInterior | mapCreator.js:211 | parameters 0 and 1 are outside (0.01, 0.99) |
| Geometry.SharedEndNotInterior | mapCreator.js:198-211 | when the second segment starts or ends on an end of the first, t or u is 0 or 1, outside (0.01, 0.99) |
| Geometry.CrossSplits | mapCreator.js:332-335 | the triangle's doubled signed area is the sum of the three sub-triangle areas around any point |
| Geometry.IsPointInTriangle | mapCreator.js:331-338 | true exactly when the triangle's doubled area equals the sum of the three doubled sub-areas around the point |
| Geometry.HalfWithinTolerance | mapCreator.js:337 | for an integer n, |n / 2| < 0.01 exactly when n is 0 |
| Geometry.PointInTriangleIffSameSide | mapCreator.js:331-338 | `isPointInTriangle` holds exactly when the point is on the same side of all three edges, boundary included |
| Geometry.NonDegenerateCorners | mapCreator.js:315-316 | a triangle of non-zero area has three distinct corners |
| Geometry.VertexInTriangle | mapCreator.js:331-338 | a corner of a triangle counts as inside it |
| RoadNetwork.DegreeAppend | mapCreator.js:300-301 | adding a road raises the degree of exactly its two end cities by one each |
| RoadNetwork.Counted | mapCreator.js:300-301 | the two end counters rise by one each (by two for a self-pair); every other counter is kept |
| RoadNetwork.IsRoadIntersecting | mapCreator.js:214-224 | true exactly when the new road crosses some existing road |
| RoadNetwork.CrossesFacts | mapCreator.js:214-224 | no road crosses itself, and crossing is symmetric |
| RoadNetwork.FindNearestConnectionPoint | mapCreator.js:226-246 | returns the first pair of footprint tiles of least distance in loop order: no pair is nearer and every earlier pair is strictly farther; with an empty footprint, the two anchors |
| RoadNetwork.FirstNearestUnique | mapCreator.js:231-241 | only one tile pair is the first nearest in loop order |
| RoadNetwork.NearestPairUnique | mapCreator.js:226-246 | the connection points are determined by the two cities |
| RoadNetwork.JoinsUnique | mapCreator.js:277-294 | the road built between two cities is determined by them |
| RoadNetwork.AppendKeepsBatch | mapCreator.js:296-299 | adding an unprocessed pair's road that crosses nothing keeps the batch de-duplicated and crossing-free |
| RoadNetwork.NearCities | mapCreator.js:262-269 | candidates are other cities of the list within distance 30 |
| RoadNetwork.NearCitiesComplete | mapCreator.js:262-269 | every other city within distance 30 is a candidate, and candidates come nearest first |
| RoadNetwork.AcceptKeepsDegrees | mapCreator.js:300-301 | after accepting a road each city's counter is still at least its degree (the two differ only on a road whose ends share an id, which `Counted` counts twice), a city without a counter has no road, and no degree exceeds 3 |
| RoadNetwork.AcceptKeepsLinks | mapCreator.js:279-297 | after accepting a road every road still joins two distinct near cities at their nearest tiles |
| RoadNetwork.AcceptKeepsState | mapCreator.js:276-302 | accepting a candidate keeps every loop invariant of `generateRoads` |
| RoadNetwork.ConsiderCandidate | mapCreator.js:271-307 | a partner at the cap or an already processed pair changes nothing; otherwise the road joining the pair at its nearest tiles is appended, keyed and counted exactly when it crosses no road of the batch, and nothing changes when it does; the loop invariants are kept |
| RoadNetwork.GenerateRoads | mapCreator.js:248-312 | every road joins two distinct cities within 30 at their nearest tiles; pairs are unique; no city has degree above 3; no two roads cross; with unique ids there are no loops; `roads` is the batch and `allRoads` grows by it |
| RoadNetwork.NoneInside | mapCreator.js:322-326 | true exactly when no listed city's anchor lies in the triangle |
| RoadNetwork.IsValidTriangle | mapCreator.js:314-329 | true exactly when the triangle has non-zero area and no other city's anchor lies in it |
| RoadNetwork.AddRoadIfValid | mapCreator.js:585-615 | a processed pair changes nothing; otherwise the road joining the two cities at their nearest tiles is added to `roads` and `allRoads`, and its key to `processed`, exactly when it crosses none of `roads`; when it crosses, nothing changes |
| RoadNetwork.TriangleCandidates | mapCreator.js:561-567 | the later cities of the sorted list on the continent within distance 50: each listed one qualifies, and each qualifying one is listed |
| RoadNetwork.NearestTwo | mapCreator.js:561-570 | at most two later cities of the sorted list, on the given continent and within distance 50 |
| RoadNetwork.NearestTwoCount | mapCreator.js:568-569 | `slice(0, 2)` keeps min(2, candidates) cities, the nearer first |
| RoadNetwork.NearestTwoNearest | mapCreator.js:568-569 | every candidate left out is at least as far as each kept one |
| RoadNetwork.TriangleCorners | mapCreator.js:572-575 | the two nearest cities lie later in the sorted list and on the continent, and with non-zero area the three corners are distinct cities (the first corner is not filtered by continent) |
| RoadNetwork.AddTriangle | mapCreator.js:575-578 | adding the three sides keeps the triangulation invariants, and `allRoads` is the base plus `roads` |
| RoadNetwork.AddTriangleSide | mapCreator.js:575-577 | one side added keeps the triangulation invariants and `allRoads` = base + roads |
| RoadNetwork.TriangleStep | mapCreator.js:560-579 | one outer step keeps the triangulation invariants |
| RoadNetwork.EndsOnContinent | mapCreator.js:561-562 | if every input city is on the continent, both ends of every road are |
| RoadNetwork.GenerateDelaunayRoads | mapCreator.js:550-583 | fewer than 3 cities changes nothing; the cities come back sorted by x as a permutation; roads are unique per pair, never cross, and join cities of which at least one is on the continent; `allRoads` grows by exactly the roads |
| Continents.LandCells | mapCreator.js:702-705 | the land tiles are exactly the in-bounds tiles the land predicate accepts |
| Continents.Neighbours | mapCreator.js:742-745 | the four recursive calls visit exactly the four orthogonal neighbours |
| Continents.AdjacentIffNbr | mapCreator.js:742-745 | orthogonal adjacency is exactly being one of the four neighbours |
| Continents.NbrBack | mapCreator.js:742-745 | stepping in a direction and back returns to the start |
| Continents.JoinWalks | mapCreator.js:742-745 | two walks from a common tile join into a walk between their far ends |
| Continents.RootedIsConnected | mapCreator.js:726-746 | a tile set reachable from one root is connected |
| Continents.PopCollect | mapCreator.js:738-745 | collecting a free tile and pushing its neighbours keeps the flood-fill invariant |
| Continents.PopSkip | mapCreator.js:728-735 | discarding an off-map, water, visited or already-collected tile keeps the flood-fill invariant |
| Continents.FillStep | mapCreator.js:726-746 | one worklist step keeps the invariant and makes progress |
| Continents.FloodFill | mapCreator.js:726-746 | the continent holds only free land tiles, contains the start exactly when it is free land, is connected from the start, and leaves no free land neighbour outside it; `visited` grows by exactly the continent |
| Continents.FillDone | mapCreator.js:726-746 | with an empty worklist the collected tiles are closed beside `visited` and reachable from the start |
| Continents.Union | mapCreator.js:697-717 | a tile is in the union exactly when it is in some continent |
| Continents.AppendContinent | mapCreator.js:709-711 | appending a new non-empty, closed, connected continent of unvisited land keeps the partition |
| Continents.ScanTile | mapCreator.js:704-712 | one tile of the scan keeps the partition and extends the scanned region by one tile |
| Continents.NewStartIsLeast | mapCreator.js:704-710 | a fill started at the scan position has no tile before that position in row-major order |
| Continents.DiscoveryStep | mapCreator.js:702-712 | a continent found at the scan position has that position as its first tile, so first tiles stay in scan order |
| Continents.DiscoveredOrder | mapCreator.js:697-717 | first tiles in scan order put each continent's first tile before every tile of each later continent |
| Continents.IdentifyContinents | mapCreator.js:697-717 | continents are non-empty, connected, closed under land adjacency and pairwise disjoint, and together cover exactly the land tiles; they come in scan order: the first tile of each precedes, row by row, every tile of every later one |
| Continents.OneContinentPerTile | mapCreator.js:697-717 | every land tile lies in exactly one continent |
| Continents.AdjacentLandShareContinent | mapCreator.js:742-745 | orthogonally adjacent land tiles lie in the same continent |
| Apportionment.Allocate | mapCreator.js:650-660 | each visited continent gets between 1 and its quota; the total never exceeds the budget; the loop stops early only once the budget is spent |
| Apportionment.Quota | mapCreator.js:653-656 | `max(1, floor(area / land · total))` is at least 1 and, for a continent no larger than the land and a non-negative budget, at most max(1, total) |
| Apportionment.FloorShareWithinTotal | mapCreator.js:655 | the floor share of a continent no larger than the land never exceeds the budget |
| Apportionment.AllocateIsGreedy | mapCreator.js:650-660 | the k-th share is min(quota, budget left after the first k shares) |
| Apportionment.FloorSharesFit | mapCreator.js:653-656 | the floor shares sum to at most the floor of the whole |
| Apportionment.SharesWithinBudget | mapCreator.js:650-660 | when every floor share is at least 1 and they fit the budget, the allocation is exactly the floor shares |
| Apportionment.ProportionalSplit | mapCreator.js:634-660 | when each continent's exact share is at least 1, every continent gets its floor share and the total is at most the budget |
| Apportionment.ReorderedRange | mapCreator.js:644 | a reordering of the indices lists each index once and only indices below n |
| Apportionment.PlacedExtends | mapCreator.js:672-685 | appending a continent's relabelled cities keeps ids consecutive, labels in range, and every city near its own continent |
| Apportionment.VisitContinent | mapCreator.js:651-685 | one visit keeps the loop invariant, appends at most its share of cities after the earlier ones, labels each with the continent's index + 1 and names the k-th of them `C{index+1}-City k` |
| Apportionment.VisitingNext | mapCreator.js:672-685 | placing, relabelling and appending one visit's cities keeps the loop invariant one continent further on |
| Apportionment.TallyNext | mapCreator.js:677-685 | a visit raises its own continent's tally by its new cities, within its share, leaves the others, and keeps every city named by its rank on its continent |
| Apportionment.TallyDone | mapCreator.js:650-690 | at the end each visited continent holds at most its share, unvisited ones none, and every city is named by its rank on its continent |
| Apportionment.VisitContinents | mapCreator.js:650-686 | after all visits the invariant holds for the whole allocation; the registry grows by exactly the placed cities, at most the allocation's total; each continent holds at most its share and every city is named by its rank on its continent |
| Apportionment.PlacedLabels | mapCreator.js:675-681 | every placed city has the next id, a label 1..n and an anchor near its labelled continent |
| Apportionment.SameLabelSameVisit | mapCreator.js:672-681 | cities with the same label come from the same visit and so are apart |
| Apportionment.VisitOrder | mapCreator.js:644 | continents are visited once each, largest area first |
| Apportionment.Shares | mapCreator.js:648-660 | every visited continent gets at least 1 city; the total is within the budget; the loop stops before the last continent only when the budget is exactly spent; each share is min(quota, budget left) |
| Apportionment.VisitingDone | mapCreator.js:650-690 | at the end: at most the budget of cities, ids continue the registry, labels name continents, same-label cities are apart |
| Apportionment.GenerateCitiesByContinent | mapCreator.js:628-691 | continents partition the land; at most `totalCities` cities; each has the next id, a label naming its continent, an anchor near it and a land footprint; same-continent cities are apart; each visited continent holds at most its share, unvisited ones none; the k-th city of a continent is named `C{index+1}-City k`; `cities` is the result and `allCitys` grows by it |
| CsvFormat.EscapeQuotes | mapCreator.js:393 | doubling quotes never shortens text, keeps its commas, and leaves text without quotes unchanged |
| CsvFormat.EncodeCell | mapCreator.js:391-393 | a cell read back alone by `parseCSVLine` gives its decoded text |
| CsvFormat.SaveCsv | mapCreator.js:385-395 | the text starts with the byte-order mark; when no cell holds a line feed, `split('\n')` gives one line per row, the first behind the mark |
| CsvFormat.ParseCsvLine | mapCreator.js:495-521 | a line always yields at least one field, and a line with neither quotes nor commas is itself the single field |
| CsvFormat.Scan | mapCreator.js:495-521 | at least one field; text with neither quotes nor commas extends the current field and ends the line |
| CsvFormat.ScanDoubled | mapCreator.js:503-507 | a doubled quote adds one quote to the field and keeps the quoting state |
| CsvFormat.ScanToggle | mapCreator.js:508-510 | a single quote toggles the quoting state and adds nothing |
| CsvFormat.ScanSeparator | mapCreator.js:511-513 | an unquoted comma ends the field |
| CsvFormat.ScanOrdinary | mapCreator.js:514-516 | any other character is appended to the field |
| CsvFormat.ScanQuotedCell | mapCreator.js:495-521 | a quoted, escaped cell reads back as its decoded text |
| CsvFormat.ScanCell | mapCreator.js:495-521 | an encoded cell followed by a comma or the end reads back as its decoded text |
| CsvFormat.ParseEncodedRow | mapCreator.js:495-521 | `parseCSVLine` of an encoded row gives the decoded cells, one per cell |
| CsvFormat.TextRoundTrip | mapCreator.js:495-521 | a text cell other than all-quotes reads back unchanged at its position |
| CsvFormat.SplitLines | mapCreator.js:414 | `split('\n')` always gives at least one piece |
| CsvFormat.SplitJoinedLines | mapCreator.js:414 | splitting lines joined with newlines gives them back when none holds a newline |
| CsvFormat.EscapeKeepsLines | mapCreator.js:393 | quote doubling adds no newline |
| CsvFormat.RowOnOneLine | mapCreator.js:391-394 | a row of single-line cells encodes to one line |
| CsvFormat.RowsOnOneLine | mapCreator.js:390-395 | rows whose cells hold no line feed encode to lines without one |
| CsvExchange.FloorRoot | mapCreator.js:355-357 | the distance column `Math.floor(Math.sqrt(n))` is the integer square root |
| CsvExchange.ExportToCsv | mapCreator.js:341-382 | the registry is sorted by id in place, as a permutation, and nothing else in the session changes |
| CsvExchange.ParseCity | mapCreator.js:418-431 | a line is skipped exactly when blank or shorter than five fields, and unreadable exactly when one of fields 0, 2, 3 and 4 is not a number to `parseInt`; otherwise it is read into the city whose id, x, y and continent are those numbers, whose name is field 1 and whose tiles are the footprint of its anchor |
| CsvExchange.ReadCity | mapCreator.js:422-431 | fewer than five fields skip; with five or more, the fields are unreadable exactly when one of fields 0, 2, 3 and 4 is not a number, and otherwise read: the id, x, y and continent are `parseInt` of those fields, the name is field 1, the tiles the footprint of the anchor |
| CsvExchange.Collect | mapCreator.js:418-432 | reading fails exactly when some line is unreadable; otherwise the values are the read lines' values at their ascending positions: every read line once, in file order |
| CsvExchange.CollectAllRead | mapCreator.js:418-432 | lines that all read give exactly their values, in order |
| CsvExchange.ParseCities | mapCreator.js:413-432 | city reading fails exactly on an unreadable line; otherwise the cities are those of the read lines, one per kept line in file order, each with the footprint of its anchor |
| CsvExchange.FindCity | mapCreator.js:447-448 | `cities.find(c => c.id === id)`: found exactly when some city has that id, and then it is the first such city |
| CsvExchange.ParseRoad | mapCreator.js:440-470 | a line is skipped exactly when blank, shorter than seven fields, or one of its two ids is found in no city; it is unreadable exactly when, past those tests, one of fields 2 to 5 is not a number; a read road takes its positions from fields 2 to 5 and is attached to the imported cities |
| CsvExchange.ReadRoad | mapCreator.js:444-469 | skipped exactly when there are fewer than seven fields or `find` misses one of the two ids; unreadable exactly when both are found and one of fields 2 to 5 is not a number; a read road copies each found city's id, name and continent and takes its positions from fields 2 to 5 |
| CsvExchange.ParseRoads | mapCreator.js:435-471 | road reading fails exactly on an unreadable line; otherwise the roads are those of the read lines, one per kept line in file order, each attached to imported cities |
| CsvExchange.CityFault | mapCreator.js:524-535 | no fault exactly when the city has an id, a name, an on-map anchor and land under it |
| CsvExchange.ValidateImportedData | mapCreator.js:523-548 | passes exactly on a valid list; otherwise reports the first failing city, or, when all cities pass, the first pair in loop order that is too near |
| CsvExchange.ImportFromCsv | mapCreator.js:410-491 | an unreadable file leaves the session unchanged; otherwise the lists are replaced by the imported cities and roads, and the result is true exactly when validation passes |
| CsvExchange.NumDecodes | mapCreator.js:393 | a number cell decodes to its decimal text and has no newline |
| CsvExchange.CityLineRoundTrip | mapCreator.js:421-430 | an exported city line reads back as the city with its footprint regenerated |
| CsvExchange.CityLinesRoundTrip | mapCreator.js:418-432 | exported city lines read back as the re-imported cities, in order |
| CsvExchange.RoadLineRoundTrip | mapCreator.js:443-469 | an exported road line reads back as the same road when both ids are found |
| CsvExchange.RoadLinesRoundTrip | mapCreator.js:440-471 | exported road lines read back as the same roads, in order |
| CsvExchange.NamedIsFound | mapCreator.js:447-448 | with unique ids, a road end naming a registry city is found among the re-imported, sorted cities |
| CsvExchange.CityFileRoundTrip | mapCreator.js:413-432 | the whole saved city file reads back as the re-imported cities |
| CsvExchange.RoadFileRoundTrip | mapCreator.js:435-471 | the whole saved road file reads back as the same roads |
| CsvExchange.EndpointsFound | mapCreator.js:447-450 | every road end is found after sorting and re-import |
| CsvExchange.FootprintsKept | mapCreator.js:429 | cities that already had the footprint of their anchor are unchanged by re-import |
| CsvExchange.ExportImportRoundTrip | mapCreator.js:341-491 | importing the exported tables gives back the sorted registry, with footprints regenerated, and exactly the session's roads; with regular footprints the cities come back unchanged |

## Left out

- The Tiled action (mapCreator.js:764-828), layer access, `tiled.log`, `tiled.alert`, `tiled.error` and `TextFile` I/O: they are host calls. Export returns the two CSV texts, and import takes them as parameters.
- `Math.random()` in the `StableRandom` constructor and in the shared instance: the entropy value is a parameter of `StableRandom.Create`.
- The river options (mapCreator.js:86-90) and `riverTiles`: nothing in the file uses them.
- The export file names built from `Date.now()` (mapCreator.js:369, 373): clock access.
- Floating point: every double of the source is an exact rational in the model.
  - `Apportionment.Quota` takes `area · total / land` exactly, where the source computes `(area / land) * total` in IEEE doubles. The two can differ by one at exact multiples.
  - `StableRandom.Next` divides exactly, so `StableRandom.NextInt` and `Placement.DrawAnchor` floor exact products. The source rounds `next()` and `next() * span` to doubles first.
  - `Geometry.DoLinesIntersect` compares the exact quotients t and u with the exact rationals 0.01 and 0.99. The source compares rounded doubles with the nearest doubles to those constants, which can differ for parameters within one rounding step of a bound.
  - `Geometry.IsPointInTriangle` compares exact areas with the exact tolerance 0.01. With integer corners every area is a whole number of halves (`Geometry.HalfWithinTolerance`), so the test is exact equality; the source's doubles agree with that only while the coordinates stay within the range doubles hold exactly.
- `Continents.FloodFill` uses an explicit worklist instead of recursion. It collects the same set, and the model does not reproduce the JavaScript stack limit on very large continents.
- `CsvExchange.ImportFromCsv`: a numeric cell in which `parseInt` finds no digit after leading white space and one optional sign makes the import fail with the session unchanged, while the source stores `NaN` and carries on. The check `city.x === undefined` is therefore not modelled.
- `Decimal.JsParseInt` models radix 10 only, which is the only radix used.
- Road endpoints (`Entities.Endpoint`) do not carry the `tiles` array, neither those `addRoadIfValid` builds (mapCreator.js:595, 603) nor those import builds (mapCreator.js:456, 464). Nothing reads those copies.
- Sorting.SortBy: stability (equal keys keep their input order) is not stated, only that the result is a sorted permutation.
- `RoadNetwork.GenerateRoads` does not state which pairs are joined, only the invariants every result has. It also leaves out a maximality property that holds whatever the visiting order: every pair of cities within 30 that is not joined has an end whose counter reached 3, or a road of the result that its road would cross. Stating it needs a loop invariant over every pair already visited, which the model does not carry.
- `RoadNetwork.GenerateDelaunayRoads` does not state which triangles are added, only the invariants of the result.
- `StableRandom.Shuffle` does not state which permutation a given seed produces. From a valid seed it states that the result is a permutation, and in every case how far the generator advances. From an invalid seed such as 0, `nextInt` can return −1 (`StableRandom.SeedZeroSwapIndex`); the model then writes an undefined slot (`None`), as the source writes `undefined`, and states only that filled slots hold input elements.
- `Placement.GenerateCities` does not state the `count * 1000` attempt bound as a result property. The bound appears only as the loop's termination argument.
- `CsvFormat.ParseCsvLine`: a text cell made only of quote characters, the empty text included, reads back with one quote more than it held (`DecodedCell`). The opening quote pairs with the first quote after it. That is how the source's parser behaves, and the round-trip lemmas exclude such names (`CsvExchange.PortableName`).
