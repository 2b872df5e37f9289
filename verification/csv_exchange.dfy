/** Exporting a session's cities and roads to CSV text (`exportToCSV`) and
    reading them back (`importFromCSV`, `validateImportedData`).  Reading
    and writing files is left to the host; the model works on the text. */
module CsvExchange {
  import opened Wrappers
  import opened Geometry
  import opened Sorting
  import opened Decimal
  import opened Entities
  import opened Placement
  import opened CsvFormat

  // ---------------------------------------------------------------------
  // Export

  /** The floor of the square root of n: `Math.floor(Math.sqrt(n))` on an
      integer.  Its defining property is `FloorRoot`. */
  function ISqrt(n: nat): nat
    decreases n
  {
    if n == 0 then 0
    else
      var r := ISqrt(n - 1);
      if (r + 1) * (r + 1) <= n then r + 1 else r
  }

  lemma {:induction false} FloorRoot(n: nat)
    ensures ISqrt(n) * ISqrt(n) <= n < (ISqrt(n) + 1) * (ISqrt(n) + 1)
    decreases n
  {
    if n > 0 {
      FloorRoot(n - 1);
      var r := ISqrt(n - 1);
      assert (r + 2) * (r + 2) == (r + 1) * (r + 1) + 2 * r + 3;
    }
  }

  /** A number written as a cell. */
  function Num(n: int): Cell {
    Text(IntToString(n))
  }

  const CityHeader: seq<Cell> := [
    Text("ID"), Text("\U{540D}\U{79F0}"), Text("X\U{5750}\U{6807}"), Text("Y\U{5750}\U{6807}"),
    Text("\U{5927}\U{9646}ID")]

  const RoadHeader: seq<Cell> := [
    Text("\U{8D77}\U{59CB}\U{57CE}\U{5E02}"), Text("\U{76EE}\U{6807}\U{57CE}\U{5E02}"),
    Text("\U{8D77}\U{59CB}X"), Text("\U{8D77}\U{59CB}Y"), Text("\U{76EE}\U{6807}X"),
    Text("\U{76EE}\U{6807}Y"), Text("\U{8DDD}\U{79BB}")]

  function CityRow(c: City): seq<Cell> {
    [Num(c.id), Text(c.name), Num(c.x), Num(c.y), Num(c.continentId)]
  }

  /** A road row: both ends, then the whole part of their distance. */
  function RoadRow(r: Road): seq<Cell> {
    [Num(r.from.id), Num(r.to.id), Num(r.from.x), Num(r.from.y), Num(r.to.x), Num(r.to.y),
     Num(ISqrt(SqDist(Spot(r.from), Spot(r.to))))]
  }

  function CityTable(cities: seq<City>): (data: seq<seq<Cell>>)
    ensures |data| == |cities| + 1 && data[0] == CityHeader
    ensures forall k :: 0 <= k < |cities| ==> data[k + 1] == CityRow(cities[k])
  {
    [CityHeader] + seq(|cities|, k requires 0 <= k < |cities| => CityRow(cities[k]))
  }

  function RoadTable(roads: seq<Road>): (data: seq<seq<Cell>>)
    ensures |data| == |roads| + 1 && data[0] == RoadHeader
    ensures forall k :: 0 <= k < |roads| ==> data[k + 1] == RoadRow(roads[k])
  {
    [RoadHeader] + seq(|roads|, k requires 0 <= k < |roads| => RoadRow(roads[k]))
  }

  function ById(c: City): int {
    c.id
  }

  datatype Exported = Exported(session: Session, cityCsv: string, roadCsv: string)

  /** `exportToCSV`: sorts the session's city registry by id in place (the
      one change to the session), then renders the city registry and the
      road registry as two CSV texts. */
  function ExportToCsv(s: Session): (e: Exported)
    ensures e.session == s.(allCitys := e.session.allCitys)
    ensures multiset(e.session.allCitys) == multiset(s.allCitys)
    ensures SortedBy(e.session.allCitys, ById)
  {
    var sorted := SortBy(s.allCitys, ById);
    Exported(s.(allCitys := sorted), SaveCsv(CityTable(sorted)), SaveCsv(RoadTable(s.allRoads)))
  }

  // ---------------------------------------------------------------------
  // Import

  /** What reading one line gives: nothing (blank or too few fields), a
      field that is not a number, or a record. */
  datatype Row<T> = Skipped | Unreadable | Read(value: T)

  /** `!line.trim()`. */
  predicate IsBlank(line: string) {
    TrimStart(line) == []
  }

  /** Every field is a number to `parseInt(·, 10)`. */
  predicate AllNumbers(fields: seq<string>) {
    forall k :: 0 <= k < |fields| ==> JsParseInt(fields[k]).Some?
  }

  /** One line of the city file: skipped exactly when blank or short of
      five fields, unreadable exactly when one of its four number fields is
      not a number, and otherwise read into the city those fields give,
      with the footprint of its anchor. */
  function ParseCity(line: string, citySize: nat): (r: Row<City>)
    ensures r.Skipped? <==> IsBlank(line) || |ParseCsvLine(line)| < 5
    ensures r.Unreadable? <==>
              var v := ParseCsvLine(line);
              !IsBlank(line) && |v| >= 5 && !AllNumbers([v[0], v[2], v[3], v[4]])
    ensures r.Read? ==>
              var v := ParseCsvLine(line);
              && |v| >= 5
              && JsParseInt(v[0]) == Some(r.value.id) && r.value.name == v[1]
              && JsParseInt(v[2]) == Some(r.value.x) && JsParseInt(v[3]) == Some(r.value.y)
              && JsParseInt(v[4]) == Some(r.value.continentId)
              && r.value.tiles == GenerateCityTiles(r.value.x, r.value.y, citySize)
  {
    if IsBlank(line) then Skipped else ReadCity(ParseCsvLine(line), citySize)
  }

  /** The fields of a city line: the id, the anchor and the continent must
      be numbers; the footprint is recomputed from the anchor.  Fewer than
      five fields skip the line; a read city has the second field as its
      name, the numbers of the other four, and the footprint of its anchor. */
  function ReadCity(v: seq<string>, citySize: nat): (r: Row<City>)
    ensures r.Skipped? <==> |v| < 5
    ensures r.Unreadable? <==> |v| >= 5 && !AllNumbers([v[0], v[2], v[3], v[4]])
    ensures r.Read? ==> && JsParseInt(v[0]) == Some(r.value.id) && r.value.name == v[1]
                        && JsParseInt(v[2]) == Some(r.value.x) && JsParseInt(v[3]) == Some(r.value.y)
                        && JsParseInt(v[4]) == Some(r.value.continentId)
                        && r.value.tiles == GenerateCityTiles(r.value.x, r.value.y, citySize)
  {
    if |v| < 5 then Skipped
    else
      var id := JsParseInt(v[0]);
      var x := JsParseInt(v[2]);
      var y := JsParseInt(v[3]);
      var cid := JsParseInt(v[4]);
      var numbers := [v[0], v[2], v[3], v[4]];
      assert numbers[0] == v[0] && numbers[1] == v[2] && numbers[2] == v[3] && numbers[3] == v[4];
      if id.None? || x.None? || y.None? || cid.None? then Unreadable
      else Read(City(id.value, v[1], x.value, y.value, GenerateCityTiles(x.value, y.value, citySize), cid.value))
  }

  predicate IsRead<T>(row: Row<T>) {
    row.Read?
  }

  /** The records of the lines read, in file order, skipping skipped lines;
      None when a line could not be read.  The records are the rows at
      `Positions(rows, IsRead)`: every record row, in order, once each. */
  function Collect<T>(rows: seq<Row<T>>): (r: Option<seq<T>>)
    ensures r.None? <==> exists k :: 0 <= k < |rows| && rows[k].Unreadable?
    ensures r.Some? ==> |r.value| == |Positions(rows, IsRead)|
    ensures r.Some? ==> forall k :: 0 <= k < |r.value| ==> rows[Positions(rows, IsRead)[k]] == Read(r.value[k])
    ensures r.Some? ==> |r.value| <= |rows|
    decreases |rows|
  {
    if rows == [] then Some([])
    else
      var init := Collect(rows[..|rows| - 1]);
      CollectStep(rows, init);
      CollectNext(init, rows[|rows| - 1])
  }

  /** What collecting gives after one more row. */
  function CollectNext<T>(init: Option<seq<T>>, row: Row<T>): Option<seq<T>> {
    match row
    case Unreadable => None
    case Skipped => init
    case Read(x) => if init.None? then None else Some(init.value + [x])
  }

  /** r is a collection of `rows`: None exactly when a row is unreadable,
      otherwise the records of the read rows, in order. */
  ghost predicate CollectsTo<T>(rows: seq<Row<T>>, r: Option<seq<T>>) {
    && (r.None? <==> exists k :: 0 <= k < |rows| && rows[k].Unreadable?)
    && (r.Some? ==> |r.value| == |Positions(rows, IsRead)|)
    && (r.Some? ==> forall k :: 0 <= k < |r.value| ==> rows[Positions(rows, IsRead)[k]] == Read(r.value[k]))
  }

  /** A collection of all rows but the last, extended by the last row, is
      a collection of all rows. */
  lemma CollectStep<T>(rows: seq<Row<T>>, init: Option<seq<T>>)
    requires rows != []
    requires CollectsTo(rows[..|rows| - 1], init)
    ensures CollectsTo(rows, CollectNext(init, rows[|rows| - 1]))
  {
    var n := |rows| - 1;
    assert forall k :: 0 <= k < n ==> rows[..n][k] == rows[k];
    CollectStepFails(rows, init);
    if init.Some? && !rows[n].Unreadable? {
      CollectStepRecords(rows, init.value);
    }
  }

  /** The step fails exactly when the new row or an earlier one is
      unreadable. */
  lemma CollectStepFails<T>(rows: seq<Row<T>>, init: Option<seq<T>>)
    requires rows != []
    requires init.None? <==> exists k :: 0 <= k < |rows| - 1 && rows[k].Unreadable?
    ensures CollectNext(init, rows[|rows| - 1]).None? <==> exists k :: 0 <= k < |rows| && rows[k].Unreadable?
  {
  }

  /** Records of the rows but the last, extended by the step, are the
      records of all rows. */
  lemma CollectStepRecords<T>(rows: seq<Row<T>>, init: seq<T>)
    requires rows != []
    requires |init| == |Positions(rows[..|rows| - 1], IsRead)|
    requires forall k :: 0 <= k < |init| ==> rows[..|rows| - 1][Positions(rows[..|rows| - 1], IsRead)[k]] == Read(init[k])
    requires !rows[|rows| - 1].Unreadable?
    ensures var r := CollectNext(Some(init), rows[|rows| - 1]).value;
            && |r| == |Positions(rows, IsRead)|
            && forall k :: 0 <= k < |r| ==> rows[Positions(rows, IsRead)[k]] == Read(r[k])
  {
    var n := |rows| - 1;
    var front := rows[..n];
    var idx := Positions(front, IsRead);
    var all := Positions(rows, IsRead);
    assert all == if IsRead(rows[n]) then idx + [n] else idx;
    assert forall k :: 0 <= k < |idx| ==> front[idx[k]] == rows[idx[k]];
    if rows[n].Read? {
      var r := init + [rows[n].value];
      forall k | 0 <= k < |r|
        ensures rows[all[k]] == Read(r[k])
      {
        if k < |init| {
          assert all[k] == idx[k];
        }
      }
    }
  }

  /** Rows that were all read collect to their records. */
  lemma CollectAllRead<T>(rows: seq<Row<T>>, values: seq<T>)
    requires |rows| == |values|
    requires forall k :: 0 <= k < |rows| ==> rows[k] == Read(values[k])
    ensures Collect(rows) == Some(values)
  {
    var r := Collect(rows);
    var idx := Positions(rows, IsRead);
    PositionsOfAll(rows, IsRead);
    assert r.Some? && |r.value| == |idx| == |values|;
    forall k | 0 <= k < |values|
      ensures r.value[k] == values[k]
    {
      assert rows[idx[k]] == Read(r.value[k]);
    }
    assert r.value == values;
  }

  function CityRows(lines: seq<string>, citySize: nat): (rows: seq<Row<City>>)
    ensures |rows| == |lines| && forall k :: 0 <= k < |lines| ==> rows[k] == ParseCity(lines[k], citySize)
  {
    seq(|lines|, k requires 0 <= k < |lines| => ParseCity(lines[k], citySize))
  }

  /** The cities of the lines after the header, in file order; None when a
      kept line has a field that is not a number. */
  function ParseCities(lines: seq<string>, citySize: nat): (r: Option<seq<City>>)
    ensures r.None? <==> exists k :: 0 <= k < |lines| && ParseCity(lines[k], citySize).Unreadable?
    ensures r.Some? ==> var idx := Positions(CityRows(lines, citySize), IsRead);
      |r.value| == |idx| && forall k :: 0 <= k < |idx| ==> ParseCity(lines[idx[k]], citySize) == Read(r.value[k])
    ensures r.Some? ==> |r.value| <= |lines|
    ensures r.Some? ==> forall k :: 0 <= k < |r.value| ==>
      r.value[k].tiles == GenerateCityTiles(r.value[k].x, r.value[k].y, citySize)
  {
    var rows := CityRows(lines, citySize);
    var r := Collect(rows);
    assert r.Some? ==> forall k :: 0 <= k < |r.value| ==>
        r.value[k].tiles == GenerateCityTiles(r.value[k].x, r.value[k].y, citySize) by {
      if r.Some? {
        forall k | 0 <= k < |r.value|
          ensures r.value[k].tiles == GenerateCityTiles(r.value[k].x, r.value[k].y, citySize)
        {
          var m := Positions(rows, IsRead)[k];
        }
      }
    }
    r
  }

  /** `cities.find(c => c.id === id)`: the first city with the id; a `NaN`
      id (None) matches nothing. */
  function FindCity(cities: seq<City>, id: Option<int>): (r: Option<City>)
    ensures r.Some? <==> id.Some? && exists k :: 0 <= k < |cities| && cities[k].id == id.value
    ensures r.Some? ==> r.value.id == id.value
    ensures r.Some? ==> exists k :: 0 <= k < |cities| && cities[k] == r.value &&
                                    forall m :: 0 <= m < k ==> cities[m].id != id.value
    decreases |cities|
  {
    if id.None? || cities == [] then None
    else if cities[0].id == id.value then Some(cities[0])
    else
      var r := FindCity(cities[1..], id);
      assert r.Some? ==> exists k :: (0 <= k < |cities| && cities[k] == r.value &&
                                      forall m :: 0 <= m < k ==> cities[m].id != id.value) by {
        if r.Some? {
          var k :| 0 <= k < |cities[1..]| && cities[1..][k] == r.value &&
            forall m :: 0 <= m < k ==> cities[1..][m].id != id.value;
          assert cities[k + 1] == r.value;
          forall m | 0 <= m < k + 1
            ensures cities[m].id != id.value
          {
            if m > 0 {
              assert cities[m] == cities[1..][m - 1];
            }
          }
        }
      }
      assert (exists k :: 0 <= k < |cities| && cities[k].id == id.value) ==>
          exists k :: 0 <= k < |cities[1..]| && cities[1..][k].id == id.value by {
        if exists k :: 0 <= k < |cities| && cities[k].id == id.value {
          var k :| 0 <= k < |cities| && cities[k].id == id.value;
          assert cities[1..][k - 1] == cities[k];
        }
      }
      r
  }

  /** The endpoint an imported road gets: the found city's id, name and
      continent, with the coordinates of the row. */
  function Reattach(c: City, x: int, y: int): Endpoint {
    Endpoint(c.id, c.name, c.continentId, x, y)
  }

  /** The endpoint names city c: same id, name and continent. */
  predicate Resolves(c: City, e: Endpoint) {
    c.id == e.id && c.name == e.name && c.continentId == e.continentId
  }

  /** One line of the road file: skipped exactly when blank, short of
      seven fields or naming an id no city has; unreadable exactly when a
      coordinate field is not a number; a road read from it joins two
      cities of the list, each end under the id, name and continent of its
      city. */
  function ParseRoad(line: string, cities: seq<City>): (r: Row<Road>)
    ensures r.Skipped? <==>
              var v := ParseCsvLine(line);
              || IsBlank(line) || |v| < 7
              || FindCity(cities, JsParseInt(v[0])).None? || FindCity(cities, JsParseInt(v[1])).None?
    ensures r.Unreadable? <==>
              var v := ParseCsvLine(line);
              && !IsBlank(line) && |v| >= 7
              && FindCity(cities, JsParseInt(v[0])).Some? && FindCity(cities, JsParseInt(v[1])).Some?
              && !AllNumbers(v[2..6])
    ensures r.Read? ==>
              var v := ParseCsvLine(line);
              && |v| >= 7
              && JsParseInt(v[2]) == Some(r.value.from.x) && JsParseInt(v[3]) == Some(r.value.from.y)
              && JsParseInt(v[4]) == Some(r.value.to.x) && JsParseInt(v[5]) == Some(r.value.to.y)
              && Attached(cities, r.value)
  {
    if IsBlank(line) then Skipped else ReadRoad(ParseCsvLine(line), cities)
  }

  /** The fields of a road line: both ends must be found by id, then the
      four coordinates must be numbers.  Fewer than seven fields skip the
      line; a read road's ends are the first cities with the two ids, at the
      positions the four coordinate fields give. */
  function ReadRoad(v: seq<string>, cities: seq<City>): (r: Row<Road>)
    ensures r.Skipped? <==> |v| < 7 || FindCity(cities, JsParseInt(v[0])).None? || FindCity(cities, JsParseInt(v[1])).None?
    ensures r.Unreadable? <==>
              && |v| >= 7
              && FindCity(cities, JsParseInt(v[0])).Some? && FindCity(cities, JsParseInt(v[1])).Some?
              && !AllNumbers(v[2..6])
    ensures r.Read? ==> && |v| >= 7
                        && FindCity(cities, JsParseInt(v[0])).Some?
                        && Resolves(FindCity(cities, JsParseInt(v[0])).value, r.value.from)
                        && FindCity(cities, JsParseInt(v[1])).Some?
                        && Resolves(FindCity(cities, JsParseInt(v[1])).value, r.value.to)
                        && JsParseInt(v[2]) == Some(r.value.from.x) && JsParseInt(v[3]) == Some(r.value.from.y)
                        && JsParseInt(v[4]) == Some(r.value.to.x) && JsParseInt(v[5]) == Some(r.value.to.y)
                        && Attached(cities, r.value)
  {
    if |v| < 7 then Skipped
    else
      var from := FindCity(cities, JsParseInt(v[0]));
      var to := FindCity(cities, JsParseInt(v[1]));
      if from.None? || to.None? then Skipped
      else
        var coords := v[2..6];
        assert coords[0] == v[2] && coords[1] == v[3] && coords[2] == v[4] && coords[3] == v[5];
        PlaceEnds(from.value, to.value, coords)
  }

  /** The road between two found cities at the four coordinate fields:
      unreadable exactly when one of them is not a number. */
  function PlaceEnds(a: City, b: City, coords: seq<string>): (r: Row<Road>)
    requires |coords| == 4
    ensures !r.Skipped?
    ensures r.Unreadable? <==> !AllNumbers(coords)
    ensures r.Read? ==> && Resolves(a, r.value.from) && Resolves(b, r.value.to)
                        && JsParseInt(coords[0]) == Some(r.value.from.x) && JsParseInt(coords[1]) == Some(r.value.from.y)
                        && JsParseInt(coords[2]) == Some(r.value.to.x) && JsParseInt(coords[3]) == Some(r.value.to.y)
  {
    var fx := JsParseInt(coords[0]);
    var fy := JsParseInt(coords[1]);
    var tx := JsParseInt(coords[2]);
    var ty := JsParseInt(coords[3]);
    if fx.None? || fy.None? || tx.None? || ty.None? then Unreadable
    else Read(Road(Reattach(a, fx.value, fy.value), Reattach(b, tx.value, ty.value)))
  }

  function RoadRows(lines: seq<string>, cities: seq<City>): (rows: seq<Row<Road>>)
    ensures |rows| == |lines| && forall k :: 0 <= k < |lines| ==> rows[k] == ParseRoad(lines[k], cities)
  {
    seq(|lines|, k requires 0 <= k < |lines| => ParseRoad(lines[k], cities))
  }

  /** Both ends of the road are named by cities of the list. */
  ghost predicate Attached(cities: seq<City>, road: Road) {
    && (exists m :: 0 <= m < |cities| && Resolves(cities[m], road.from))
    && (exists m :: 0 <= m < |cities| && Resolves(cities[m], road.to))
  }

  /** The roads of the lines after the header, in file order: each joins
      two of the given cities. */
  function ParseRoads(lines: seq<string>, cities: seq<City>): (r: Option<seq<Road>>)
    ensures r.None? <==> exists k :: 0 <= k < |lines| && ParseRoad(lines[k], cities).Unreadable?
    ensures r.Some? ==> var idx := Positions(RoadRows(lines, cities), IsRead);
      |r.value| == |idx| && forall k :: 0 <= k < |idx| ==> ParseRoad(lines[idx[k]], cities) == Read(r.value[k])
    ensures r.Some? ==> |r.value| <= |lines|
    ensures r.Some? ==> forall k :: 0 <= k < |r.value| ==> Attached(cities, r.value[k])
  {
    var rows := RoadRows(lines, cities);
    var r := Collect(rows);
    assert r.Some? ==> forall k :: 0 <= k < |r.value| ==> Attached(cities, r.value[k]) by {
      if r.Some? {
        forall k | 0 <= k < |r.value|
          ensures Attached(cities, r.value[k])
        {
          var j := Positions(rows, IsRead)[k];
        }
      }
    }
    r
  }

  // ---------------------------------------------------------------------
  // Validation

  /** Why an import is rejected: a field that is not a number (a
      simplification, see the README), then the errors
      `validateImportedData` throws: `Incomplete` for a city without an id
      or a name (its message names no city), and the others carrying the
      city names their messages report. */
  datatype ImportError =
    | Malformed
    | Incomplete
    | OffMap(name: string)
    | OffLand(name: string)
    | TooClose(first: string, second: string)

  /** A city the per-city checks accept: a non-zero id, a name, an anchor on
      the map and on land. */
  predicate Acceptable(cfg: Config, land: (int, int) -> bool, c: City) {
    c.id != 0 && c.name != [] && IsInBounds(cfg, c.x, c.y) && land(c.x, c.y)
  }

  /** The per-city checks in the order `validateImportedData` makes them. */
  function CityFault(cfg: Config, land: (int, int) -> bool, c: City): (e: Option<ImportError>)
    ensures e.None? <==> Acceptable(cfg, land, c)
    ensures e.Some? ==> !e.value.TooClose? && !e.value.Malformed?
  {
    if c.id == 0 || c.name == [] then Some(Incomplete)
    else if !IsInBounds(cfg, c.x, c.y) then Some(OffMap(c.name))
    else if !land(c.x, c.y) then Some(OffLand(c.name))
    else None
  }

  /** Anchors closer than minCityDistance. */
  predicate TooNear(cfg: Config, a: City, b: City) {
    SqDist(Anchor(a), Anchor(b)) < MinSq(cfg)
  }

  /** No pair (a, b), a < b, that comes before (i, j) in the order the
      nested loops visit pairs is too near. */
  ghost predicate SpacedBefore(cfg: Config, cities: seq<City>, i: int, j: int) {
    forall a, b :: 0 <= a < b < |cities| && (a < i || (a == i && b < j)) ==> !TooNear(cfg, cities[a], cities[b])
  }

  /** A city list `validateImportedData` accepts. */
  ghost predicate ValidImport(cfg: Config, land: (int, int) -> bool, cities: seq<City>) {
    && (forall k :: 0 <= k < |cities| ==> Acceptable(cfg, land, cities[k]))
    && (forall a, b :: 0 <= a < b < |cities| ==> !TooNear(cfg, cities[a], cities[b]))
  }

  /** `validateImportedData`: passes exactly on a valid list; otherwise
      reports the first city that fails a per-city check or, when all pass,
      the first pair that is too near. */
  method ValidateImportedData(cfg: Config, land: (int, int) -> bool, cities: seq<City>)
    returns (r: Outcome<ImportError>)
    ensures r.Pass? <==> ValidImport(cfg, land, cities)
    ensures r.Fail? && !r.error.TooClose? ==>
      exists k :: (0 <= k < |cities| && (forall m :: 0 <= m < k ==> Acceptable(cfg, land, cities[m])) &&
                   CityFault(cfg, land, cities[k]) == Some(r.error))
    ensures r.Fail? && r.error.TooClose? ==>
      (forall k :: 0 <= k < |cities| ==> Acceptable(cfg, land, cities[k])) &&
      exists i, j :: 0 <= i < j < |cities| && SpacedBefore(cfg, cities, i, j) &&
        TooNear(cfg, cities[i], cities[j]) && r.error == TooClose(cities[i].name, cities[j].name)
  {
    for k := 0 to |cities|
      invariant forall m :: 0 <= m < k ==> Acceptable(cfg, land, cities[m])
    {
      var fault := CityFault(cfg, land, cities[k]);
      if fault.Some? {
        return Fail(fault.value);
      }
    }
    for i := 0 to |cities|
      invariant SpacedBefore(cfg, cities, i, 0)
    {
      for j := i + 1 to |cities|
        invariant SpacedBefore(cfg, cities, i, j)
      {
        if SqDist(Anchor(cities[i]), Anchor(cities[j])) < MinSq(cfg) {
          return Fail(TooClose(cities[i].name, cities[j].name));
        }
      }
    }
    return Pass;
  }

  /** `importFromCSV` on the texts of the two files.  The header line of each
      is skipped.  The session's four lists are replaced by what was read
      before validation runs, so a rejected import still replaces them; the
      result tells whether validation passed. */
  method ImportFromCsv(cfg: Config, land: (int, int) -> bool, s: Session, cityText: string, roadText: string)
    returns (s': Session, ok: bool)
    ensures var cities := ParseCities(SplitLines(cityText)[1..], cfg.citySize);
      var roads := if cities.Some? then ParseRoads(SplitLines(roadText)[1..], cities.value) else None;
      && (cities.None? || roads.None? ==> s' == s && !ok)
      && (cities.Some? && roads.Some? ==>
            && s' == s.(cities := cities.value, allCitys := cities.value, roads := roads.value, allRoads := roads.value)
            && (ok <==> ValidImport(cfg, land, cities.value)))
  {
    var cities := ParseCities(SplitLines(cityText)[1..], cfg.citySize);
    if cities.None? {
      return s, false;
    }
    var roads := ParseRoads(SplitLines(roadText)[1..], cities.value);
    if roads.None? {
      return s, false;
    }
    s' := s.(cities := cities.value, allCitys := cities.value, roads := roads.value, allRoads := roads.value);
    var outcome := ValidateImportedData(cfg, land, cities.value);
    ok := outcome.Pass?;
  }

  // ---------------------------------------------------------------------
  // Export then import

  /** The text of a number has no line feed and is not all quotes. */
  lemma NumDecodes(n: int)
    ensures CellOnOneLine(Num(n))
    ensures DecodedCell(Num(n)) == IntToString(n)
  {
    var s := IntToString(n);
    forall k | 0 <= k < |s|
      ensures s[k] != NewLine && (k == 0 ==> s[k] != Quote)
    {
      if n < 0 && k > 0 {
        assert s[k] == s[1..][k - 1];
      }
    }
    assert s[0] != Quote;
    assert !AllQuotes(s);
  }

  /** A name that export and import carry over unchanged: on one line, and
      not made only of quotes. */
  predicate PortableName(name: string) {
    NewLine !in name && !AllQuotes(name)
  }

  /** A city as import rebuilds it: the exported fields, with the footprint
      recomputed from the anchor. */
  function Reimported(c: City, citySize: nat): City {
    c.(tiles := GenerateCityTiles(c.x, c.y, citySize))
  }

  /** A line that starts with a quote is not blank. */
  lemma QuotedLineNotBlank(row: seq<Cell>)
    requires row != [] && row[0].Text?
    ensures !IsBlank(EncodeRow(row))
  {
    var line := EncodeRow(row);
    if |row| == 1 {
      assert line == EncodeCell(row[0]);
    } else {
      assert line == EncodeCell(row[0]) + [Comma] + EncodeRow(row[1..]);
    }
    assert line[0] == Quote;
  }

  /** A row whose cells decode to the given texts is read as those texts. */
  lemma DecodedFields(row: seq<Cell>, fields: seq<string>)
    requires row != [] && |fields| == |row|
    requires forall k :: 0 <= k < |row| ==> DecodedCell(row[k]) == fields[k]
    ensures ParseCsvLine(EncodeRow(row)) == fields
  {
    ParseEncodedRow(row);
  }

  function CityFieldTexts(c: City): seq<string> {
    [IntToString(c.id), c.name, IntToString(c.x), IntToString(c.y), IntToString(c.continentId)]
  }

  lemma CityCellsDecode(c: City)
    requires PortableName(c.name)
    ensures forall k :: 0 <= k < 5 ==> DecodedCell(CityRow(c)[k]) == CityFieldTexts(c)[k]
  {
    forall k | 0 <= k < 5
      ensures DecodedCell(CityRow(c)[k]) == CityFieldTexts(c)[k]
    {
      if k == 0 {
        NumDecodes(c.id);
      } else if k == 2 {
        NumDecodes(c.x);
      } else if k == 3 {
        NumDecodes(c.y);
      } else if k == 4 {
        NumDecodes(c.continentId);
      }
    }
  }

  /** The fields `parseCSVLine` finds in an exported city row. */
  lemma CityFields(c: City)
    requires PortableName(c.name)
    ensures ParseCsvLine(EncodeRow(CityRow(c))) == CityFieldTexts(c)
  {
    CityCellsDecode(c);
    DecodedFields(CityRow(c), CityFieldTexts(c));
  }

  /** Fields that are the texts of a city's fields read as the city, its
      footprint recomputed. */
  lemma ReadCityOfFields(v: seq<string>, citySize: nat, c: City)
    requires |v| == 5
    requires v[0] == IntToString(c.id) && v[1] == c.name && v[2] == IntToString(c.x)
    requires v[3] == IntToString(c.y) && v[4] == IntToString(c.continentId)
    ensures ReadCity(v, citySize) == Read(Reimported(c, citySize))
  {
    JsParseIntRoundTrip(c.id);
    JsParseIntRoundTrip(c.x);
    JsParseIntRoundTrip(c.y);
    JsParseIntRoundTrip(c.continentId);
  }

  lemma CityLineRoundTrip(c: City, citySize: nat)
    requires PortableName(c.name)
    ensures ParseCity(EncodeRow(CityRow(c)), citySize) == Read(Reimported(c, citySize))
  {
    QuotedLineNotBlank(CityRow(c));
    CityFields(c);
    ReadCityFieldTexts(c, citySize);
  }

  lemma ReadCityFieldTexts(c: City, citySize: nat)
    ensures ReadCity(CityFieldTexts(c), citySize) == Read(Reimported(c, citySize))
  {
    ReadCityOfFields(CityFieldTexts(c), citySize, c);
  }

  function CityLines(cities: seq<City>): (lines: seq<string>)
    ensures |lines| == |cities| && forall k :: 0 <= k < |cities| ==> lines[k] == EncodeRow(CityRow(cities[k]))
  {
    seq(|cities|, k requires 0 <= k < |cities| => EncodeRow(CityRow(cities[k])))
  }

  function ReimportedAll(cities: seq<City>, citySize: nat): (r: seq<City>)
    ensures |r| == |cities| && forall k :: 0 <= k < |cities| ==> r[k] == Reimported(cities[k], citySize)
  {
    seq(|cities|, k requires 0 <= k < |cities| => Reimported(cities[k], citySize))
  }

  /** Reading the rows of exported cities gives the cities back, in order. */
  lemma CityLinesRoundTrip(cities: seq<City>, citySize: nat)
    requires forall k :: 0 <= k < |cities| ==> PortableName(cities[k].name)
    ensures ParseCities(CityLines(cities), citySize) == Some(ReimportedAll(cities, citySize))
  {
    forall k | 0 <= k < |cities|
      ensures ParseCity(CityLines(cities)[k], citySize) == Read(ReimportedAll(cities, citySize)[k])
    {
      CityLineRoundTrip(cities[k], citySize);
    }
    CollectAllRead(CityRows(CityLines(cities), citySize), ReimportedAll(cities, citySize));
  }

  /** The first city with the endpoint's id names the endpoint. */
  predicate FoundAs(cities: seq<City>, e: Endpoint) {
    var f := FindCity(cities, Some(e.id));
    f.Some? && Resolves(f.value, e)
  }

  function RoadFieldTexts(r: Road): seq<string> {
    [IntToString(r.from.id), IntToString(r.to.id), IntToString(r.from.x), IntToString(r.from.y),
     IntToString(r.to.x), IntToString(r.to.y), IntToString(ISqrt(SqDist(Spot(r.from), Spot(r.to))))]
  }

  lemma RoadCellsDecode(r: Road)
    ensures forall k :: 0 <= k < 7 ==> DecodedCell(RoadRow(r)[k]) == RoadFieldTexts(r)[k]
  {
    forall k | 0 <= k < 7
      ensures DecodedCell(RoadRow(r)[k]) == RoadFieldTexts(r)[k]
    {
      if k == 0 {
        NumDecodes(r.from.id);
      } else if k == 1 {
        NumDecodes(r.to.id);
      } else if k == 2 {
        NumDecodes(r.from.x);
      } else if k == 3 {
        NumDecodes(r.from.y);
      } else if k == 4 {
        NumDecodes(r.to.x);
      } else if k == 5 {
        NumDecodes(r.to.y);
      } else {
        DistanceDecodes(r);
      }
    }
  }

  lemma DistanceDecodes(r: Road)
    ensures DecodedCell(RoadRow(r)[6]) == RoadFieldTexts(r)[6]
  {
    NumDecodes(ISqrt(SqDist(Spot(r.from), Spot(r.to))));
  }

  /** The fields `parseCSVLine` finds in an exported road row. */
  lemma RoadFields(r: Road)
    ensures ParseCsvLine(EncodeRow(RoadRow(r))) == RoadFieldTexts(r)
  {
    RoadCellsDecode(r);
    DecodedFields(RoadRow(r), RoadFieldTexts(r));
  }

  /** Fields that are the texts of a road's numbers, whose ends are found
      under their own names, read as the road. */
  lemma ReadRoadOfFields(v: seq<string>, cities: seq<City>, r: Road)
    requires |v| == 7
    requires v[0] == IntToString(r.from.id) && v[1] == IntToString(r.to.id)
    requires v[2] == IntToString(r.from.x) && v[3] == IntToString(r.from.y)
    requires v[4] == IntToString(r.to.x) && v[5] == IntToString(r.to.y)
    requires FoundAs(cities, r.from) && FoundAs(cities, r.to)
    ensures ReadRoad(v, cities) == Read(r)
  {
    JsParseIntRoundTrip(r.from.id);
    JsParseIntRoundTrip(r.to.id);
    JsParseIntRoundTrip(r.from.x);
    JsParseIntRoundTrip(r.from.y);
    JsParseIntRoundTrip(r.to.x);
    JsParseIntRoundTrip(r.to.y);
  }

  lemma ReadRoadFieldTexts(r: Road, cities: seq<City>)
    requires FoundAs(cities, r.from) && FoundAs(cities, r.to)
    ensures ReadRoad(RoadFieldTexts(r), cities) == Read(r)
  {
    ReadRoadOfFields(RoadFieldTexts(r), cities, r);
  }

  lemma RoadLineRoundTrip(r: Road, cities: seq<City>)
    requires FoundAs(cities, r.from) && FoundAs(cities, r.to)
    ensures ParseRoad(EncodeRow(RoadRow(r)), cities) == Read(r)
  {
    QuotedLineNotBlank(RoadRow(r));
    RoadFields(r);
    ReadRoadFieldTexts(r, cities);
  }

  function RoadLines(roads: seq<Road>): (lines: seq<string>)
    ensures |lines| == |roads| && forall k :: 0 <= k < |roads| ==> lines[k] == EncodeRow(RoadRow(roads[k]))
  {
    seq(|roads|, k requires 0 <= k < |roads| => EncodeRow(RoadRow(roads[k])))
  }

  /** Reading the rows of exported roads gives the roads back when every
      endpoint is found under its own id, name and continent. */
  lemma RoadLinesRoundTrip(roads: seq<Road>, cities: seq<City>)
    requires forall k :: 0 <= k < |roads| ==> FoundAs(cities, roads[k].from) && FoundAs(cities, roads[k].to)
    ensures ParseRoads(RoadLines(roads), cities) == Some(roads)
  {
    forall k | 0 <= k < |roads|
      ensures ParseRoad(RoadLines(roads)[k], cities) == Read(roads[k])
    {
      RoadLineRoundTrip(roads[k], cities);
    }
    CollectAllRead(RoadRows(RoadLines(roads), cities), roads);
  }

  ghost predicate UniqueIds(cities: seq<City>) {
    forall i, j :: 0 <= i < |cities| && 0 <= j < |cities| && cities[i].id == cities[j].id ==> i == j
  }

  /** Some city of the list names the endpoint. */
  ghost predicate Named(cities: seq<City>, e: Endpoint) {
    exists k :: 0 <= k < |cities| && Resolves(cities[k], e)
  }

  /** With unique ids, an endpoint named by a city of the registry is found
      under its own name among the re-imported, re-ordered cities. */
  lemma NamedIsFound(all: seq<City>, sorted: seq<City>, citySize: nat, e: Endpoint)
    requires UniqueIds(all) && multiset(sorted) == multiset(all)
    requires Named(all, e)
    ensures FoundAs(ReimportedAll(sorted, citySize), e)
  {
    var imported := ReimportedAll(sorted, citySize);
    var k :| 0 <= k < |all| && Resolves(all[k], e);
    assert all[k] in multiset(sorted);
    var m :| 0 <= m < |sorted| && sorted[m] == all[k];
    assert imported[m].id == e.id;
    var f := FindCity(imported, Some(e.id));
    var m' :| 0 <= m' < |imported| && imported[m'] == f.value;
    assert sorted[m'] in multiset(all);
    var p :| 0 <= p < |all| && all[p] == sorted[m'];
    assert all[p].id == all[k].id;
  }

  /** No cell of an exported city table spans lines. */
  lemma CityTableOnOneLine(cities: seq<City>)
    requires forall k :: 0 <= k < |cities| ==> PortableName(cities[k].name)
    ensures var data := CityTable(cities);
      forall r, k :: 0 <= r < |data| && 0 <= k < |data[r]| ==> CellOnOneLine(data[r][k])
  {
    var data := CityTable(cities);
    forall n: int
      ensures CellOnOneLine(Num(n))
    {
      NumDecodes(n);
    }
    forall r, k | 0 <= r < |data| && 0 <= k < |data[r]|
      ensures CellOnOneLine(data[r][k])
    {
      if r > 0 {
        assert data[r] == CityRow(cities[r - 1]);
      }
    }
  }

  lemma CityTableLines(cities: seq<City>)
    requires forall k :: 0 <= k < |cities| ==> PortableName(cities[k].name)
    ensures SplitLines(SaveCsv(CityTable(cities)))[1..] == CityLines(cities)
  {
    CityTableOnOneLine(cities);
  }

  /** Reading a saved city table gives its cities back, footprints
      recomputed. */
  lemma CityFileRoundTrip(cities: seq<City>, citySize: nat)
    requires forall k :: 0 <= k < |cities| ==> PortableName(cities[k].name)
    ensures ParseCities(SplitLines(SaveCsv(CityTable(cities)))[1..], citySize) == Some(ReimportedAll(cities, citySize))
  {
    CityTableLines(cities);
    CityLinesRoundTrip(cities, citySize);
  }

  lemma RoadRowOnOneLine(road: Road)
    ensures forall k :: 0 <= k < |RoadRow(road)| ==> CellOnOneLine(RoadRow(road)[k])
  {
    forall n: int
      ensures CellOnOneLine(Num(n))
    {
      NumDecodes(n);
    }
  }

  lemma RoadTableOnOneLine(roads: seq<Road>)
    ensures AllOnOneLine(RoadTable(roads))
  {
    var data := RoadTable(roads);
    forall r, k | 0 <= r < |data| && 0 <= k < |data[r]|
      ensures CellOnOneLine(data[r][k])
    {
      if r > 0 {
        RoadRowOnOneLine(roads[r - 1]);
      }
    }
  }

  lemma RoadTableLines(roads: seq<Road>)
    ensures SplitLines(SaveCsv(RoadTable(roads)))[1..] == RoadLines(roads)
  {
    RoadTableOnOneLine(roads);
  }


  /** Reading a saved road table gives its roads back when every endpoint is
      found under its own name. */
  lemma RoadFileRoundTrip(roads: seq<Road>, cities: seq<City>)
    requires forall k :: 0 <= k < |roads| ==> FoundAs(cities, roads[k].from) && FoundAs(cities, roads[k].to)
    ensures ParseRoads(SplitLines(SaveCsv(RoadTable(roads)))[1..], cities) == Some(roads)
  {
    RoadTableLines(roads);
    RoadLinesRoundTrip(roads, cities);
  }

  /** The registry sorted for export holds the registry's cities. */
  lemma SortedFromRegistry(all: seq<City>, sorted: seq<City>)
    requires multiset(sorted) == multiset(all)
    ensures forall k :: 0 <= k < |sorted| ==> sorted[k] in all
  {
    forall k | 0 <= k < |sorted|
      ensures sorted[k] in all
    {
      assert sorted[k] in multiset(all);
    }
  }

  lemma EndpointsFound(all: seq<City>, sorted: seq<City>, citySize: nat, roads: seq<Road>)
    requires UniqueIds(all) && multiset(sorted) == multiset(all)
    requires forall k :: 0 <= k < |roads| ==> Named(all, roads[k].from) && Named(all, roads[k].to)
    ensures forall k :: 0 <= k < |roads| ==>
      FoundAs(ReimportedAll(sorted, citySize), roads[k].from) && FoundAs(ReimportedAll(sorted, citySize), roads[k].to)
  {
    forall k | 0 <= k < |roads|
      ensures FoundAs(ReimportedAll(sorted, citySize), roads[k].from)
      ensures FoundAs(ReimportedAll(sorted, citySize), roads[k].to)
    {
      NamedIsFound(all, sorted, citySize, roads[k].from);
      NamedIsFound(all, sorted, citySize, roads[k].to);
    }
  }

  /** Cities whose footprint is the one of their anchor are re-imported
      unchanged. */
  lemma FootprintsKept(all: seq<City>, sorted: seq<City>, citySize: nat)
    requires forall k :: 0 <= k < |sorted| ==> sorted[k] in all
    requires forall k :: 0 <= k < |all| ==> all[k].tiles == GenerateCityTiles(all[k].x, all[k].y, citySize)
    ensures ReimportedAll(sorted, citySize) == sorted
  {
    forall k | 0 <= k < |sorted|
      ensures ReimportedAll(sorted, citySize)[k] == sorted[k]
    {
      assert sorted[k] in all;
      var p :| 0 <= p < |all| && all[p] == sorted[k];
    }
  }

  /** What the host's two files would hold after `exportToCSV`, read back by
      `importFromCSV`: the city registry in id order, each city rebuilt with
      the footprint of its anchor, and the road registry unchanged, provided
      the names fit on a line, the ids are unique and each road endpoint
      carries the id, name and continent of a registered city.  Cities whose
      footprint is the one of their anchor come back exactly. */
  lemma ExportImportRoundTrip(s: Session, citySize: nat)
    requires forall k :: 0 <= k < |s.allCitys| ==> PortableName(s.allCitys[k].name)
    requires UniqueIds(s.allCitys)
    requires forall k :: 0 <= k < |s.allRoads| ==> Named(s.allCitys, s.allRoads[k].from) && Named(s.allCitys, s.allRoads[k].to)
    ensures var e := ExportToCsv(s);
      var cities := ParseCities(SplitLines(e.cityCsv)[1..], citySize);
      && cities == Some(ReimportedAll(e.session.allCitys, citySize))
      && ParseRoads(SplitLines(e.roadCsv)[1..], cities.value) == Some(s.allRoads)
      && ((forall k :: 0 <= k < |s.allCitys| ==>
             s.allCitys[k].tiles == GenerateCityTiles(s.allCitys[k].x, s.allCitys[k].y, citySize))
          ==> cities == Some(e.session.allCitys))
  {
    var sorted := SortBy(s.allCitys, ById);
    SortedFromRegistry(s.allCitys, sorted);
    assert forall k :: 0 <= k < |sorted| ==> PortableName(sorted[k].name);
    CityFileRoundTrip(sorted, citySize);
    EndpointsFound(s.allCitys, sorted, citySize, s.allRoads);
    RoadFileRoundTrip(s.allRoads, ReimportedAll(sorted, citySize));
    if forall k :: 0 <= k < |s.allCitys| ==>
         s.allCitys[k].tiles == GenerateCityTiles(s.allCitys[k].x, s.allCitys[k].y, citySize) {
      FootprintsKept(s.allCitys, sorted, citySize);
    }
  }
}
