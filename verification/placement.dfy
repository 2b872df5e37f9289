/** Settlement placement: footprints, the area and spacing tests, and the
    rejection-sampling loop of `generateCities` / `generateCitiesInArea`. */
module Placement {
  import opened Geometry
  import opened StableRandom
  import opened Decimal
  import opened Entities

  /** The square of side `size` whose top-left tile is (x, y). */
  predicate InSquare(p: Point, x: int, y: int, size: int) {
    x <= p.x < x + size && y <= p.y < y + size
  }

  /** The tiles (cx, y + j), ..., (cx, y + size - 1): one pass of the inner loop. */
  function Column(cx: int, y: int, size: nat, j: nat): (col: seq<Point>)
    requires j <= size
    ensures |col| == size - j
    ensures forall k :: 0 <= k < |col| ==> col[k] == Point(cx, y + j + k)
    decreases size - j
  {
    if j == size then [] else [Point(cx, y + j)] + Column(cx, y, size, j + 1)
  }

  /** Columns x + i, ..., x + size - 1: the remaining passes of the outer loop. */
  function Rows(x: int, y: int, size: nat, i: nat): (tiles: seq<Point>)
    requires i <= size
    ensures |tiles| == (size - i) * size
    ensures forall p :: p in tiles <==> x + i <= p.x < x + size && y <= p.y < y + size
    decreases size - i
  {
    if i == size then []
    else
      var col := Column(x + i, y, size, 0);
      var rest := Rows(x, y, size, i + 1);
      assert forall p :: p in col <==> p.x == x + i && y <= p.y < y + size by {
        forall p: Point | p.x == x + i && y <= p.y < y + size
          ensures p in col
        {
          assert col[p.y - y] == p;
        }
      }
      assert (size - i) * size == size + (size - (i + 1)) * size;
      col + rest
  }

  /** `generateCityTiles(x, y)`: the footprint, column by column. */
  function GenerateCityTiles(x: int, y: int, size: nat): (tiles: seq<Point>)
    ensures |tiles| == size * size
    ensures forall p :: p in tiles <==> InSquare(p, x, y, size)
    ensures size > 0 ==> tiles[0] == Point(x, y)
  {
    Rows(x, y, size, 0)
  }

  /** `isInBounds(x, y)`. */
  predicate IsInBounds(cfg: Config, x: int, y: int) {
    0 <= x < cfg.mapWidth && 0 <= y < cfg.mapHeight
  }

  /** The inner loop of `isValidCityArea` for column cx, from row offset j. */
  function AreaColumnOk(cfg: Config, land: (int, int) -> bool, cx: int, y: int, j: nat): (ok: bool)
    requires j <= cfg.citySize
    ensures ok <==> forall k :: y + j <= k < y + cfg.citySize ==> IsInBounds(cfg, cx, k) && land(cx, k)
    decreases cfg.citySize - j
  {
    if j == cfg.citySize then true
    else IsInBounds(cfg, cx, y + j) && land(cx, y + j) && AreaColumnOk(cfg, land, cx, y, j + 1)
  }

  /** The outer loop of `isValidCityArea`, from column offset i. */
  function AreaRowsOk(cfg: Config, land: (int, int) -> bool, x: int, y: int, i: nat): (ok: bool)
    requires i <= cfg.citySize
    ensures ok <==> forall p: Point :: x + i <= p.x < x + cfg.citySize && y <= p.y < y + cfg.citySize
                               ==> IsInBounds(cfg, p.x, p.y) && land(p.x, p.y)
    decreases cfg.citySize - i
  {
    if i == cfg.citySize then true
    else
      var here := AreaColumnOk(cfg, land, x + i, y, 0);
      var rest := AreaRowsOk(cfg, land, x, y, i + 1);
      assert !here ==> exists p: Point :: x + i <= p.x < x + cfg.citySize && y <= p.y < y + cfg.citySize
                                   && !(IsInBounds(cfg, p.x, p.y) && land(p.x, p.y)) by {
        if !here {
          var k :| y <= k < y + cfg.citySize && !(IsInBounds(cfg, x + i, k) && land(x + i, k));
          assert Point(x + i, k).x == x + i;
        }
      }
      here && rest
  }

  /** `isValidCityArea(x, y)`: every footprint tile is in bounds and land. */
  function IsValidCityArea(cfg: Config, land: (int, int) -> bool, x: int, y: int): (ok: bool)
    ensures ok <==> forall p :: InSquare(p, x, y, cfg.citySize) ==> IsInBounds(cfg, p.x, p.y) && land(p.x, p.y)
  {
    AreaRowsOk(cfg, land, x, y, 0)
  }

  function MinSq(cfg: Config): nat {
    cfg.minCityDistance * cfg.minCityDistance
  }

  /** Every tile of `a` is at least minCityDistance from every tile of `b`. */
  ghost predicate Apart(cfg: Config, a: City, b: City) {
    forall i, j :: 0 <= i < |a.tiles| && 0 <= j < |b.tiles| ==> SqDist(a.tiles[i], b.tiles[j]) >= MinSq(cfg)
  }

  /** The innermost loop of `isValidCityLocation`. */
  function TileFarFrom(cfg: Config, t: Point, others: seq<Point>): (ok: bool)
    ensures ok <==> forall j :: 0 <= j < |others| ==> SqDist(t, others[j]) >= MinSq(cfg)
    decreases |others|
  {
    if others == [] then true
    else SqDist(t, others[0]) >= MinSq(cfg) && TileFarFrom(cfg, t, others[1..])
  }

  /** The middle loop of `isValidCityLocation`. */
  function TilesFarFrom(cfg: Config, ts: seq<Point>, others: seq<Point>): (ok: bool)
    ensures ok <==> forall i, j :: 0 <= i < |ts| && 0 <= j < |others| ==> SqDist(ts[i], others[j]) >= MinSq(cfg)
    decreases |ts|
  {
    if ts == [] then true
    else
      var rest := TilesFarFrom(cfg, ts[1..], others);
      assert rest <==> forall i, j :: 1 <= i < |ts| && 0 <= j < |others| ==> SqDist(ts[i], others[j]) >= MinSq(cfg) by {
        assert forall i :: 1 <= i < |ts| ==> ts[i] == ts[1..][i - 1];
      }
      TileFarFrom(cfg, ts[0], others) && rest
  }

  /** `isValidCityLocation(newCity, existingCities)`: the new footprint keeps
      its distance from every footprint in `existing`. */
  function IsValidCityLocation(cfg: Config, newCity: City, existing: seq<City>): (ok: bool)
    ensures ok <==> forall k :: 0 <= k < |existing| ==> Apart(cfg, newCity, existing[k])
    decreases |existing|
  {
    if existing == [] then true
    else
      var rest := IsValidCityLocation(cfg, newCity, existing[1..]);
      assert rest <==> forall k :: 1 <= k < |existing| ==> Apart(cfg, newCity, existing[k]) by {
        assert forall k :: 1 <= k < |existing| ==> existing[k] == existing[1..][k - 1];
      }
      TilesFarFrom(cfg, newCity.tiles, existing[0].tiles) && rest
  }

  /** The anchor coordinate drawn from `v = next()`:
      `Math.floor(v * (dimension - citySize) + 1)`.  With a draw in [0, 1)
      it lies in [1, max(1, dimension - citySize)]. */
  function DrawAnchor(v: real, span: int): (a: int)
    ensures 0.0 <= v < 1.0 && span >= 0 ==> 1 <= a <= Max(1, span)
  {
    if 0.0 <= v < 1.0 && span > 0 then
      FloorOfScaledDraw(v, span);
      assert (v * span as real + 1.0).Floor == (v * span as real).Floor + 1;
      (v * span as real + 1.0).Floor
    else
      (v * span as real + 1.0).Floor
  }

  /** The footprint of `c` is its generated square, entirely in bounds and on land. */
  ghost predicate Footprinted(cfg: Config, land: (int, int) -> bool, c: City) {
    && c.tiles == GenerateCityTiles(c.x, c.y, cfg.citySize)
    && forall p :: InSquare(p, c.x, c.y, cfg.citySize) ==> IsInBounds(cfg, p.x, p.y) && land(p.x, p.y)
  }

  /** The city name `${namePrefix}City ${n}`. */
  function CityName(namePrefix: string, n: nat): string {
    namePrefix + "City " + NatToString(n)
  }

  /** The k-th city (0-based) placed by a call: its id continues the session
      registry, its name counts within the call, and its anchor passed the
      caller's filter. */
  ghost predicate PlacedAt(cfg: Config, land: (int, int) -> bool, isValidTile: (int, int) -> bool,
                           namePrefix: string, base: int, k: nat, c: City) {
    && c.id == base + k + 1
    && c.name == CityName(namePrefix, k + 1)
    && c.continentId == 1
    && isValidTile(c.x, c.y)
    && Footprinted(cfg, land, c)
  }

  /** The anchor lies in the range the draw can produce. */
  ghost predicate AnchorInRange(cfg: Config, c: City) {
    && (cfg.mapWidth >= cfg.citySize ==> 1 <= c.x <= Max(1, cfg.mapWidth - cfg.citySize))
    && (cfg.mapHeight >= cfg.citySize ==> 1 <= c.y <= Max(1, cfg.mapHeight - cfg.citySize))
  }

  lemma DrawnAnchorInRange(cfg: Config, vx: real, vy: real, c: City)
    requires 0.0 <= vx < 1.0 && 0.0 <= vy < 1.0
    requires c.x == DrawAnchor(vx, cfg.mapWidth - cfg.citySize)
    requires c.y == DrawAnchor(vy, cfg.mapHeight - cfg.citySize)
    ensures AnchorInRange(cfg, c)
  {
  }

  /** Appending an accepted city keeps every per-city and pairwise property. */
  lemma PlacementExtends(cfg: Config, land: (int, int) -> bool, isValidTile: (int, int) -> bool,
                         namePrefix: string, base: int, cities: seq<City>, city: City, ranged: bool)
    requires forall k :: 0 <= k < |cities| ==> PlacedAt(cfg, land, isValidTile, namePrefix, base, k, cities[k])
    requires forall j, k :: 0 <= j < k < |cities| ==> Apart(cfg, cities[k], cities[j])
    requires ranged ==> forall k :: 0 <= k < |cities| ==> AnchorInRange(cfg, cities[k])
    requires PlacedAt(cfg, land, isValidTile, namePrefix, base, |cities|, city)
    requires forall k :: 0 <= k < |cities| ==> Apart(cfg, city, cities[k])
    requires ranged ==> AnchorInRange(cfg, city)
    ensures var cs := cities + [city];
            && (forall k :: 0 <= k < |cs| ==> PlacedAt(cfg, land, isValidTile, namePrefix, base, k, cs[k]))
            && (forall j, k :: 0 <= j < k < |cs| ==> Apart(cfg, cs[k], cs[j]))
            && (ranged ==> forall k :: 0 <= k < |cs| ==> AnchorInRange(cfg, cs[k]))
  {
  }

  /** `generateCities(count, isValidTile, namePrefix)`: rejection sampling of
      anchors until `count` cities are placed or `count * 1000` consecutive
      draws have failed.  Spacing is checked only against the cities of this
      call. */
  method GenerateCities(cfg: Config, land: (int, int) -> bool, s: Session, count: int,
                        isValidTile: (int, int) -> bool, namePrefix: string)
    returns (cities: seq<City>, s': Session)
    ensures |cities| <= Max(count, 0)
    ensures s'.cities == cities && s'.allCitys == s.allCitys + cities
    ensures s'.roads == s.roads && s'.allRoads == s.allRoads
    ensures forall k :: 0 <= k < |cities| ==>
              PlacedAt(cfg, land, isValidTile, namePrefix, |s.allCitys|, k, cities[k])
    ensures forall j, k :: 0 <= j < k < |cities| ==> Apart(cfg, cities[k], cities[j])
    ensures ValidSeed(s.rng.seed) ==> ValidSeed(s'.rng.seed)
    ensures ValidSeed(s.rng.seed) ==> forall k :: 0 <= k < |cities| ==> AnchorInRange(cfg, cities[k])
  {
    cities := [];
    var rng := s.rng;
    var all := s.allCitys;
    var attempts := 0;
    var maxAttempts := count * 1000;
    while |cities| < count && attempts < maxAttempts
      invariant all == s.allCitys + cities
      invariant |cities| <= Max(count, 0)
      invariant forall k :: 0 <= k < |cities| ==>
                  PlacedAt(cfg, land, isValidTile, namePrefix, |s.allCitys|, k, cities[k])
      invariant forall j, k :: 0 <= j < k < |cities| ==> Apart(cfg, cities[k], cities[j])
      invariant ValidSeed(s.rng.seed) ==> ValidSeed(rng.seed)
      invariant ValidSeed(s.rng.seed) ==> forall k :: 0 <= k < |cities| ==> AnchorInRange(cfg, cities[k])
      decreases count - |cities|, maxAttempts - attempts
    {
      var dx := Next(rng);
      var x := DrawAnchor(dx.value, cfg.mapWidth - cfg.citySize);
      var dy := Next(dx.rng);
      var y := DrawAnchor(dy.value, cfg.mapHeight - cfg.citySize);
      rng := dy.rng;
      if isValidTile(x, y) && IsValidCityArea(cfg, land, x, y) {
        var city := City(|all| + 1, CityName(namePrefix, |cities| + 1), x, y,
                         GenerateCityTiles(x, y, cfg.citySize), 1);
        if IsValidCityLocation(cfg, city, cities) {
          assert PlacedAt(cfg, land, isValidTile, namePrefix, |s.allCitys|, |cities|, city);
          if ValidSeed(s.rng.seed) {
            DrawnAnchorInRange(cfg, dx.value, dy.value, city);
          }
          PlacementExtends(cfg, land, isValidTile, namePrefix, |s.allCitys|, cities, city, ValidSeed(s.rng.seed));
          cities := cities + [city];
          all := all + [city];
          attempts := 0;
        }
      }
      attempts := attempts + 1;
    }
    s' := s.(rng := rng, cities := cities, allCitys := all);
  }

  /** The candidate filter of `generateCitiesInArea`: within 19 tiles on both
      axes of some tile of the region (a box test, not region membership). */
  predicate NearArea(tiles: set<Point>, x: int, y: int) {
    exists t :: t in tiles && Abs(t.x - x) < 20 && Abs(t.y - y) < 20
  }

  /** `generateCitiesInArea(tiles, count, namePrefix)`. */
  method GenerateCitiesInArea(cfg: Config, land: (int, int) -> bool, s: Session, tiles: set<Point>,
                              count: int, namePrefix: string)
    returns (cities: seq<City>, s': Session)
    ensures |cities| <= Max(count, 0)
    ensures s'.cities == cities && s'.allCitys == s.allCitys + cities
    ensures s'.roads == s.roads && s'.allRoads == s.allRoads
    ensures forall k :: 0 <= k < |cities| ==>
              && cities[k].id == |s.allCitys| + k + 1
              && cities[k].name == CityName(namePrefix, k + 1)
              && cities[k].continentId == 1
              && NearArea(tiles, cities[k].x, cities[k].y)
              && Footprinted(cfg, land, cities[k])
    ensures forall j, k :: 0 <= j < k < |cities| ==> Apart(cfg, cities[k], cities[j])
    ensures ValidSeed(s.rng.seed) ==> ValidSeed(s'.rng.seed)
    ensures ValidSeed(s.rng.seed) ==> forall k :: 0 <= k < |cities| ==> AnchorInRange(cfg, cities[k])
  {
    cities, s' := GenerateCities(cfg, land, s, count, (x, y) => NearArea(tiles, x, y), namePrefix);
  }
}
