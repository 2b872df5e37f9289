/** The records MapCreator works on: its configuration, settlements ("cities"),
    road endpoints and roads, and the generation session that owns them. */
module Entities {
  import opened Geometry
  import opened StableRandom

  /** Map size and the two placement parameters the model uses. */
  datatype Config = Config(mapWidth: int, mapHeight: int, minCityDistance: nat, citySize: nat)

  /** The constructor's `options.minCityDistance || 10` and
      `options.citySize || 3`: an absent or zero option takes the default. */
  function MakeConfig(mapWidth: int, mapHeight: int, minCityDistance: nat, citySize: nat): (c: Config)
    ensures c.mapWidth == mapWidth && c.mapHeight == mapHeight
    ensures c.minCityDistance > 0 && c.citySize > 0
    ensures minCityDistance > 0 ==> c.minCityDistance == minCityDistance
    ensures citySize > 0 ==> c.citySize == citySize
    ensures minCityDistance == 0 ==> c.minCityDistance == 10
    ensures citySize == 0 ==> c.citySize == 3
  {
    Config(mapWidth, mapHeight,
           if minCityDistance != 0 then minCityDistance else 10,
           if citySize != 0 then citySize else 3)
  }

  /** A settlement: anchor (top-left tile), footprint tiles, continent label. */
  datatype City = City(id: int, name: string, x: int, y: int, tiles: seq<Point>, continentId: int)

  function Anchor(c: City): Point {
    Point(c.x, c.y)
  }

  /** A by-value snapshot of a city at one end of a road; x, y is the
      connection tile, not necessarily the anchor. */
  datatype Endpoint = Endpoint(id: int, name: string, continentId: int, x: int, y: int)

  datatype Road = Road(from: Endpoint, to: Endpoint)

  function Spot(e: Endpoint): Point {
    Point(e.x, e.y)
  }

  /** The mutable state of one MapCreator: the generator it draws from, the
      current city list, the session-wide city registry, the current road
      batch and the session-wide road registry. */
  datatype Session = Session(
    rng: Rng,
    cities: seq<City>,
    allCitys: seq<City>,
    roads: seq<Road>,
    allRoads: seq<Road>)

  /** A fresh MapCreator drawing from the given generator. */
  function NewSession(rng: Rng): (s: Session)
    ensures s.rng == rng
    ensures s.cities == [] && s.allCitys == [] && s.roads == [] && s.allRoads == []
  {
    Session(rng, [], [], [], [])
  }
}
