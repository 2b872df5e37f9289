/** Road construction: the connection-point search, the crossing filter, the
    nearest-neighbour road graph (`generateRoads`) and the neighbour-limited
    triangulation (`generateDelaunayRoads` / `addRoadIfValid`). */
module RoadNetwork {
  import opened Geometry
  import opened Sorting
  import opened Entities

  /** `MAX_ROAD_DISTANCE` of `generateRoads`. */
  const MaxRoadDistance: nat := 30
  /** `MAX_CONNECTIONS` of `generateRoads`. */
  const MaxConnections: nat := 3
  /** `MAX_ROAD_DISTANCE` of `generateDelaunayRoads`. */
  const MaxTriangleRoadDistance: nat := 50

  /** The de-duplication key `${min}-${max}` of an unordered id pair. */
  function RoadKey(a: int, b: int): (int, int) {
    (Min(a, b), Max(a, b))
  }

  function Key(r: Road): (int, int) {
    RoadKey(r.from.id, r.to.id)
  }

  predicate Touches(r: Road, id: int) {
    r.from.id == id || r.to.id == id
  }

  /** The number of roads that have `id` at one end or both. */
  function Degree(roads: seq<Road>, id: int): nat
    decreases |roads|
  {
    if roads == [] then 0
    else Degree(roads[..|roads| - 1], id) + (if Touches(roads[|roads| - 1], id) then 1 else 0)
  }

  lemma DegreeAppend(roads: seq<Road>, r: Road, id: int)
    ensures Degree(roads + [r], id) == Degree(roads, id) + (if Touches(r, id) then 1 else 0)
  {
    assert (roads + [r])[..|roads|] == roads;
  }

  /** The two roads' segments cross in the sense of `doLinesIntersect`. */
  predicate Crosses(r1: Road, r2: Road) {
    DoLinesIntersect(Spot(r1.from), Spot(r1.to), Spot(r2.from), Spot(r2.to))
  }

  /** `isRoadIntersecting(newRoad, existingRoads)`. */
  function IsRoadIntersecting(newRoad: Road, existing: seq<Road>): (r: bool)
    ensures r <==> exists k :: 0 <= k < |existing| && Crosses(newRoad, existing[k])
    decreases |existing|
  {
    if existing == [] then false
    else
      var rest := IsRoadIntersecting(newRoad, existing[1..]);
      assert rest <==> exists k :: 1 <= k < |existing| && Crosses(newRoad, existing[k]) by {
        assert forall k :: 1 <= k < |existing| ==> existing[k] == existing[1..][k - 1];
        if rest {
          var m :| 0 <= m < |existing[1..]| && Crosses(newRoad, existing[1..][m]);
          assert existing[m + 1] == existing[1..][m];
        }
      }
      Crosses(newRoad, existing[0]) || rest
  }

  /** A road never crosses itself, and crossing does not depend on order. */
  lemma CrossesFacts(r1: Road, r2: Road)
    ensures !Crosses(r1, r1)
    ensures Crosses(r1, r2) == Crosses(r2, r1)
  {
    CrossingSymmetric(Spot(r1.from), Spot(r1.to), Spot(r2.from), Spot(r2.to));
  }

  /** Pair (a, b) of tile indices comes before pair (i, j) in the order the
      nested loops of `findNearestConnectionPoint` visit pairs. */
  predicate PairBefore(a: int, b: int, i: int, j: int) {
    a < i || (a == i && b < j)
  }

  /** Tiles i of `from` and j of `to` are the first pair of least distance in
      loop order: no pair is nearer, and every earlier pair is farther. */
  ghost predicate FirstNearestAt(from: City, to: City, i: int, j: int) {
    && 0 <= i < |from.tiles| && 0 <= j < |to.tiles|
    && (forall a, b :: 0 <= a < |from.tiles| && 0 <= b < |to.tiles| ==>
          SqDist(from.tiles[i], to.tiles[j]) <= SqDist(from.tiles[a], to.tiles[b]))
    && (forall a, b :: 0 <= a < |from.tiles| && 0 <= b < |to.tiles| && PairBefore(a, b, i, j) ==>
          SqDist(from.tiles[i], to.tiles[j]) < SqDist(from.tiles[a], to.tiles[b]))
  }

  /** (fp, tp) is what `findNearestConnectionPoint(a, b)` returns: the first
      closest pair of footprint tiles, or the anchors when a footprint is
      empty. */
  ghost predicate NearestPair(a: City, b: City, fp: Point, tp: Point) {
    if |a.tiles| == 0 || |b.tiles| == 0 then fp == Anchor(a) && tp == Anchor(b)
    else exists i, j :: FirstNearestAt(a, b, i, j) && fp == a.tiles[i] && tp == b.tiles[j]
  }

  /** Only one pair of indices is the first nearest. */
  lemma FirstNearestUnique(from: City, to: City, i: int, j: int, i': int, j': int)
    requires FirstNearestAt(from, to, i, j) && FirstNearestAt(from, to, i', j')
    ensures i == i' && j == j'
  {
    assert SqDist(from.tiles[i], to.tiles[j]) == SqDist(from.tiles[i'], to.tiles[j']);
  }

  /** The connection points of two cities are determined by the cities. */
  lemma NearestPairUnique(a: City, b: City, fp: Point, tp: Point, fp': Point, tp': Point)
    requires NearestPair(a, b, fp, tp) && NearestPair(a, b, fp', tp')
    ensures fp == fp' && tp == tp'
  {
    if |a.tiles| > 0 && |b.tiles| > 0 {
      var i, j :| FirstNearestAt(a, b, i, j) && fp == a.tiles[i] && tp == b.tiles[j];
      var i', j' :| FirstNearestAt(a, b, i', j') && fp' == a.tiles[i'] && tp' == b.tiles[j'];
      FirstNearestUnique(a, b, i, j, i', j');
    }
  }

  /** `findNearestConnectionPoint(from, to)`: exhaustive search over footprint
      tile pairs; a pair replaces the best so far only when strictly nearer,
      so the first pair of least distance wins. */
  method FindNearestConnectionPoint(from: City, to: City) returns (fromPoint: Point, toPoint: Point)
    ensures NearestPair(from, to, fromPoint, toPoint)
  {
    fromPoint := Anchor(from);
    toPoint := Anchor(to);
    var found := false;   // minDistance is still Infinity
    var minDistance := 0;
    ghost var bi, bj := 0, 0;
    var i := 0;
    while i < |from.tiles|
      invariant 0 <= i <= |from.tiles|
      invariant found <==> i > 0 && |to.tiles| > 0
      invariant !found ==> fromPoint == Anchor(from) && toPoint == Anchor(to)
      invariant found ==> 0 <= bi < i && 0 <= bj < |to.tiles|
      invariant found ==> fromPoint == from.tiles[bi] && toPoint == to.tiles[bj] && minDistance == SqDist(fromPoint, toPoint)
      invariant found ==> forall a, b :: 0 <= a < i && 0 <= b < |to.tiles| ==> minDistance <= SqDist(from.tiles[a], to.tiles[b])
      invariant found ==> forall a, b :: 0 <= a < |from.tiles| && 0 <= b < |to.tiles| && PairBefore(a, b, bi, bj) ==>
                            minDistance < SqDist(from.tiles[a], to.tiles[b])
    {
      var j := 0;
      while j < |to.tiles|
        invariant 0 <= j <= |to.tiles|
        invariant found <==> (i > 0 && |to.tiles| > 0) || j > 0
        invariant !found ==> fromPoint == Anchor(from) && toPoint == Anchor(to)
        invariant found ==> PairBefore(bi, bj, i, j) && 0 <= bi <= i && 0 <= bj < |to.tiles|
        invariant found ==> fromPoint == from.tiles[bi] && toPoint == to.tiles[bj] && minDistance == SqDist(fromPoint, toPoint)
        invariant found ==> forall a, b :: 0 <= a < i && 0 <= b < |to.tiles| ==> minDistance <= SqDist(from.tiles[a], to.tiles[b])
        invariant found ==> forall b :: 0 <= b < j ==> minDistance <= SqDist(from.tiles[i], to.tiles[b])
        invariant found ==> forall a, b :: 0 <= a < |from.tiles| && 0 <= b < |to.tiles| && PairBefore(a, b, bi, bj) ==>
                              minDistance < SqDist(from.tiles[a], to.tiles[b])
      {
        var distance := SqDist(from.tiles[i], to.tiles[j]);
        if !found || distance < minDistance {
          found := true;
          minDistance := distance;
          fromPoint := from.tiles[i];
          toPoint := to.tiles[j];
          bi, bj := i, j;
        }
        j := j + 1;
      }
      i := i + 1;
    }
    if found {
      assert FirstNearestAt(from, to, bi, bj);
    }
  }

  /** The by-value endpoint record of a city at a connection tile. */
  function Snapshot(c: City, p: Point): (e: Endpoint)
    ensures e.id == c.id && e.name == c.name && e.continentId == c.continentId && Spot(e) == p
  {
    Endpoint(c.id, c.name, c.continentId, p.x, p.y)
  }

  /** Road r runs from city a to city b between a nearest pair of their tiles. */
  ghost predicate Joins(r: Road, a: City, b: City) {
    && r.from == Snapshot(a, Spot(r.from))
    && r.to == Snapshot(b, Spot(r.to))
    && NearestPair(a, b, Spot(r.from), Spot(r.to))
  }

  /** The road between two cities is determined by the cities. */
  lemma JoinsUnique(r: Road, r': Road, a: City, b: City)
    requires Joins(r, a, b) && Joins(r', a, b)
    ensures r == r'
  {
    NearestPairUnique(a, b, Spot(r.from), Spot(r.to), Spot(r'.from), Spot(r'.to));
  }

  /** Road r joins two different cities of the list, at indices i and j. */
  ghost predicate JoinsAt(cities: seq<City>, r: Road, i: int, j: int) {
    && 0 <= i < |cities| && 0 <= j < |cities|
    && cities[i] != cities[j]
    && Joins(r, cities[i], cities[j])
  }

  /** Road r joins two different cities of the list whose anchors are at most
      MaxRoadDistance apart. */
  ghost predicate LinkedNear(cities: seq<City>, r: Road) {
    exists i, j :: JoinsAt(cities, r, i, j)
                   && SqDist(Anchor(cities[i]), Anchor(cities[j])) <= MaxRoadDistance * MaxRoadDistance
  }

  ghost predicate DistinctIds(cities: seq<City>) {
    forall i, j :: 0 <= i < |cities| && 0 <= j < |cities| && i != j ==> cities[i].id != cities[j].id
  }

  ghost predicate UniqueKeys(roads: seq<Road>) {
    forall k1, k2 :: 0 <= k1 < k2 < |roads| ==> Key(roads[k1]) != Key(roads[k2])
  }

  ghost predicate NoCrossings(roads: seq<Road>) {
    forall k1, k2 :: 0 <= k1 < |roads| && 0 <= k2 < |roads| ==> !Crosses(roads[k1], roads[k2])
  }

  function KeysOf(roads: seq<Road>): set<(int, int)> {
    set k | 0 <= k < |roads| :: Key(roads[k])
  }

  /** Appending a road with a fresh key that crosses none of the batch keeps
      the batch de-duplicated and crossing-free. */
  lemma AppendKeepsBatch(roads: seq<Road>, r: Road)
    requires UniqueKeys(roads) && NoCrossings(roads)
    requires Key(r) !in KeysOf(roads)
    requires !IsRoadIntersecting(r, roads)
    ensures UniqueKeys(roads + [r]) && NoCrossings(roads + [r])
    ensures KeysOf(roads + [r]) == KeysOf(roads) + {Key(r)}
  {
    var rs := roads + [r];
    forall k1, k2 | 0 <= k1 < |rs| && 0 <= k2 < |rs|
      ensures !Crosses(rs[k1], rs[k2])
    {
      CrossesFacts(rs[k1], rs[k2]);
      if k1 < |roads| && k2 == |roads| {
        CrossesFacts(r, rs[k1]);
      }
    }
    forall k1, k2 | 0 <= k1 < k2 < |rs|
      ensures Key(rs[k1]) != Key(rs[k2])
    {
      if k2 == |roads| {
        assert Key(rs[k1]) in KeysOf(roads);
      }
    }
    assert KeysOf(rs) == KeysOf(roads) + {Key(r)} by {
      forall key | key in KeysOf(rs)
        ensures key in KeysOf(roads) + {Key(r)}
      {
        var k :| 0 <= k < |rs| && Key(rs[k]) == key;
        if k < |roads| {
          assert Key(roads[k]) == key;
        }
      }
      forall key | key in KeysOf(roads)
        ensures key in KeysOf(rs)
      {
        var k :| 0 <= k < |roads| && Key(roads[k]) == key;
        assert Key(rs[k]) == key;
      }
      assert Key(rs[|roads|]) == Key(r);
    }
  }

  // ---------------------------------------------------------------------
  // generateRoads

  function IdsOf(cities: seq<City>): set<int> {
    set c | c in cities :: c.id
  }

  /** The candidates of cityA, nearest first: other cities whose anchors are
      within MaxRoadDistance. */
  function NearCities(cities: seq<City>, cityA: City): (near: seq<City>)
    ensures forall m :: 0 <= m < |near| ==>
              near[m] in cities && near[m] != cityA
              && SqDist(Anchor(cityA), Anchor(near[m])) <= MaxRoadDistance * MaxRoadDistance
  {
    var key := (c: City) => SqDist(Anchor(cityA), Anchor(c));
    var candidates := Filter(cities, (c: City) => c != cityA && key(c) <= MaxRoadDistance * MaxRoadDistance);
    var near := SortBy(candidates, key);
    assert forall m :: 0 <= m < |near| ==> near[m] in multiset(candidates);
    near
  }

  /** Every other city within MaxRoadDistance is a candidate, and the
      candidates come nearest first. */
  lemma NearCitiesComplete(cities: seq<City>, cityA: City)
    ensures forall k :: 0 <= k < |cities| && cities[k] != cityA
              && SqDist(Anchor(cityA), Anchor(cities[k])) <= MaxRoadDistance * MaxRoadDistance
              ==> cities[k] in NearCities(cities, cityA)
    ensures var near := NearCities(cities, cityA);
            forall m, n :: 0 <= m < n < |near| ==>
              SqDist(Anchor(cityA), Anchor(near[m])) <= SqDist(Anchor(cityA), Anchor(near[n]))
  {
    var key := (c: City) => SqDist(Anchor(cityA), Anchor(c));
    var keep := (c: City) => c != cityA && key(c) <= MaxRoadDistance * MaxRoadDistance;
    var candidates := Filter(cities, keep);
    var near := SortBy(candidates, key);
    assert near == NearCities(cities, cityA);
    forall k | 0 <= k < |cities| && keep(cities[k])
      ensures cities[k] in near
    {
      assert cities[k] in candidates;
      assert cities[k] in multiset(near);
    }
    assert SortedBy(near, key);
  }

  /** The bookkeeping `generateRoads` keeps while it builds a batch. */
  ghost predicate RoadState(cities: seq<City>, batch: seq<Road>, processed: set<(int, int)>, counts: map<int, int>) {
    && processed == KeysOf(batch)
    && UniqueKeys(batch)
    && NoCrossings(batch)
    && counts.Keys == IdsOf(cities)
    && DegreesCounted(batch, counts)
    && AllLinkedNear(cities, batch)
  }

  /** Every city's degree is within its running count and the cap, and ids
      without a count have no road. */
  ghost predicate DegreesCounted(batch: seq<Road>, counts: map<int, int>) {
    && (forall id :: id in counts ==> Degree(batch, id) <= counts[id])
    && (forall id :: id !in counts ==> Degree(batch, id) == 0)
    && (forall id :: Degree(batch, id) <= MaxConnections)
  }

  ghost predicate AllLinkedNear(cities: seq<City>, batch: seq<Road>) {
    forall k :: 0 <= k < |batch| ==> LinkedNear(cities, batch[k])
  }

  /** The running counts after a road between a and b: each end counted
      once more, in the order `generateRoads` updates them. */
  function Counted(counts: map<int, int>, a: int, b: int): (c: map<int, int>)
    requires a in counts && b in counts
    ensures c.Keys == counts.Keys
    ensures a != b ==> c[a] == counts[a] + 1 && c[b] == counts[b] + 1
    ensures a == b ==> c[a] == counts[a] + 2
    ensures forall id :: id in counts && id != a && id != b ==> c[id] == counts[id]
  {
    var c1 := counts[a := counts[a] + 1];
    c1[b := c1[b] + 1]
  }

  /** Accepting a road between a and b, both under the cap, and counting it
      at both ends keeps every degree within its count and the cap. */
  lemma AcceptKeepsDegrees(batch: seq<Road>, counts: map<int, int>, r: Road, a: int, b: int)
    requires r.from.id == a && r.to.id == b
    requires a in counts && b in counts && counts[a] < MaxConnections && counts[b] < MaxConnections
    requires DegreesCounted(batch, counts)
    ensures DegreesCounted(batch + [r], Counted(counts, a, b))
  {
    var c2 := Counted(counts, a, b);
    var rs := batch + [r];
    forall id | id in c2
      ensures Degree(rs, id) <= c2[id] && Degree(rs, id) <= MaxConnections
    {
      DegreeAppend(batch, r, id);
    }
    forall id | id !in c2
      ensures Degree(rs, id) == 0
    {
      DegreeAppend(batch, r, id);
    }
  }

  /** Appending a road that joins two near cities keeps every road of the
      batch linked. */
  lemma AcceptKeepsLinks(cities: seq<City>, batch: seq<Road>, r: Road, i: int, j: int)
    requires AllLinkedNear(cities, batch)
    requires JoinsAt(cities, r, i, j)
    requires SqDist(Anchor(cities[i]), Anchor(cities[j])) <= MaxRoadDistance * MaxRoadDistance
    ensures AllLinkedNear(cities, batch + [r])
  {
    var rs := batch + [r];
    forall k | 0 <= k < |rs|
      ensures LinkedNear(cities, rs[k])
    {
      if k == |batch| {
        assert JoinsAt(cities, rs[k], i, j);
      } else {
        assert rs[k] == batch[k];
      }
    }
  }

  /** Accepting a road between two cities under their degree cap keeps the
      bookkeeping. */
  lemma AcceptKeepsState(cities: seq<City>, batch: seq<Road>, processed: set<(int, int)>, counts: map<int, int>,
                         i: int, j: int, r: Road)
    requires RoadState(cities, batch, processed, counts)
    requires JoinsAt(cities, r, i, j)
    requires SqDist(Anchor(cities[i]), Anchor(cities[j])) <= MaxRoadDistance * MaxRoadDistance
    requires cities[i].id in counts && cities[j].id in counts
    requires counts[cities[i].id] < MaxConnections && counts[cities[j].id] < MaxConnections
    requires Key(r) !in processed
    requires !IsRoadIntersecting(r, batch)
    ensures RoadState(cities, batch + [r], processed + {Key(r)}, Counted(counts, cities[i].id, cities[j].id))
  {
    AppendKeepsBatch(batch, r);
    AcceptKeepsDegrees(batch, counts, r, cities[i].id, cities[j].id);
    AcceptKeepsLinks(cities, batch, r, i, j);
  }

  /** One candidate cityB of cityA in `generateRoads`: skip it when it is at
      its degree cap, when the pair is already joined, or when the road
      between their nearest tiles crosses the batch; otherwise accept it. */
  method ConsiderCandidate(cities: seq<City>, batch: seq<Road>, processed: set<(int, int)>, counts: map<int, int>,
                           cityA: City, cityB: City, ghost i: int, ghost j: int)
    returns (batch': seq<Road>, processed': set<(int, int)>, counts': map<int, int>)
    requires RoadState(cities, batch, processed, counts)
    requires 0 <= i < |cities| && 0 <= j < |cities| && cities[i] == cityA && cities[j] == cityB && cityA != cityB
    requires SqDist(Anchor(cityA), Anchor(cityB)) <= MaxRoadDistance * MaxRoadDistance
    requires counts[cityA.id] < MaxConnections
    ensures RoadState(cities, batch', processed', counts')
    ensures batch' == batch || (|batch'| == |batch| + 1 && batch'[..|batch|] == batch)
    ensures !(cityB.id in counts && counts[cityB.id] < MaxConnections) || RoadKey(cityA.id, cityB.id) in processed ==>
              batch' == batch && processed' == processed && counts' == counts
    ensures cityB.id in counts && counts[cityB.id] < MaxConnections && RoadKey(cityA.id, cityB.id) !in processed ==>
              exists r :: Joins(r, cityA, cityB) &&
                if IsRoadIntersecting(r, batch) then batch' == batch && processed' == processed && counts' == counts
                else && batch' == batch + [r]
                     && processed' == processed + {RoadKey(cityA.id, cityB.id)}
                     && counts' == Counted(counts, cityA.id, cityB.id)
  {
    batch', processed', counts' := batch, processed, counts;
    if counts[cityB.id] < MaxConnections {
      var roadId := RoadKey(cityA.id, cityB.id);
      if roadId !in processed {
        var fromPoint, toPoint := FindNearestConnectionPoint(cityA, cityB);
        var newRoad := Road(Snapshot(cityA, fromPoint), Snapshot(cityB, toPoint));
        assert Joins(newRoad, cityA, cityB);
        if !IsRoadIntersecting(newRoad, batch) {
          AcceptKeepsState(cities, batch, processed, counts, i, j, newRoad);
          batch' := batch + [newRoad];
          processed' := processed + {roadId};
          counts' := Counted(counts, cityA.id, cityB.id);
        }
      }
    }
  }

  /** `generateRoads(cities)`: for each city in order, connect it greedily to
      its candidates nearest first, skipping a candidate at its degree cap, a
      pair already joined, or a road crossing the current batch, until the
      city reaches the cap.  The batch replaces `roads` and is appended to
      `allRoads`. */
  method GenerateRoads(s: Session, cities: seq<City>) returns (batch: seq<Road>, s': Session)
    ensures s'.roads == batch && s'.allRoads == s.allRoads + batch
    ensures s'.rng == s.rng && s'.cities == s.cities && s'.allCitys == s.allCitys
    ensures forall k :: 0 <= k < |batch| ==> LinkedNear(cities, batch[k])
    ensures UniqueKeys(batch)
    ensures forall id :: Degree(batch, id) <= MaxConnections
    ensures NoCrossings(batch)
    ensures DistinctIds(cities) ==> forall k :: 0 <= k < |batch| ==> batch[k].from.id != batch[k].to.id
  {
    batch := [];
    var processed: set<(int, int)> := {};
    var counts: map<int, int> := map id | id in IdsOf(cities) :: 0;
    var a := 0;
    while a < |cities|
      invariant 0 <= a <= |cities|
      invariant RoadState(cities, batch, processed, counts)
    {
      var cityA := cities[a];
      assert cityA.id in counts;
      if counts[cityA.id] < MaxConnections {
        var near := NearCities(cities, cityA);
        var m := 0;
        while m < |near|
          invariant 0 <= m <= |near|
          invariant RoadState(cities, batch, processed, counts)
          invariant counts[cityA.id] < MaxConnections
        {
          var cityB := near[m];
          ghost var j :| 0 <= j < |cities| && cities[j] == cityB;
          batch, processed, counts := ConsiderCandidate(cities, batch, processed, counts, cityA, cityB, a, j);
          assert cityA.id in counts;
          if counts[cityA.id] >= MaxConnections {
            break;
          }
          m := m + 1;
        }
      }
      a := a + 1;
    }
    s' := s.(roads := batch, allRoads := s.allRoads + batch);
    forall k | 0 <= k < |batch| && DistinctIds(cities)
      ensures batch[k].from.id != batch[k].to.id
    {
      assert LinkedNear(cities, batch[k]);
    }
  }

  // ---------------------------------------------------------------------
  // generateDelaunayRoads

  /** The triangle's vertices are not collinear and no other city of
      `cities` lies in it or on its boundary. */
  ghost predicate EmptyTriangle(a: City, b: City, c: City, cities: seq<City>) {
    && Cross(Anchor(a), Anchor(b), Anchor(c)) != 0
    && forall k :: 0 <= k < |cities| && cities[k] != a && cities[k] != b && cities[k] != c
                   ==> !IsPointInTriangle(Anchor(cities[k]), Anchor(a), Anchor(b), Anchor(c))
  }

  /** The loop of `isValidTriangle` over the other cities. */
  function NoneInside(a: City, b: City, c: City, others: seq<City>): (ok: bool)
    ensures ok <==> forall k :: 0 <= k < |others| ==> !IsPointInTriangle(Anchor(others[k]), Anchor(a), Anchor(b), Anchor(c))
    decreases |others|
  {
    if others == [] then true
    else
      var rest := NoneInside(a, b, c, others[1..]);
      assert forall k :: 1 <= k < |others| ==> others[k] == others[1..][k - 1];
      !IsPointInTriangle(Anchor(others[0]), Anchor(a), Anchor(b), Anchor(c)) && rest
  }

  /** `isValidTriangle(a, b, c)` against the city list `cities` (the
      creator's current `this.cities`). */
  function IsValidTriangle(a: City, b: City, c: City, cities: seq<City>): (ok: bool)
    ensures ok <==> EmptyTriangle(a, b, c, cities)
  {
    var area := Abs(Cross(Anchor(a), Anchor(b), Anchor(c))) as real / 2.0;
    if area == 0.0 then false
    else
      var others := Filter(cities, (city: City) => city != a && city != b && city != c);
      var ok := NoneInside(a, b, c, others);
      assert ok <==> EmptyTriangle(a, b, c, cities) by {
        if ok {
          forall k | 0 <= k < |cities| && cities[k] != a && cities[k] != b && cities[k] != c
            ensures !IsPointInTriangle(Anchor(cities[k]), Anchor(a), Anchor(b), Anchor(c))
          {
            assert cities[k] in others;
          }
        }
        if EmptyTriangle(a, b, c, cities) {
          forall m | 0 <= m < |others|
            ensures !IsPointInTriangle(Anchor(others[m]), Anchor(a), Anchor(b), Anchor(c))
          {
            var k :| 0 <= k < |cities| && cities[k] == others[m];
          }
        }
      }
      ok
  }

  /** Road r joins two different cities of the list, at least one of them on
      the given continent. */
  ghost predicate LinkedOn(cities: seq<City>, r: Road, continentId: int) {
    exists i, j :: JoinsAt(cities, r, i, j)
                   && (cities[i].continentId == continentId || cities[j].continentId == continentId)
  }

  /** `addRoadIfValid(roads, processed, cityA, cityB)`: add the road between
      the nearest tiles of the two cities unless the pair is already joined
      or the road crosses one of `roads`; an added road also goes to
      `allRoads`. */
  method AddRoadIfValid(roads: seq<Road>, processed: set<(int, int)>, allRoads: seq<Road>, cityA: City, cityB: City)
    returns (roads': seq<Road>, processed': set<(int, int)>, allRoads': seq<Road>)
    ensures |roads| <= |roads'| <= |roads| + 1 && roads'[..|roads|] == roads
    ensures allRoads' == allRoads + roads'[|roads|..]
    ensures processed' == processed + KeysOf(roads'[|roads|..])
    ensures RoadKey(cityA.id, cityB.id) in processed ==> roads' == roads
    ensures |roads'| == |roads| + 1 ==>
              && Joins(roads'[|roads|], cityA, cityB)
              && Key(roads'[|roads|]) !in processed
              && !IsRoadIntersecting(roads'[|roads|], roads)
    ensures RoadKey(cityA.id, cityB.id) in processed ==>
              roads' == roads && processed' == processed && allRoads' == allRoads
    ensures RoadKey(cityA.id, cityB.id) !in processed ==>
              exists r :: Joins(r, cityA, cityB) &&
                if IsRoadIntersecting(r, roads) then roads' == roads && processed' == processed && allRoads' == allRoads
                else && roads' == roads + [r]
                     && allRoads' == allRoads + [r]
                     && processed' == processed + {RoadKey(cityA.id, cityB.id)}
  {
    roads', processed', allRoads' := roads, processed, allRoads;
    var roadId := RoadKey(cityA.id, cityB.id);
    if roadId !in processed {
      var fromPoint, toPoint := FindNearestConnectionPoint(cityA, cityB);
      var newRoad := Road(Snapshot(cityA, fromPoint), Snapshot(cityB, toPoint));
      assert Joins(newRoad, cityA, cityB);
      if !IsRoadIntersecting(newRoad, roads) {
        roads' := roads + [newRoad];
        allRoads' := allRoads + [newRoad];
        processed' := processed + {roadId};
        assert roads'[|roads|..] == [newRoad];
        assert KeysOf([newRoad]) == {roadId} by {
          assert Key([newRoad][0]) == roadId;
        }
      }
    }
    assert roads'[|roads|..] == [] || |roads'| == |roads| + 1;
  }

  function XKey(c: City): int {
    c.x
  }

  /** City c may close a triangle with `city`: it is on the continent and
      within MaxTriangleRoadDistance. */
  predicate TriangleCandidate(city: City, continentId: int, c: City) {
    c.continentId == continentId && SqDist(Anchor(city), Anchor(c)) <= MaxTriangleRoadDistance * MaxTriangleRoadDistance
  }

  /** The cities after index i that may close a triangle with city i, in
      list order. */
  function TriangleCandidates(sorted: seq<City>, i: nat, continentId: int): (cands: seq<City>)
    requires i < |sorted|
    ensures forall m :: 0 <= m < |cands| ==> cands[m] in sorted[i + 1..] && TriangleCandidate(sorted[i], continentId, cands[m])
    ensures forall k :: i < k < |sorted| && TriangleCandidate(sorted[i], continentId, sorted[k]) ==> sorted[k] in cands
  {
    var cands := Filter(sorted[i + 1..], (c: City) => TriangleCandidate(sorted[i], continentId, c));
    assert forall k :: i < k < |sorted| ==> sorted[k] == sorted[i + 1..][k - i - 1];
    cands
  }

  /** The two nearest cities after index i on the continent, within
      MaxTriangleRoadDistance of city i, nearest first (fewer if there are
      fewer candidates). */
  function NearestTwo(sorted: seq<City>, i: nat, continentId: int): (near: seq<City>)
    requires i < |sorted|
    ensures |near| <= 2
    ensures forall m :: 0 <= m < |near| ==>
              && near[m] in sorted[i + 1..]
              && near[m].continentId == continentId
              && SqDist(Anchor(sorted[i]), Anchor(near[m])) <= MaxTriangleRoadDistance * MaxTriangleRoadDistance
  {
    var key := (c: City) => SqDist(Anchor(sorted[i]), Anchor(c));
    var candidates := TriangleCandidates(sorted, i, continentId);
    var ordered := SortBy(candidates, key);
    var near := Take(ordered, 2);
    forall m | 0 <= m < |near|
      ensures near[m] in sorted[i + 1..] && TriangleCandidate(sorted[i], continentId, near[m])
    {
      assert near[m] == ordered[m];
      assert ordered[m] in multiset(candidates);
      var p :| 0 <= p < |candidates| && candidates[p] == ordered[m];
    }
    near
  }

  /** `NearestTwo` keeps min(2, n) of the n candidates, nearest first. */
  lemma NearestTwoCount(sorted: seq<City>, i: nat, continentId: int)
    requires i < |sorted|
    ensures |NearestTwo(sorted, i, continentId)| == Min(2, |TriangleCandidates(sorted, i, continentId)|)
    ensures var near := NearestTwo(sorted, i, continentId);
            |near| == 2 ==> SqDist(Anchor(sorted[i]), Anchor(near[0])) <= SqDist(Anchor(sorted[i]), Anchor(near[1]))
  {
    var key := (c: City) => SqDist(Anchor(sorted[i]), Anchor(c));
    var near := Take(SortBy(TriangleCandidates(sorted, i, continentId), key), 2);
    assert near == NearestTwo(sorted, i, continentId);
    assert SortedBy(near, key);
  }

  /** No candidate that `NearestTwo` leaves out is nearer than one it keeps. */
  lemma NearestTwoNearest(sorted: seq<City>, i: nat, continentId: int)
    requires i < |sorted|
    ensures var near := NearestTwo(sorted, i, continentId);
            forall k, m :: i < k < |sorted| && TriangleCandidate(sorted[i], continentId, sorted[k])
                           && sorted[k] !in near && 0 <= m < |near| ==>
              SqDist(Anchor(sorted[i]), Anchor(near[m])) <= SqDist(Anchor(sorted[i]), Anchor(sorted[k]))
  {
    var key := (c: City) => SqDist(Anchor(sorted[i]), Anchor(c));
    var candidates := TriangleCandidates(sorted, i, continentId);
    var near := Take(SortBy(candidates, key), 2);
    assert near == NearestTwo(sorted, i, continentId);
    forall k, m | i < k < |sorted| && TriangleCandidate(sorted[i], continentId, sorted[k])
                  && sorted[k] !in near && 0 <= m < |near|
      ensures SqDist(Anchor(sorted[i]), Anchor(near[m])) <= SqDist(Anchor(sorted[i]), Anchor(sorted[k]))
    {
      TakeKeepsSmallest(candidates, key, 2, sorted[k]);
    }
  }

  /** Roads of the triangulation batch so far: de-duplicated, crossing-free,
      each joining two cities of the sorted list, one of them on the
      continent. */
  ghost predicate TriangulationState(sorted: seq<City>, continentId: int, roads: seq<Road>, processed: set<(int, int)>) {
    && processed == KeysOf(roads)
    && UniqueKeys(roads)
    && NoCrossings(roads)
    && forall k :: 0 <= k < |roads| ==> LinkedOn(sorted, roads[k], continentId)
  }

  /** One `addRoadIfValid` call between cities i and j of the sorted list
      keeps the triangulation bookkeeping. */
  method AddTriangleSide(sorted: seq<City>, continentId: int, roads: seq<Road>, processed: set<(int, int)>,
                         allRoads: seq<Road>, ghost base: seq<Road>, cityA: City, cityB: City, ghost i: int, ghost j: int)
    returns (roads': seq<Road>, processed': set<(int, int)>, allRoads': seq<Road>)
    requires 0 <= i < |sorted| && 0 <= j < |sorted| && sorted[i] == cityA && sorted[j] == cityB && cityA != cityB
    requires sorted[i].continentId == continentId || sorted[j].continentId == continentId
    requires TriangulationState(sorted, continentId, roads, processed)
    requires allRoads == base + roads
    ensures TriangulationState(sorted, continentId, roads', processed')
    ensures allRoads' == base + roads'
  {
    roads', processed', allRoads' := AddRoadIfValid(roads, processed, allRoads, cityA, cityB);
    if |roads'| == |roads| + 1 {
      var r := roads'[|roads|];
      assert roads' == roads + [r];
      assert roads'[|roads|..] == [r];
      AppendKeepsBatch(roads, r);
      assert KeysOf(roads'[|roads|..]) == {Key(r)} by {
        assert roads'[|roads|..] == [r];
        assert Key([r][0]) == Key(r);
      }
      forall k | 0 <= k < |roads'|
        ensures LinkedOn(sorted, roads'[k], continentId)
      {
        if k == |roads| {
          assert JoinsAt(sorted, roads'[k], i, j);
        } else {
          assert roads'[k] == roads[k];
        }
      }
    } else {
      assert roads' == roads;
      assert roads'[|roads|..] == [];
    }
  }

  /** The two neighbours of a non-degenerate triangle are later cities of
      the sorted list on the continent, and the three corners differ. */
  lemma TriangleCorners(sorted: seq<City>, i: nat, continentId: int, near: seq<City>) returns (b: nat, c: nat)
    requires i < |sorted| && |near| == 2
    requires forall m :: 0 <= m < 2 ==> near[m] in sorted[i + 1..] && near[m].continentId == continentId
    requires Cross(Anchor(sorted[i]), Anchor(near[0]), Anchor(near[1])) != 0
    ensures i < b < |sorted| && sorted[b] == near[0]
    ensures i < c < |sorted| && sorted[c] == near[1]
    ensures sorted[i] != near[0] && near[0] != near[1] && near[1] != sorted[i]
    ensures near[0].continentId == continentId && near[1].continentId == continentId
  {
    NonDegenerateCorners(Anchor(sorted[i]), Anchor(near[0]), Anchor(near[1]));
    var m :| 0 <= m < |sorted[i + 1..]| && sorted[i + 1..][m] == near[0];
    b := i + 1 + m;
    assert sorted[b] == sorted[i + 1..][m];
    var n :| 0 <= n < |sorted[i + 1..]| && sorted[i + 1..][n] == near[1];
    c := i + 1 + n;
    assert sorted[c] == sorted[i + 1..][n];
  }

  /** One pass of the triangulation loop at city i of the sorted list. */
  method TriangleStep(current: seq<City>, sorted: seq<City>, i: nat, continentId: int,
                      roads: seq<Road>, processed: set<(int, int)>, allRoads: seq<Road>, ghost base: seq<Road>)
    returns (roads': seq<Road>, processed': set<(int, int)>, allRoads': seq<Road>)
    requires i < |sorted|
    requires TriangulationState(sorted, continentId, roads, processed)
    requires allRoads == base + roads
    ensures TriangulationState(sorted, continentId, roads', processed')
    ensures allRoads' == base + roads'
  {
    roads', processed', allRoads' := roads, processed, allRoads;
    var city := sorted[i];
    var nearestCities := NearestTwo(sorted, i, continentId);
    if |nearestCities| == 2 {
      var cityB, cityC := nearestCities[0], nearestCities[1];
      if IsValidTriangle(city, cityB, cityC, current) {
        ghost var b, c := TriangleCorners(sorted, i, continentId, nearestCities);
        roads', processed', allRoads' := AddTriangle(sorted, continentId, roads', processed', allRoads', base, city, cityB, cityC, i, b, c);
      }
    }
  }

  /** The three sides of an accepted triangle, each through `addRoadIfValid`. */
  method AddTriangle(sorted: seq<City>, continentId: int, roads: seq<Road>, processed: set<(int, int)>,
                     allRoads: seq<Road>, ghost base: seq<Road>, city: City, cityB: City, cityC: City,
                     ghost i: nat, ghost b: nat, ghost c: nat)
    returns (roads': seq<Road>, processed': set<(int, int)>, allRoads': seq<Road>)
    requires i < |sorted| && b < |sorted| && c < |sorted|
    requires sorted[i] == city && sorted[b] == cityB && sorted[c] == cityC
    requires city != cityB && cityB != cityC && cityC != city
    requires cityB.continentId == continentId && cityC.continentId == continentId
    requires TriangulationState(sorted, continentId, roads, processed)
    requires allRoads == base + roads
    ensures TriangulationState(sorted, continentId, roads', processed')
    ensures allRoads' == base + roads'
  {
    roads', processed', allRoads' := AddTriangleSide(sorted, continentId, roads, processed, allRoads, base, city, cityB, i, b);
    roads', processed', allRoads' := AddTriangleSide(sorted, continentId, roads', processed', allRoads', base, cityB, cityC, b, c);
    roads', processed', allRoads' := AddTriangleSide(sorted, continentId, roads', processed', allRoads', base, cityC, city, c, i);
  }

  /** When every city is on the continent, so is every end of a road that
      joins two of them. */
  lemma EndsOnContinent(cities: seq<City>, sorted: seq<City>, roads: seq<Road>, continentId: int)
    requires multiset(sorted) == multiset(cities)
    requires forall c :: c in cities ==> c.continentId == continentId
    requires forall k :: 0 <= k < |roads| ==> LinkedOn(sorted, roads[k], continentId)
    ensures forall k :: 0 <= k < |roads| ==>
              roads[k].from.continentId == continentId && roads[k].to.continentId == continentId
  {
    forall k | 0 <= k < |roads|
      ensures roads[k].from.continentId == continentId && roads[k].to.continentId == continentId
    {
      var i, j :| JoinsAt(sorted, roads[k], i, j)
                  && (sorted[i].continentId == continentId || sorted[j].continentId == continentId);
      assert sorted[i] in multiset(cities) && sorted[j] in multiset(cities);
    }
  }

  /** `generateDelaunayRoads(cities, continentId)`: sort the list by x in
      place; for every city but the last two take its two nearest later
      neighbours on the continent within MaxTriangleRoadDistance; when they
      form a valid triangle against the current city list, add its three
      sides.  Roads go to `allRoads`; the current batch `roads` is untouched. */
  method GenerateDelaunayRoads(s: Session, cities: seq<City>, continentId: int)
    returns (roads: seq<Road>, sorted: seq<City>, s': Session)
    ensures |cities| < 3 ==> roads == [] && sorted == cities && s' == s
    ensures |sorted| == |cities| && multiset(sorted) == multiset(cities)
    ensures |cities| >= 3 ==> SortedBy(sorted, XKey)
    ensures s'.allRoads == s.allRoads + roads
    ensures s'.rng == s.rng && s'.cities == s.cities && s'.allCitys == s.allCitys && s'.roads == s.roads
    ensures UniqueKeys(roads) && NoCrossings(roads)
    ensures forall k :: 0 <= k < |roads| ==> LinkedOn(sorted, roads[k], continentId)
    ensures (forall c :: c in cities ==> c.continentId == continentId) ==>
              forall k :: 0 <= k < |roads| ==>
                roads[k].from.continentId == continentId && roads[k].to.continentId == continentId
  {
    if |cities| < 3 {
      return [], cities, s;
    }
    roads := [];
    var processed: set<(int, int)> := {};
    var allRoads := s.allRoads;
    sorted := SortBy(cities, XKey);
    var i := 0;
    while i < |sorted| - 2
      invariant 0 <= i <= |sorted| - 2
      invariant TriangulationState(sorted, continentId, roads, processed)
      invariant allRoads == s.allRoads + roads
    {
      roads, processed, allRoads := TriangleStep(s.cities, sorted, i, continentId, roads, processed, allRoads, s.allRoads);
      i := i + 1;
    }
    s' := s.(allRoads := allRoads);
    if forall c :: c in cities ==> c.continentId == continentId {
      EndsOnContinent(cities, sorted, roads, continentId);
    }
  }
}
