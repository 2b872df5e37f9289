/** Land-mass detection: `identifyContinents` and its 4-neighbour
    `floodFill`.  A continent is a set of tiles (`floodFill` keys them by the
    string "x,y"). */
module Continents {
  import opened Geometry
  import opened Entities
  import opened Placement

  /** An in-bounds land tile: what `floodFill` accepts. */
  predicate IsLandCell(cfg: Config, land: (int, int) -> bool, p: Point) {
    IsInBounds(cfg, p.x, p.y) && land(p.x, p.y)
  }

  /** All in-bounds land tiles. */
  function LandCells(cfg: Config, land: (int, int) -> bool): (cells: set<Point>)
    ensures forall p :: p in cells <==> IsLandCell(cfg, land, p)
  {
    set x, y | 0 <= x < cfg.mapWidth && 0 <= y < cfg.mapHeight && land(x, y) :: Point(x, y)
  }

  /** The four directions, in the order `floodFill` recurses into them. */
  datatype Dir = East | West | South | North

  function Nbr(p: Point, d: Dir): Point {
    match d
    case East => Point(p.x + 1, p.y)
    case West => Point(p.x - 1, p.y)
    case South => Point(p.x, p.y + 1)
    case North => Point(p.x, p.y - 1)
  }

  function Opposite(d: Dir): Dir {
    match d
    case East => West
    case West => East
    case South => North
    case North => South
  }

  function Neighbours(p: Point): (ns: seq<Point>)
    ensures forall d :: Nbr(p, d) in ns
    ensures forall k :: 0 <= k < |ns| ==> exists d :: ns[k] == Nbr(p, d)
  {
    [Nbr(p, East), Nbr(p, West), Nbr(p, South), Nbr(p, North)]
  }

  /** 4-neighbourhood. */
  predicate Adjacent(p: Point, q: Point) {
    Abs(p.x - q.x) + Abs(p.y - q.y) == 1
  }

  /** The 4-neighbours of a tile are exactly its four neighbours. */
  lemma AdjacentIffNbr(p: Point, q: Point)
    ensures Adjacent(p, q) <==> exists d :: Nbr(p, d) == q
  {
    if Adjacent(p, q) {
      if q.x == p.x + 1 {
        assert Nbr(p, East) == q;
      } else if q.x == p.x - 1 {
        assert Nbr(p, West) == q;
      } else if q.y == p.y + 1 {
        assert Nbr(p, South) == q;
      } else {
        assert Nbr(p, North) == q;
      }
    }
  }

  lemma NbrBack(p: Point, d: Dir)
    ensures Nbr(Nbr(p, d), Opposite(d)) == p
  {
  }

  /** A walk through tiles of c, each step to a 4-neighbour. */
  ghost predicate WalkIn(w: seq<Point>, c: set<Point>) {
    && |w| > 0
    && (forall i :: 0 <= i < |w| ==> w[i] in c)
    && (forall i :: 0 <= i < |w| - 1 ==> Adjacent(w[i], w[i + 1]))
  }

  /** Every tile of c is reachable inside c from `root`. */
  ghost predicate Rooted(root: Point, c: set<Point>) {
    forall p :: p in c ==> exists w :: WalkIn(w, c) && w[0] == root && w[|w| - 1] == p
  }

  /** Any two tiles of c are joined by a walk inside c. */
  ghost predicate Connected(c: set<Point>) {
    forall p, q :: p in c && q in c ==> exists w :: WalkIn(w, c) && w[0] == p && w[|w| - 1] == q
  }

  /** No in-bounds land tile 4-adjacent to c lies outside c. */
  ghost predicate Closed(cfg: Config, land: (int, int) -> bool, c: set<Point>) {
    forall p, d :: p in c && IsLandCell(cfg, land, Nbr(p, d)) ==> Nbr(p, d) in c
  }

  /** No in-bounds land tile 4-adjacent to c lies outside both c and
      `visited`. */
  ghost predicate ClosedBeside(cfg: Config, land: (int, int) -> bool, c: set<Point>, visited: set<Point>) {
    forall p, d :: p in c && IsLandCell(cfg, land, Nbr(p, d)) ==> Nbr(p, d) in c || Nbr(p, d) in visited
  }

  function Reverse(w: seq<Point>): (r: seq<Point>)
    ensures |r| == |w| && forall i :: 0 <= i < |w| ==> r[i] == w[|w| - 1 - i]
  {
    if w == [] then [] else Reverse(w[1..]) + [w[0]]
  }

  /** Two walks from a common root give a walk between their ends. */
  lemma JoinWalks(a: seq<Point>, b: seq<Point>, c: set<Point>)
    requires WalkIn(a, c) && WalkIn(b, c) && a[0] == b[0]
    ensures WalkIn(Reverse(a) + b[1..], c)
    ensures (Reverse(a) + b[1..])[0] == a[|a| - 1]
    ensures (Reverse(a) + b[1..])[|a| + |b| - 2] == b[|b| - 1]
  {
    ReverseWalk(a, c);
    ChainWalks(Reverse(a), b, c);
  }

  /** A walk read backwards is a walk. */
  lemma ReverseWalk(a: seq<Point>, c: set<Point>)
    requires WalkIn(a, c)
    ensures WalkIn(Reverse(a), c)
  {
    var r := Reverse(a);
    forall i | 0 <= i < |r| - 1
      ensures Adjacent(r[i], r[i + 1])
    {
      var j := |a| - 2 - i;
      assert r[i] == a[j + 1] && r[i + 1] == a[j];
      AdjacentSymmetric(a[j], a[j + 1]);
    }
  }

  /** A walk followed by a walk from its end is a walk. */
  lemma ChainWalks(a: seq<Point>, b: seq<Point>, c: set<Point>)
    requires WalkIn(a, c) && WalkIn(b, c) && a[|a| - 1] == b[0]
    ensures WalkIn(a + b[1..], c)
  {
    var w := a + b[1..];
    forall i | 0 <= i < |w| - 1
      ensures Adjacent(w[i], w[i + 1])
    {
      if i + 1 < |a| {
        assert w[i] == a[i] && w[i + 1] == a[i + 1];
      } else {
        assert w[i] == b[i - |a| + 1] && w[i + 1] == b[i - |a| + 2];
      }
    }
  }

  lemma AdjacentSymmetric(p: Point, q: Point)
    requires Adjacent(p, q)
    ensures Adjacent(q, p)
  {
  }

  lemma RootedIsConnected(root: Point, c: set<Point>)
    requires Rooted(root, c)
    ensures Connected(c)
  {
    forall p, q | p in c && q in c
      ensures exists w :: WalkIn(w, c) && w[0] == p && w[|w| - 1] == q
    {
      var a :| WalkIn(a, c) && a[0] == root && a[|a| - 1] == p;
      var b :| WalkIn(b, c) && b[0] == root && b[|b| - 1] == q;
      JoinWalks(a, b, c);
    }
  }

  /** A walk stays a walk in a larger tile set. */
  lemma WalkGrows(w: seq<Point>, c: set<Point>, c': set<Point>)
    requires WalkIn(w, c) && c <= c'
    ensures WalkIn(w, c')
  {
  }

  /** An in-bounds land tile no earlier fill has claimed. */
  predicate Free(cfg: Config, land: (int, int) -> bool, visited: set<Point>, p: Point) {
    IsLandCell(cfg, land, p) && p !in visited
  }

  /** Every pending tile is the start or a neighbour of a collected tile. */
  ghost predicate StackFromContinent(start: Point, continent: set<Point>, stack: seq<Point>) {
    forall k :: 0 <= k < |stack| ==> stack[k] == start || exists p, d :: p in continent && Nbr(p, d) == stack[k]
  }

  /** Every free neighbour of a collected tile is collected or pending. */
  ghost predicate Frontier(cfg: Config, land: (int, int) -> bool, visited: set<Point>,
                           continent: set<Point>, stack: seq<Point>) {
    forall p, d :: p in continent && Free(cfg, land, visited, Nbr(p, d)) ==> Nbr(p, d) in continent || Nbr(p, d) in stack
  }

  /** Every collected tile has a recorded walk from the start inside the
      continent. */
  ghost predicate Walks(start: Point, continent: set<Point>, paths: map<Point, seq<Point>>) {
    forall p :: p in continent ==>
      p in paths && WalkIn(paths[p], continent) && paths[p][0] == start && paths[p][|paths[p]| - 1] == p
  }

  /** The bookkeeping of the flood fill. */
  ghost predicate FillState(cfg: Config, land: (int, int) -> bool, start: Point, visited: set<Point>,
                            continent: set<Point>, stack: seq<Point>, paths: map<Point, seq<Point>>) {
    && (forall p :: p in continent ==> Free(cfg, land, visited, p))
    && (continent == {} ==> stack == [start] || (stack == [] && !Free(cfg, land, visited, start)))
    && (continent != {} ==> start in continent)
    && StackFromContinent(start, continent, stack)
    && Frontier(cfg, land, visited, continent, stack)
    && Walks(start, continent, paths)
  }

  /** Popping a tile that is not free, or already collected. */
  lemma PopSkip(cfg: Config, land: (int, int) -> bool, start: Point, visited: set<Point>,
                continent: set<Point>, stack: seq<Point>, paths: map<Point, seq<Point>>)
    requires FillState(cfg, land, start, visited, continent, stack, paths)
    requires stack != [] && (!Free(cfg, land, visited, stack[|stack| - 1]) || stack[|stack| - 1] in continent)
    ensures FillState(cfg, land, start, visited, continent, stack[..|stack| - 1], paths)
  {
    var rest := stack[..|stack| - 1];
    forall p, d | p in continent && Free(cfg, land, visited, Nbr(p, d))
      ensures Nbr(p, d) in continent || Nbr(p, d) in rest
    {
      if Nbr(p, d) !in continent {
        var k :| 0 <= k < |stack| && stack[k] == Nbr(p, d);
        assert k < |rest| && rest[k] == stack[k];
      }
    }
  }

  lemma CollectKeepsStack(start: Point, continent: set<Point>, stack: seq<Point>)
    requires StackFromContinent(start, continent, stack) && stack != []
    ensures var q := stack[|stack| - 1];
            StackFromContinent(start, continent + {q}, stack[..|stack| - 1] + Neighbours(q))
  {
    var q := stack[|stack| - 1];
    var rest := stack[..|stack| - 1];
    var stack' := rest + Neighbours(q);
    forall j | 0 <= j < |stack'|
      ensures stack'[j] == start || exists p, d :: p in continent + {q} && Nbr(p, d) == stack'[j]
    {
      if j < |rest| {
        assert stack'[j] == stack[j];
      } else {
        assert stack'[j] == Neighbours(q)[j - |rest|];
      }
    }
  }

  lemma CollectKeepsFrontier(cfg: Config, land: (int, int) -> bool, visited: set<Point>,
                             continent: set<Point>, stack: seq<Point>)
    requires Frontier(cfg, land, visited, continent, stack) && stack != []
    ensures var q := stack[|stack| - 1];
            Frontier(cfg, land, visited, continent + {q}, stack[..|stack| - 1] + Neighbours(q))
  {
    var q := stack[|stack| - 1];
    var rest := stack[..|stack| - 1];
    var stack' := rest + Neighbours(q);
    forall p, d | p in continent + {q} && Free(cfg, land, visited, Nbr(p, d))
      ensures Nbr(p, d) in continent + {q} || Nbr(p, d) in stack'
    {
      if p != q && Nbr(p, d) !in continent + {q} {
        var j :| 0 <= j < |stack| && stack[j] == Nbr(p, d);
        assert j < |rest| && stack'[j] == stack[j];
      }
    }
  }

  /** A walk extended by one step to a neighbour is a walk in the grown
      set. */
  lemma ExtendWalk(w: seq<Point>, c: set<Point>, q: Point)
    requires WalkIn(w, c) && Adjacent(w[|w| - 1], q)
    ensures WalkIn(w + [q], c + {q})
  {
    var path := w + [q];
    WalkGrows(w, c, c + {q});
    forall i | 0 <= i < |path| - 1
      ensures Adjacent(path[i], path[i + 1])
    {
      if i < |w| - 1 {
        assert path[i] == w[i] && path[i + 1] == w[i + 1];
      }
    }
  }

  /** Recording a walk for a newly collected tile keeps every walk. */
  lemma WalksWiden(start: Point, continent: set<Point>, paths: map<Point, seq<Point>>, q: Point, path: seq<Point>)
    requires Walks(start, continent, paths)
    requires WalkIn(path, continent + {q}) && path[0] == start && path[|path| - 1] == q
    ensures Walks(start, continent + {q}, paths[q := path])
  {
    var c' := continent + {q};
    var paths' := paths[q := path];
    forall p | p in c'
      ensures p in paths' && WalkIn(paths'[p], c') && paths'[p][0] == start && paths'[p][|paths'[p]| - 1] == p
    {
      if p != q {
        WalkGrows(paths[p], continent, c');
      }
    }
  }

  lemma CollectKeepsWalks(start: Point, continent: set<Point>, paths: map<Point, seq<Point>>, q: Point)
    returns (path: seq<Point>)
    requires Walks(start, continent, paths)
    requires continent == {} ==> q == start
    requires continent != {} ==> exists p, d :: p in continent && Nbr(p, d) == q
    ensures Walks(start, continent + {q}, paths[q := path])
  {
    if continent == {} {
      path := [q];
    } else {
      var p, d :| p in continent && Nbr(p, d) == q;
      var w := paths[p];
      AdjacentIffNbr(p, q);
      ExtendWalk(w, continent, q);
      path := w + [q];
    }
    WalksWiden(start, continent, paths, q, path);
  }

  /** Popping a free tile: collect it and push its neighbours. */
  lemma PopCollect(cfg: Config, land: (int, int) -> bool, start: Point, visited: set<Point>,
                   continent: set<Point>, stack: seq<Point>, paths: map<Point, seq<Point>>)
    returns (path: seq<Point>)
    requires FillState(cfg, land, start, visited, continent, stack, paths)
    requires stack != [] && Free(cfg, land, visited, stack[|stack| - 1]) && stack[|stack| - 1] !in continent
    ensures var q := stack[|stack| - 1];
            FillState(cfg, land, start, visited, continent + {q}, stack[..|stack| - 1] + Neighbours(q), paths[q := path])
  {
    var q := stack[|stack| - 1];
    CollectKeepsStack(start, continent, stack);
    CollectKeepsFrontier(cfg, land, visited, continent, stack);
    assert continent != {} ==> q != start;
    path := CollectKeepsWalks(start, continent, paths, q);
  }

  /** Collecting a free tile shrinks the unclaimed remainder. */
  lemma CollectShrinks(unclaimed: set<Point>, continent: set<Point>, q: Point)
    requires q in unclaimed && q !in continent
    ensures |unclaimed - (continent + {q})| < |unclaimed - continent|
  {
    assert unclaimed - (continent + {q}) == (unclaimed - continent) - {q};
  }

  /** One pop of the pending stack of the flood fill. */
  method FillStep(cfg: Config, land: (int, int) -> bool, start: Point, visited: set<Point>,
                  continent: set<Point>, stack: seq<Point>, ghost paths: map<Point, seq<Point>>, ghost unclaimed: set<Point>)
    returns (continent': set<Point>, stack': seq<Point>, ghost paths': map<Point, seq<Point>>)
    requires stack != []
    requires FillState(cfg, land, start, visited, continent, stack, paths)
    requires unclaimed == LandCells(cfg, land) - visited && continent <= unclaimed
    ensures FillState(cfg, land, start, visited, continent', stack', paths')
    ensures continent' <= unclaimed
    ensures |unclaimed - continent'| < |unclaimed - continent|
            || (continent' == continent && |stack'| < |stack|)
  {
    var q := stack[|stack| - 1];
    if IsInBounds(cfg, q.x, q.y) && q !in visited && land(q.x, q.y) && q !in continent {
      ghost var path := PopCollect(cfg, land, start, visited, continent, stack, paths);
      CollectShrinks(unclaimed, continent, q);
      continent' := continent + {q};
      paths' := paths[q := path];
      stack' := stack[..|stack| - 1] + Neighbours(q);
    } else {
      PopSkip(cfg, land, start, visited, continent, stack, paths);
      continent', stack', paths' := continent, stack[..|stack| - 1], paths;
    }
  }

  /** `floodFill(x, y, visited, continent)` from tile `start`: collect every
      in-bounds land tile reachable through unvisited land, marking it
      visited.  The recursion is modelled by an explicit stack of pending
      tiles; it reaches the same set. */
  method FloodFill(cfg: Config, land: (int, int) -> bool, start: Point, visited: set<Point>)
    returns (continent: set<Point>, visited': set<Point>)
    ensures visited' == visited + continent
    ensures forall p :: p in continent ==> Free(cfg, land, visited, p)
    ensures start in continent <==> Free(cfg, land, visited, start)
    ensures start !in continent ==> continent == {}
    ensures ClosedBeside(cfg, land, continent, visited)
    ensures Rooted(start, continent)
  {
    continent := {};
    var stack := [start];
    ghost var paths: map<Point, seq<Point>> := map[];
    ghost var unclaimed := LandCells(cfg, land) - visited;
    while stack != []
      invariant FillState(cfg, land, start, visited, continent, stack, paths)
      invariant continent <= unclaimed
      decreases |unclaimed - continent|, |stack|
    {
      continent, stack, paths := FillStep(cfg, land, start, visited, continent, stack, paths, unclaimed);
    }
    visited' := visited + continent;
    FillDone(cfg, land, start, visited, continent, paths);
  }

  /** With nothing pending, the collected tiles are closed beside the
      earlier fills and reachable from the start. */
  lemma FillDone(cfg: Config, land: (int, int) -> bool, start: Point, visited: set<Point>,
                 continent: set<Point>, paths: map<Point, seq<Point>>)
    requires FillState(cfg, land, start, visited, continent, [], paths)
    ensures start in continent <==> Free(cfg, land, visited, start)
    ensures ClosedBeside(cfg, land, continent, visited)
    ensures Rooted(start, continent)
  {
    forall p, d | p in continent && IsLandCell(cfg, land, Nbr(p, d))
      ensures Nbr(p, d) in continent || Nbr(p, d) in visited
    {
      assert Frontier(cfg, land, visited, continent, []);
    }
    forall p | p in continent
      ensures exists w :: WalkIn(w, continent) && w[0] == start && w[|w| - 1] == p
    {
      assert WalkIn(paths[p], continent);
    }
  }

  /** The union of a list of tile sets. */
  function Union(cs: seq<set<Point>>): (u: set<Point>)
    ensures forall p :: p in u <==> exists k :: 0 <= k < |cs| && p in cs[k]
  {
    if cs == [] then {}
    else
      var rest := Union(cs[..|cs| - 1]);
      assert forall k :: 0 <= k < |cs| - 1 ==> cs[..|cs| - 1][k] == cs[k];
      rest + cs[|cs| - 1]
  }

  /** What `identifyContinents` promises of its result: non-empty, pairwise
      disjoint, 4-closed and 4-connected sets of land tiles. */
  ghost predicate Partition(cfg: Config, land: (int, int) -> bool, cs: seq<set<Point>>) {
    && (forall k :: 0 <= k < |cs| ==> cs[k] != {})
    && (forall k, p :: 0 <= k < |cs| && p in cs[k] ==> IsLandCell(cfg, land, p))
    && (forall k :: 0 <= k < |cs| ==> Closed(cfg, land, cs[k]) && Connected(cs[k]))
    && (forall i, j :: 0 <= i < j < |cs| ==> cs[i] * cs[j] == {})
  }

  /** A tile set that is closed beside the union of closed sets it avoids is
      closed on its own. */
  lemma ClosedBesideClosed(cfg: Config, land: (int, int) -> bool, cs: seq<set<Point>>, c: set<Point>)
    requires forall k :: 0 <= k < |cs| ==> Closed(cfg, land, cs[k])
    requires forall p :: p in c ==> Free(cfg, land, Union(cs), p)
    requires ClosedBeside(cfg, land, c, Union(cs))
    ensures Closed(cfg, land, c)
  {
    forall p, d | p in c && IsLandCell(cfg, land, Nbr(p, d))
      ensures Nbr(p, d) in c
    {
      var q := Nbr(p, d);
      if q !in c {
        NbrBack(p, d);
        assert false;
      }
    }
  }

  /** Every land tile before (x, y) in row-major order is covered. */
  ghost predicate ScannedUpTo(cfg: Config, land: (int, int) -> bool, visited: set<Point>, x: int, y: int) {
    forall p :: IsLandCell(cfg, land, p) && (p.y < y || (p.y == y && p.x < x)) ==> p in visited
  }

  /** Adding a new closed, connected fill that avoids the earlier ones
      keeps the partition. */
  lemma AppendContinent(cfg: Config, land: (int, int) -> bool, cs: seq<set<Point>>, c: set<Point>)
    requires Partition(cfg, land, cs)
    requires c != {} && forall p :: p in c ==> Free(cfg, land, Union(cs), p)
    requires Closed(cfg, land, c) && Connected(c)
    ensures Partition(cfg, land, cs + [c])
    ensures Union(cs + [c]) == Union(cs) + c
  {
    AppendDisjoint(cs, c);
    AppendKeepsShape(cfg, land, cs, c);
    UnionAppend(cs, c);
  }

  lemma UnionAppend(cs: seq<set<Point>>, c: set<Point>)
    ensures Union(cs + [c]) == Union(cs) + c
  {
    assert (cs + [c])[..|cs|] == cs;
  }

  lemma AppendDisjoint(cs: seq<set<Point>>, c: set<Point>)
    requires forall i, j :: 0 <= i < j < |cs| ==> cs[i] * cs[j] == {}
    requires forall p :: p in Union(cs) ==> p !in c
    ensures forall i, j :: 0 <= i < j < |cs + [c]| ==> (cs + [c])[i] * (cs + [c])[j] == {}
  {
    var cs' := cs + [c];
    forall i, j | 0 <= i < j < |cs'|
      ensures cs'[i] * cs'[j] == {}
    {
      if j == |cs| {
        assert cs'[i] == cs[i];
        forall p | p in cs[i]
          ensures p !in c
        {
          assert p in Union(cs);
        }
      } else {
        assert cs'[i] == cs[i] && cs'[j] == cs[j];
      }
    }
  }

  lemma AppendKeepsShape(cfg: Config, land: (int, int) -> bool, cs: seq<set<Point>>, c: set<Point>)
    requires forall k :: 0 <= k < |cs| ==> cs[k] != {}
    requires forall k, p :: 0 <= k < |cs| && p in cs[k] ==> IsLandCell(cfg, land, p)
    requires forall k :: 0 <= k < |cs| ==> Closed(cfg, land, cs[k]) && Connected(cs[k])
    requires c != {} && forall p :: p in c ==> IsLandCell(cfg, land, p)
    requires Closed(cfg, land, c) && Connected(c)
    ensures forall k :: 0 <= k < |cs + [c]| ==> (cs + [c])[k] != {}
    ensures forall k, p :: 0 <= k < |cs + [c]| && p in (cs + [c])[k] ==> IsLandCell(cfg, land, p)
    ensures forall k :: 0 <= k < |cs + [c]| ==> Closed(cfg, land, (cs + [c])[k]) && Connected((cs + [c])[k])
  {
    var cs' := cs + [c];
    assert forall k :: 0 <= k < |cs| ==> cs'[k] == cs[k];
  }

  /** p comes before q in the scan order: rows top to bottom, tiles left to
      right. */
  predicate RowMajorBefore(p: Point, q: Point) {
    p.y < q.y || (p.y == q.y && p.x < q.x)
  }

  /** p is the first tile of c in scan order. */
  ghost predicate LeastTile(c: set<Point>, p: Point) {
    p in c && forall q :: q in c && q != p ==> RowMajorBefore(p, q)
  }

  /** The first tile of c1 comes before every tile of c2, so c1's first
      tile precedes c2's in scan order. */
  ghost predicate FirstBefore(c1: set<Point>, c2: set<Point>) {
    exists p :: LeastTile(c1, p) && forall q :: q in c2 ==> RowMajorBefore(p, q)
  }

  /** starts[k] is the first tile of continent k, and the first tiles come
      in scan order. */
  ghost predicate StartsInOrder(cs: seq<set<Point>>, starts: seq<Point>) {
    && |starts| == |cs|
    && (forall k :: 0 <= k < |cs| ==> LeastTile(cs[k], starts[k]))
    && (forall i, j :: 0 <= i < j < |starts| ==> RowMajorBefore(starts[i], starts[j]))
  }

  /** The first tiles of the continents found so far, in scan order, all
      before the scan position. */
  ghost predicate Discovered(cs: seq<set<Point>>, starts: seq<Point>, pos: Point) {
    StartsInOrder(cs, starts) && forall k :: 0 <= k < |starts| ==> RowMajorBefore(starts[k], pos)
  }

  /** One tile of the scan of `identifyContinents`: start a new continent at
      (x, y) when it is unvisited land. */
  method ScanTile(cfg: Config, land: (int, int) -> bool, continents: seq<set<Point>>, visited: set<Point>, x: int, y: int)
    returns (continents': seq<set<Point>>, visited': set<Point>)
    requires Partition(cfg, land, continents) && visited == Union(continents)
    requires ScannedUpTo(cfg, land, visited, x, y)
    ensures Partition(cfg, land, continents') && visited' == Union(continents')
    ensures ScannedUpTo(cfg, land, visited', x + 1, y)
    ensures continents <= continents' && |continents'| <= |continents| + 1
    ensures |continents'| == |continents| + 1 ==>
              && Point(x, y) in continents'[|continents|]
              && forall p :: p in continents'[|continents|] ==> Free(cfg, land, visited, p)
  {
    continents', visited' := continents, visited;
    var start := Point(x, y);
    if start !in visited && land(x, y) {
      var continent;
      continent, visited' := FloodFill(cfg, land, start, visited);
      if continent != {} {
        ClosedBesideClosed(cfg, land, continents, continent);
        RootedIsConnected(start, continent);
        AppendContinent(cfg, land, continents, continent);
        continents' := continents + [continent];
      }
    }
  }

  /** The first tiles after one scan step: the scan position when the step
      found a continent. */
  ghost function NextStarts(cs: seq<set<Point>>, cs': seq<set<Point>>, starts: seq<Point>, x: int, y: int): seq<Point> {
    if |cs'| == |cs| + 1 then starts + [Point(x, y)] else starts
  }

  /** A continent found at the scan position (x, y) has (x, y) as its first
      tile, since every land tile before it was already covered. */
  lemma DiscoveryStep(cfg: Config, land: (int, int) -> bool, cs: seq<set<Point>>, cs': seq<set<Point>>,
                      starts: seq<Point>, x: int, y: int)
    requires cs <= cs' && |cs'| <= |cs| + 1
    requires |cs'| == |cs| + 1 ==>
               && Point(x, y) in cs'[|cs|]
               && forall p :: p in cs'[|cs|] ==> Free(cfg, land, Union(cs), p)
    requires ScannedUpTo(cfg, land, Union(cs), x, y)
    requires Discovered(cs, starts, Point(x, y))
    ensures Discovered(cs', NextStarts(cs, cs', starts, x, y), Point(x + 1, y))
  {
    PrefixAndLast(cs, cs');
    if |cs'| == |cs| + 1 {
      var c := cs'[|cs|];
      NewStartIsLeast(cfg, land, cs, c, x, y);
      AppendStart(cs, c, starts, Point(x, y));
    } else {
      NextTile(cs, starts, Point(x, y));
    }
  }

  lemma PrefixAndLast<T>(xs: seq<T>, ys: seq<T>)
    requires xs <= ys && |ys| <= |xs| + 1
    ensures |ys| == |xs| + 1 ==> ys == xs + [ys[|xs|]]
    ensures |ys| == |xs| ==> ys == xs
  {
    if |ys| == |xs| + 1 {
      assert ys == ys[..|xs|] + [ys[|xs|]];
    }
  }

  /** Moving the scan one tile on keeps every first tile behind it. */
  lemma NextTile(cs: seq<set<Point>>, starts: seq<Point>, pos: Point)
    requires Discovered(cs, starts, pos)
    ensures Discovered(cs, starts, Point(pos.x + 1, pos.y))
  {
  }

  /** Every tile of a fresh fill started at (x, y) lies at or after (x, y)
      in scan order, since the land before it was already covered. */
  lemma NewStartIsLeast(cfg: Config, land: (int, int) -> bool, cs: seq<set<Point>>, c: set<Point>, x: int, y: int)
    requires Point(x, y) in c && forall p :: p in c ==> Free(cfg, land, Union(cs), p)
    requires ScannedUpTo(cfg, land, Union(cs), x, y)
    ensures LeastTile(c, Point(x, y))
  {
    forall q | q in c && q != Point(x, y)
      ensures RowMajorBefore(Point(x, y), q)
    {
      assert Free(cfg, land, Union(cs), q);
    }
  }

  /** A continent whose first tile is the scan position joins the
      discovered ones, and the scan moves one tile on. */
  lemma AppendStart(cs: seq<set<Point>>, c: set<Point>, starts: seq<Point>, start: Point)
    requires Discovered(cs, starts, start) && LeastTile(c, start)
    ensures Discovered(cs + [c], starts + [start], Point(start.x + 1, start.y))
  {
    var cs', starts' := cs + [c], starts + [start];
    forall k | 0 <= k < |cs'|
      ensures LeastTile(cs'[k], starts'[k])
    {
      if k < |cs| {
        assert cs'[k] == cs[k] && starts'[k] == starts[k];
      }
    }
    assert forall i :: 0 <= i < |starts| ==> starts'[i] == starts[i];
  }

  /** `identifyContinents()`: scan rows top to bottom, tiles left to right,
      and flood-fill from every unvisited land tile; continents come out in
      order of discovery. */
  method IdentifyContinents(cfg: Config, land: (int, int) -> bool) returns (continents: seq<set<Point>>)
    ensures Partition(cfg, land, continents)
    ensures Union(continents) == LandCells(cfg, land)
    ensures forall i, j :: 0 <= i < j < |continents| ==> FirstBefore(continents[i], continents[j])
  {
    continents := [];
    var visited: set<Point> := {};
    ghost var starts: seq<Point> := [];
    var y := 0;
    while y < cfg.mapHeight
      invariant Partition(cfg, land, continents) && visited == Union(continents)
      invariant ScannedUpTo(cfg, land, visited, 0, Max(y, 0))
      invariant y <= 0 || y <= cfg.mapHeight
      invariant Discovered(continents, starts, Point(0, Max(y, 0)))
    {
      var x := 0;
      while x < cfg.mapWidth
        invariant Partition(cfg, land, continents) && visited == Union(continents)
        invariant ScannedUpTo(cfg, land, visited, Max(x, 0), y)
        invariant 0 <= y
        invariant x <= 0 || x <= cfg.mapWidth
        invariant Discovered(continents, starts, Point(Max(x, 0), y))
      {
        var found;
        found, visited := ScanTile(cfg, land, continents, visited, x, y);
        DiscoveryStep(cfg, land, continents, found, starts, x, y);
        starts := NextStarts(continents, found, starts, x, y);
        continents := found;
        x := x + 1;
      }
      NextRow(continents, starts, Max(x, 0), y);
      y := y + 1;
    }
    assert LandCells(cfg, land) <= visited;
    DiscoveredOrder(continents, starts, Point(0, Max(y, 0)));
  }

  /** Moving the scan to the start of the next row keeps every first tile
      found so far behind it. */
  lemma NextRow(cs: seq<set<Point>>, starts: seq<Point>, x: int, y: int)
    requires Discovered(cs, starts, Point(x, y))
    ensures Discovered(cs, starts, Point(0, y + 1))
  {
  }

  /** Continents in the order of their first tiles: the first tile of an
      earlier continent comes before every tile of a later one. */
  lemma DiscoveredOrder(cs: seq<set<Point>>, starts: seq<Point>, pos: Point)
    requires Discovered(cs, starts, pos)
    ensures forall i, j :: 0 <= i < j < |cs| ==> FirstBefore(cs[i], cs[j])
  {
    forall i, j | 0 <= i < j < |cs|
      ensures FirstBefore(cs[i], cs[j])
    {
      assert LeastTile(cs[i], starts[i]) && LeastTile(cs[j], starts[j]);
      assert RowMajorBefore(starts[i], starts[j]);
      forall q | q in cs[j]
        ensures RowMajorBefore(starts[i], q)
      {
        if q != starts[j] {
          assert RowMajorBefore(starts[j], q);
        }
      }
      assert LeastTile(cs[i], starts[i]) && forall q :: q in cs[j] ==> RowMajorBefore(starts[i], q);
    }
  }

  /** After `identifyContinents`, every land tile lies in exactly one
      continent. */
  lemma OneContinentPerTile(cfg: Config, land: (int, int) -> bool, cs: seq<set<Point>>, p: Point)
    requires Partition(cfg, land, cs) && Union(cs) == LandCells(cfg, land)
    requires IsLandCell(cfg, land, p)
    ensures exists k :: 0 <= k < |cs| && p in cs[k]
    ensures forall i, j :: 0 <= i < j < |cs| ==> p !in cs[i] || p !in cs[j]
  {
    CoveredTile(cfg, land, cs, p);
    DisjointTile(cs, p);
  }

  lemma CoveredTile(cfg: Config, land: (int, int) -> bool, cs: seq<set<Point>>, p: Point)
    requires Union(cs) == LandCells(cfg, land) && IsLandCell(cfg, land, p)
    ensures exists k :: 0 <= k < |cs| && p in cs[k]
  {
    assert p in LandCells(cfg, land);
  }

  lemma DisjointTile(cs: seq<set<Point>>, p: Point)
    requires forall i, j :: 0 <= i < j < |cs| ==> cs[i] * cs[j] == {}
    ensures forall i, j :: 0 <= i < j < |cs| ==> p !in cs[i] || p !in cs[j]
  {
    forall i, j | 0 <= i < j < |cs| && p in cs[i]
      ensures p !in cs[j]
    {
      assert cs[i] * cs[j] == {};
      assert p !in cs[i] * cs[j];
    }
  }

  /** Two 4-adjacent land tiles lie in the same continent. */
  lemma AdjacentLandShareContinent(cfg: Config, land: (int, int) -> bool, cs: seq<set<Point>>, k: int, p: Point, q: Point)
    requires Partition(cfg, land, cs)
    requires 0 <= k < |cs| && p in cs[k]
    requires IsLandCell(cfg, land, q) && Adjacent(p, q)
    ensures q in cs[k]
  {
    AdjacentIffNbr(p, q);
    var d :| Nbr(p, d) == q;
    assert Closed(cfg, land, cs[k]);
  }
}
