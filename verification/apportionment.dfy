/** `generateCitiesByContinent`: split a city budget over the continents in
    proportion to their land area, largest continent first, and place each
    share with `generateCitiesInArea`. */
module Apportionment {
  import opened Geometry
  import opened Sorting
  import opened Decimal
  import opened StableRandom
  import opened Entities
  import opened Placement
  import opened Continents

  function Sum(xs: seq<int>): int {
    if xs == [] then 0 else xs[0] + Sum(xs[1..])
  }

  /** A continent's proportional share before capping:
      `Math.max(1, Math.floor((area / totalLandArea) * totalCities))`,
      with the quotient taken exactly. */
  function Quota(area: nat, landArea: nat, total: int): (q: int)
    requires landArea > 0
    ensures q >= 1
    ensures area <= landArea && total >= 0 ==> q <= Max(1, total)
  {
    if area <= landArea && total >= 0 then
      FloorShareWithinTotal(area, landArea, total);
      Max(1, (area * total) / landArea)
    else
      Max(1, (area * total) / landArea)
  }

  /** A part of the land never earns more than the whole budget. */
  lemma FloorShareWithinTotal(area: nat, landArea: nat, total: nat)
    requires 0 < landArea && area <= landArea
    ensures (area * total) / landArea <= total
  {
    var q := (area * total) / landArea;
    assert q * landArea <= area * total;
    assert area * total <= total * landArea;
    assert (total + 1) * landArea == total * landArea + landArea;
    MulMonotone(q, total + 1, landArea);
  }

  /** The allocation loop over continent areas in visiting order: each
      visited continent gets its quota capped by what remains, and the loop
      stops once nothing remains. */
  function Allocate(areas: seq<nat>, landArea: nat, total: int, remaining: int): (alloc: seq<int>)
    requires landArea > 0
    ensures |alloc| <= |areas|
    ensures forall k :: 0 <= k < |alloc| ==> 1 <= alloc[k] <= Quota(areas[k], landArea, total)
    ensures Sum(alloc) <= Max(remaining, 0)
    ensures |alloc| < |areas| ==> Sum(alloc) == Max(remaining, 0)
    decreases |areas|
  {
    if areas == [] || remaining <= 0 then []
    else
      var actual := Min(Quota(areas[0], landArea, total), remaining);
      var rest := Allocate(areas[1..], landArea, total, remaining - actual);
      assert forall k :: 1 <= k < |rest| + 1 ==> ([actual] + rest)[k] == rest[k - 1];
      assert ([actual] + rest)[1..] == rest;
      [actual] + rest
  }

  lemma SumAppend(xs: seq<int>, x: int)
    ensures Sum(xs + [x]) == Sum(xs) + x
  {
    if xs != [] {
      assert (xs + [x])[1..] == xs[1..] + [x];
      SumAppend(xs[1..], x);
    }
  }

  lemma SumPrefixStep(xs: seq<int>, i: nat)
    requires i < |xs|
    ensures Sum(xs[..i + 1]) == Sum(xs[..i]) + xs[i]
  {
    assert xs[..i + 1] == xs[..i] + [xs[i]];
    SumAppend(xs[..i], xs[i]);
  }

  lemma PrefixSum(xs: seq<int>, k: int)
    requires 0 < k <= |xs|
    ensures Sum(xs[..k]) == xs[0] + Sum(xs[1..][..k - 1])
  {
    assert xs[..k][1..] == xs[1..][..k - 1];
  }

  /** Each share is its quota capped by the budget the earlier shares left
      over. */
  predicate Greedy(areas: seq<nat>, landArea: nat, total: int, remaining: int, alloc: seq<int>)
    requires landArea > 0 && |alloc| <= |areas|
  {
    forall k :: 0 <= k < |alloc| ==>
      alloc[k] == Min(Quota(areas[k], landArea, total), remaining - Sum(alloc[..k]))
  }

  /** The greedy law for a first share and the rest. */
  lemma GreedyCons(areas: seq<nat>, landArea: nat, total: int, remaining: int, first: int, rest: seq<int>)
    requires landArea > 0 && |rest| < |areas|
    requires first == Min(Quota(areas[0], landArea, total), remaining)
    requires Greedy(areas[1..], landArea, total, remaining - first, rest)
    ensures Greedy(areas, landArea, total, remaining, [first] + rest)
  {
    var alloc := [first] + rest;
    forall k | 0 <= k < |alloc|
      ensures alloc[k] == Min(Quota(areas[k], landArea, total), remaining - Sum(alloc[..k]))
    {
      if k > 0 {
        PrefixSum(alloc, k);
        assert alloc[1..] == rest;
        assert alloc[k] == rest[k - 1] && areas[k] == areas[1..][k - 1];
      }
    }
  }

  /** Each share is its quota capped by the budget the earlier continents
      left over. */
  lemma {:induction false} AllocateIsGreedy(areas: seq<nat>, landArea: nat, total: int, remaining: int)
    requires landArea > 0
    ensures Greedy(areas, landArea, total, remaining, Allocate(areas, landArea, total, remaining))
    decreases |areas|
  {
    if areas != [] && remaining > 0 {
      var first := Min(Quota(areas[0], landArea, total), remaining);
      var rest := Allocate(areas[1..], landArea, total, remaining - first);
      AllocateIsGreedy(areas[1..], landArea, total, remaining - first);
      GreedyCons(areas, landArea, total, remaining, first, rest);
    }
  }

  /** The floor quotients of the areas' proportional shares. */
  function FloorShares(areas: seq<nat>, landArea: nat, total: nat): (shares: seq<int>)
    requires landArea > 0
    ensures |shares| == |areas|
    ensures forall k :: 0 <= k < |areas| ==> shares[k] == (areas[k] * total) / landArea
  {
    seq(|areas|, k requires 0 <= k < |areas| => (areas[k] * total) / landArea)
  }

  function SumNat(xs: seq<nat>): nat {
    if xs == [] then 0 else xs[0] + SumNat(xs[1..])
  }

  /** Floor division is superadditive. */
  lemma FloorAdds(a: nat, b: nat, d: nat)
    requires d > 0
    ensures a / d + b / d <= (a + b) / d
  {
    var m := a / d + b / d;
    var q := (a + b) / d;
    assert (a / d) * d <= a && (b / d) * d <= b;
    assert m * d <= a + b < (q + 1) * d;
    MulMonotone(m, q + 1, d);
  }

  lemma MulMonotone(m: int, n: int, d: nat)
    requires d > 0 && m * d < n * d
    ensures m < n
  {
    assert (m - n) * d == m * d - n * d;
  }

  lemma DivExact(k: nat, d: nat)
    requires d > 0
    ensures (d * k) / d == k
  {
    var q, r := (d * k) / d, (d * k) % d;
    assert d * k == q * d + r;
    assert (k - q) * d == r;
    MulMonotone(k - q, 1, d);
    MulMonotone(-1, k - q, d);
  }

  lemma DivAtLeastOne(n: nat, d: nat)
    requires n >= d > 0
    ensures n / d >= 1
  {
    assert n == (n / d) * d + n % d;
  }

  lemma Distributes(x: nat, y: nat, z: nat)
    ensures (x + y) * z == x * z + y * z
  {
  }

  /** The floor shares never add up to more than the budget. */
  lemma {:induction false} FloorSharesFit(areas: seq<nat>, landArea: nat, total: nat)
    requires landArea > 0
    ensures Sum(FloorShares(areas, landArea, total)) <= (SumNat(areas) * total) / landArea
    decreases |areas|
  {
    if areas != [] {
      var shares := FloorShares(areas, landArea, total);
      assert shares[1..] == FloorShares(areas[1..], landArea, total);
      FloorSharesFit(areas[1..], landArea, total);
      var a, b := areas[0] * total, SumNat(areas[1..]) * total;
      FloorAdds(a, b, landArea);
      Distributes(areas[0], SumNat(areas[1..]), total);
      assert Sum(shares) == a / landArea + Sum(shares[1..]);
    }
  }

  /** When the floor shares are all positive and fit the budget, every
      continent is visited and gets exactly its floor share. */
  lemma {:induction false} SharesWithinBudget(areas: seq<nat>, landArea: nat, total: nat, remaining: int)
    requires landArea > 0
    requires forall k :: 0 <= k < |areas| ==> (areas[k] * total) / landArea >= 1
    requires Sum(FloorShares(areas, landArea, total)) <= remaining
    ensures Allocate(areas, landArea, total, remaining) == FloorShares(areas, landArea, total)
    decreases |areas|
  {
    var shares := FloorShares(areas, landArea, total);
    if areas != [] {
      assert shares[1..] == FloorShares(areas[1..], landArea, total);
      assert Sum(shares) == shares[0] + Sum(shares[1..]);
      SumNonNegative(shares[1..]);
      SharesWithinBudget(areas[1..], landArea, total, remaining - shares[0]);
    }
  }

  lemma SumNonNegative(xs: seq<int>)
    requires forall k :: 0 <= k < |xs| ==> xs[k] >= 0
    ensures Sum(xs) >= 0
  {
    if xs != [] {
      SumNonNegative(xs[1..]);
    }
  }

  /** Proportionality: when every continent's exact share is at least one
      city, the split is exactly the floor of the proportional shares, in
      total at most the budget. */
  lemma ProportionalSplit(areas: seq<nat>, total: nat)
    requires SumNat(areas) > 0
    requires forall k :: 0 <= k < |areas| ==> areas[k] * total >= SumNat(areas)
    ensures var alloc := Allocate(areas, SumNat(areas), total, total);
            && |alloc| == |areas|
            && (forall k :: 0 <= k < |areas| ==> alloc[k] == (areas[k] * total) / SumNat(areas))
            && Sum(alloc) <= total
  {
    var landArea := SumNat(areas);
    FloorSharesFit(areas, landArea, total);
    DivExact(total, landArea);
    forall k | 0 <= k < |areas|
      ensures (areas[k] * total) / landArea >= 1
    {
      DivAtLeastOne(areas[k] * total, landArea);
    }
    SharesWithinBudget(areas, landArea, total, total);
  }

  // ---------------------------------------------------------------------
  // generateCitiesByContinent

  function Range(n: nat): (r: seq<nat>)
    ensures |r| == n && forall k :: 0 <= k < n ==> r[k] == k
  {
    if n == 0 then [] else Range(n - 1) + [n - 1]
  }

  lemma RangeOnce(n: nat, x: nat)
    ensures multiset(Range(n))[x] <= 1
    ensures x >= n ==> multiset(Range(n))[x] == 0
  {
    if n > 0 {
      RangeOnce(n - 1, x);
    }
  }

  /** A reordering of 0 .. n - 1 lists each index once. */
  lemma ReorderedRange(order: seq<nat>, n: nat)
    requires multiset(order) == multiset(Range(n))
    ensures forall i :: 0 <= i < |order| ==> order[i] < n
    ensures forall i, j :: 0 <= i < j < |order| ==> order[i] != order[j]
  {
    forall i | 0 <= i < |order|
      ensures order[i] < n
    {
      assert order[i] in multiset(order);
      RangeOnce(n, order[i]);
    }
    forall i, j | 0 <= i < j < |order|
      ensures order[i] != order[j]
    {
      if order[i] == order[j] {
        var x := order[i];
        assert order == order[..j] + order[j..];
        assert x in multiset(order[..j]) && x in multiset(order[j..]);
        assert multiset(order)[x] == multiset(order[..j])[x] + multiset(order[j..])[x];
        RangeOnce(n, x);
        assert false;
      }
    }
  }

  /** The areas of the continents, in the given order. */
  function Areas(continents: seq<set<Point>>, order: seq<nat>): (areas: seq<nat>)
    requires forall i :: 0 <= i < |order| ==> order[i] < |continents|
    ensures |areas| == |order| && forall i :: 0 <= i < |order| ==> areas[i] == |continents[order[i]]|
  {
    seq(|order|, i requires 0 <= i < |order| => |continents[order[i]]|)
  }

  /** A list with a positive first entry has a positive total. */
  lemma FirstCounts(xs: seq<nat>)
    requires xs != [] && xs[0] > 0
    ensures SumNat(xs) > 0
  {
  }

  /** The name prefix `C${index + 1}-` of a continent's cities. */
  function ContinentPrefix(index: nat): string {
    "C" + NatToString(index + 1) + "-"
  }

  /** The cities of one call, with `continentId` set to `cid` in place. */
  function Relabel(cities: seq<City>, cid: int): (r: seq<City>)
    ensures |r| == |cities|
    ensures forall k :: 0 <= k < |r| ==> r[k] == cities[k].(continentId := cid)
  {
    seq(|cities|, k requires 0 <= k < |cities| => cities[k].(continentId := cid))
  }

  /** How many of the cities carry the continent label `cid`. */
  function CountLabel(cities: seq<City>, cid: int): (n: nat)
    ensures n <= |cities|
    ensures n == 0 <==> forall k :: 0 <= k < |cities| ==> cities[k].continentId != cid
  {
    if cities == [] then 0
    else
      var init := cities[..|cities| - 1];
      assert forall k :: 0 <= k < |init| ==> init[k] == cities[k];
      CountLabel(init, cid) + if cities[|cities| - 1].continentId == cid then 1 else 0
  }

  /** Counting distributes over concatenation. */
  lemma {:induction false} CountLabelAppend(xs: seq<City>, ys: seq<City>, cid: int)
    ensures CountLabel(xs + ys, cid) == CountLabel(xs, cid) + CountLabel(ys, cid)
    decreases |ys|
  {
    if ys != [] {
      var init := ys[..|ys| - 1];
      assert (xs + ys)[..|xs + ys| - 1] == xs + init;
      CountLabelAppend(xs, init, cid);
    } else {
      assert xs + ys == xs;
    }
  }

  /** In a list that carries one label throughout, that label counts every
      city and any other label none. */
  lemma {:induction false} CountUniform(ys: seq<City>, own: int, cid: int)
    requires forall k :: 0 <= k < |ys| ==> ys[k].continentId == own
    ensures CountLabel(ys, cid) == if cid == own then |ys| else 0
    decreases |ys|
  {
    if ys != [] {
      CountUniform(ys[..|ys| - 1], own, cid);
    }
  }

  /** The k-th city is named after its continent and its rank among the
      earlier cities of that continent: `C<index + 1>-City <rank>`. */
  ghost predicate NamedInTurn(cities: seq<City>, k: nat)
    requires k < |cities|
  {
    && cities[k].continentId >= 1
    && cities[k].name == CityName(ContinentPrefix(cities[k].continentId - 1),
                                  CountLabel(cities[..k], cities[k].continentId) + 1)
  }

  /** The per-continent tallies after `i` visits: a visited continent holds
      at most its share, a continent still to visit holds none, and every
      city is named in turn. */
  ghost predicate Tally(order: seq<nat>, alloc: seq<int>, i: nat, cities: seq<City>)
    requires i <= |alloc| <= |order|
  {
    && (forall v :: 0 <= v < i ==> CountLabel(cities, order[v] + 1) <= alloc[v])
    && (forall v :: i <= v < |order| ==> CountLabel(cities, order[v] + 1) == 0)
    && (forall k :: 0 <= k < |cities| ==> NamedInTurn(cities, k))
  }

  /** A visit's cities, labelled and named for the continent `order[i]`. */
  ghost predicate VisitCities(order: seq<nat>, i: nat, labelled: seq<City>)
    requires i < |order|
  {
    forall k :: 0 <= k < |labelled| ==>
      && labelled[k].continentId == order[i] + 1
      && labelled[k].name == CityName(ContinentPrefix(order[i]), k + 1)
  }

  /** A visit raises the visited continent's tally by its number of cities
      and leaves every other continent's tally as it was. */
  lemma CountsStep(order: seq<nat>, i: nat, cities: seq<City>, labelled: seq<City>, v: nat)
    requires i < |order| && v < |order|
    requires forall a, b :: 0 <= a < b < |order| ==> order[a] != order[b]
    requires VisitCities(order, i, labelled)
    ensures CountLabel(cities + labelled, order[v] + 1)
              == CountLabel(cities, order[v] + 1) + if v == i then |labelled| else 0
  {
    CountLabelAppend(cities, labelled, order[v] + 1);
    CountUniform(labelled, order[i] + 1, order[v] + 1);
    if v != i {
      assert order[v] != order[i] by {
        if v < i {
          assert order[v] != order[i];
        } else {
          assert order[i] != order[v];
        }
      }
    }
  }

  /** The visit's cities are named in turn when their continent had none
      before. */
  lemma NamedStep(order: seq<nat>, i: nat, cities: seq<City>, labelled: seq<City>)
    requires i < |order|
    requires CountLabel(cities, order[i] + 1) == 0
    requires forall k :: 0 <= k < |cities| ==> NamedInTurn(cities, k)
    requires VisitCities(order, i, labelled)
    ensures forall k :: 0 <= k < |cities + labelled| ==> NamedInTurn(cities + labelled, k)
  {
    var cs := cities + labelled;
    var cid := order[i] + 1;
    forall k | 0 <= k < |cs|
      ensures NamedInTurn(cs, k)
    {
      if k < |cities| {
        assert cs[..k] == cities[..k];
        assert cs[k] == cities[k];
        assert NamedInTurn(cities, k);
      } else {
        var m := k - |cities|;
        assert cs[..k] == cities + labelled[..m];
        assert cs[k] == labelled[m];
        CountLabelAppend(cities, labelled[..m], cid);
        CountUniform(labelled[..m], cid, cid);
      }
    }
  }

  /** A visit adds up to its share of cities, all labelled and named for
      the visited continent, which keeps the tallies. */
  lemma TallyStep(order: seq<nat>, alloc: seq<int>, i: nat, cities: seq<City>, labelled: seq<City>)
    requires i < |alloc| <= |order|
    requires forall a, b :: 0 <= a < b < |order| ==> order[a] != order[b]
    requires Tally(order, alloc, i, cities)
    requires |labelled| <= alloc[i]
    requires VisitCities(order, i, labelled)
    ensures Tally(order, alloc, i + 1, cities + labelled)
  {
    forall v | 0 <= v < |order|
      ensures CountLabel(cities + labelled, order[v] + 1)
                == CountLabel(cities, order[v] + 1) + if v == i then |labelled| else 0
    {
      CountsStep(order, i, cities, labelled, v);
    }
    NamedStep(order, i, cities, labelled);
  }

  /** The tallies after the visit that extended `before` to `after`. */
  lemma TallyNext(order: seq<nat>, alloc: seq<int>, i: nat, before: seq<City>, after: seq<City>)
    requires i < |alloc| <= |order|
    requires forall a, b :: 0 <= a < b < |order| ==> order[a] != order[b]
    requires Tally(order, alloc, i, before)
    requires |before| <= |after| <= |before| + alloc[i] && after[..|before|] == before
    requires VisitCities(order, i, after[|before|..])
    ensures Tally(order, alloc, i + 1, after)
  {
    assert after == before + after[|before|..];
    TallyStep(order, alloc, i, before, after[|before|..]);
  }

  /** The cities placed so far, each on its continent and footprinted, with
      ids continuing the registry and a record of the visit that placed it. */
  ghost predicate Placed(cfg: Config, land: (int, int) -> bool, continents: seq<set<Point>>, order: seq<nat>,
                         base: int, visits: nat, cities: seq<City>, visit: seq<nat>) {
    && |visit| == |cities|
    && (forall i :: 0 <= i < |order| ==> order[i] < |continents|)
    && (forall k :: 0 <= k < |cities| ==>
          && visit[k] < visits && visit[k] < |order|
          && cities[k].id == base + k + 1
          && cities[k].continentId == order[visit[k]] + 1
          && NearArea(continents[order[visit[k]]], cities[k].x, cities[k].y)
          && Footprinted(cfg, land, cities[k]))
    && (forall j, k :: 0 <= j < k < |cities| && visit[j] == visit[k] ==> Apart(cfg, cities[k], cities[j]))
  }

  lemma PlacedExtends(cfg: Config, land: (int, int) -> bool, continents: seq<set<Point>>, order: seq<nat>,
                      base: int, i: nat, cities: seq<City>, visit: seq<nat>, placed: seq<City>)
    requires Placed(cfg, land, continents, order, base, i, cities, visit)
    requires i < |order|
    requires forall k :: 0 <= k < |placed| ==>
               && placed[k].id == base + |cities| + k + 1
               && NearArea(continents[order[i]], placed[k].x, placed[k].y)
               && Footprinted(cfg, land, placed[k])
    requires forall j, k :: 0 <= j < k < |placed| ==> Apart(cfg, placed[k], placed[j])
    ensures Placed(cfg, land, continents, order, base, i + 1,
                   cities + Relabel(placed, order[i] + 1), visit + Repeat(|placed|, i))
  {
    var labelled := Relabel(placed, order[i] + 1);
    var cs := cities + labelled;
    var vs := visit + Repeat(|placed|, i);
    forall j, k | 0 <= j < k < |cs| && vs[j] == vs[k]
      ensures Apart(cfg, cs[k], cs[j])
    {
      if j >= |cities| {
        assert cs[k].tiles == placed[k - |cities|].tiles && cs[j].tiles == placed[j - |cities|].tiles;
        assert Apart(cfg, placed[k - |cities|], placed[j - |cities|]);
      }
    }
  }

  /** n copies of visit number i. */
  function Repeat(n: nat, i: nat): (r: seq<nat>)
    ensures |r| == n && forall k :: 0 <= k < n ==> r[k] == i
  {
    seq(n, _ => i)
  }

  /** The state of the visiting loop after i visits. */
  ghost predicate Visiting(cfg: Config, land: (int, int) -> bool, continents: seq<set<Point>>, order: seq<nat>,
                           alloc: seq<int>, s: Session, i: nat, cur: Session, allCities: seq<City>, visit: seq<nat>) {
    && i <= |alloc| <= |order|
    && cur.allCitys == s.allCitys + allCities
    && cur.roads == s.roads && cur.allRoads == s.allRoads
    && |allCities| <= Sum(alloc[..i])
    && Placed(cfg, land, continents, order, |s.allCitys|, i, allCities, visit)
    && (ValidSeed(s.rng.seed) ==> ValidSeed(cur.rng.seed))
    && (ValidSeed(s.rng.seed) ==> forall k :: 0 <= k < |allCities| ==> AnchorInRange(cfg, allCities[k]))
  }

  /** One continent visit: place its share near its tiles and relabel the
      new cities, in the call's result and in the session registry. */
  method VisitContinent(cfg: Config, land: (int, int) -> bool, continents: seq<set<Point>>, order: seq<nat>,
                        alloc: seq<int>, s: Session, i: nat, cur: Session, allCities: seq<City>, ghost visit: seq<nat>)
    returns (cur': Session, allCities': seq<City>, ghost visit': seq<nat>)
    requires i < |alloc| <= |order| && alloc[i] >= 1
    requires Visiting(cfg, land, continents, order, alloc, s, i, cur, allCities, visit)
    ensures Visiting(cfg, land, continents, order, alloc, s, i + 1, cur', allCities', visit')
    ensures |allCities| <= |allCities'| <= |allCities| + alloc[i] && allCities'[..|allCities|] == allCities
    ensures VisitCities(order, i, allCities'[|allCities|..])
  {
    var index := order[i];
    var placed, next := GenerateCitiesInArea(cfg, land, cur, continents[index], alloc[i], ContinentPrefix(index));
    VisitingNext(cfg, land, continents, order, alloc, s, i, cur, allCities, visit, placed, next);
    LabelledNames(order, i, placed, allCities);
    var labelled := Relabel(placed, index + 1);
    cur' := next.(cities := labelled, allCitys := cur.allCitys + labelled);
    visit' := visit + Repeat(|placed|, i);
    allCities' := allCities + labelled;
  }

  /** The cities one visit places, relabelled and appended, keep the
      visiting loop's invariant one continent further on. */
  lemma VisitingNext(cfg: Config, land: (int, int) -> bool, continents: seq<set<Point>>, order: seq<nat>,
                     alloc: seq<int>, s: Session, i: nat, cur: Session, allCities: seq<City>, visit: seq<nat>,
                     placed: seq<City>, next: Session)
    requires i < |alloc| <= |order| && alloc[i] >= 1
    requires Visiting(cfg, land, continents, order, alloc, s, i, cur, allCities, visit)
    requires |placed| <= alloc[i]
    requires next.roads == cur.roads && next.allRoads == cur.allRoads
    requires forall k :: 0 <= k < |placed| ==>
               && placed[k].id == |cur.allCitys| + k + 1
               && NearArea(continents[order[i]], placed[k].x, placed[k].y)
               && Footprinted(cfg, land, placed[k])
    requires forall j, k :: 0 <= j < k < |placed| ==> Apart(cfg, placed[k], placed[j])
    requires ValidSeed(cur.rng.seed) ==> ValidSeed(next.rng.seed)
    requires ValidSeed(cur.rng.seed) ==> forall k :: 0 <= k < |placed| ==> AnchorInRange(cfg, placed[k])
    ensures var labelled := Relabel(placed, order[i] + 1);
      Visiting(cfg, land, continents, order, alloc, s, i + 1,
               next.(cities := labelled, allCitys := cur.allCitys + labelled),
               allCities + labelled, visit + Repeat(|placed|, i))
  {
    assert |cur.allCitys| == |s.allCitys| + |allCities|;
    PlacedExtends(cfg, land, continents, order, |s.allCitys|, i, allCities, visit, placed);
    SumPrefixStep(alloc, i);
    LabelledAnchors(cfg, order[i] + 1, placed, allCities, ValidSeed(s.rng.seed));
    var labelled := Relabel(placed, order[i] + 1);
    assert cur.allCitys + labelled == s.allCitys + (allCities + labelled);
  }

  /** Relabelling a visit's cities keeps their names, and appending them
      keeps the cities before them. */
  lemma LabelledNames(order: seq<nat>, i: nat, placed: seq<City>, allCities: seq<City>)
    requires i < |order|
    requires forall k :: 0 <= k < |placed| ==> placed[k].name == CityName(ContinentPrefix(order[i]), k + 1)
    ensures var all' := allCities + Relabel(placed, order[i] + 1);
      all'[..|allCities|] == allCities && VisitCities(order, i, all'[|allCities|..])
  {
    var labelled := Relabel(placed, order[i] + 1);
    var all' := allCities + labelled;
    assert all'[..|allCities|] == allCities;
    assert all'[|allCities|..] == labelled;
  }

  /** Relabelling keeps every anchor where it was. */
  lemma LabelledAnchors(cfg: Config, cid: int, placed: seq<City>, allCities: seq<City>, anchored: bool)
    requires anchored ==> forall k :: 0 <= k < |placed| ==> AnchorInRange(cfg, placed[k])
    requires anchored ==> forall k :: 0 <= k < |allCities| ==> AnchorInRange(cfg, allCities[k])
    ensures var all' := allCities + Relabel(placed, cid);
      anchored ==> forall k :: 0 <= k < |all'| ==> AnchorInRange(cfg, all'[k])
  {
    var all' := allCities + Relabel(placed, cid);
    if anchored {
      forall k | 0 <= k < |all'|
        ensures AnchorInRange(cfg, all'[k])
      {
        if k >= |allCities| {
          assert all'[k].x == placed[k - |allCities|].x && all'[k].y == placed[k - |allCities|].y;
        } else {
          assert all'[k] == allCities[k];
        }
      }
    }
  }

  /** The visiting loop: continents `order[0]`, `order[1]`, ... receive
      the shares `alloc[0]`, `alloc[1]`, ... */
  method VisitContinents(cfg: Config, land: (int, int) -> bool, continents: seq<set<Point>>, order: seq<nat>,
                         alloc: seq<int>, s: Session)
    returns (allCities: seq<City>, ghost visit: seq<nat>, cur: Session)
    requires |alloc| <= |order|
    requires forall i :: 0 <= i < |order| ==> order[i] < |continents|
    requires forall i :: 0 <= i < |alloc| ==> alloc[i] >= 1
    requires forall a, b :: 0 <= a < b < |order| ==> order[a] != order[b]
    ensures Visiting(cfg, land, continents, order, alloc, s, |alloc|, cur, allCities, visit)
    ensures cur.allCitys == s.allCitys + allCities && |allCities| <= Sum(alloc)
    ensures Tally(order, alloc, |alloc|, allCities)
  {
    cur := s;
    allCities := [];
    visit := [];
    var i := 0;
    while i < |alloc|
      invariant Visiting(cfg, land, continents, order, alloc, s, i, cur, allCities, visit)
      invariant Tally(order, alloc, i, allCities)
    {
      ghost var before := allCities;
      cur, allCities, visit := VisitContinent(cfg, land, continents, order, alloc, s, i, cur, allCities, visit);
      TallyNext(order, alloc, i, before, allCities);
      i := i + 1;
    }
    assert alloc[..|alloc|] == alloc;
  }

  /** Labels of placed cities name the continent they were placed near. */
  lemma PlacedLabels(cfg: Config, land: (int, int) -> bool, continents: seq<set<Point>>, order: seq<nat>,
                     base: int, visits: nat, cities: seq<City>, visit: seq<nat>)
    requires Placed(cfg, land, continents, order, base, visits, cities, visit)
    ensures forall k :: 0 <= k < |cities| ==>
              && cities[k].id == base + k + 1
              && 1 <= cities[k].continentId <= |continents|
              && NearArea(continents[cities[k].continentId - 1], cities[k].x, cities[k].y)
              && Footprinted(cfg, land, cities[k])
  {
  }

  /** Each continent is visited once, so cities sharing a continent label
      come from one call and keep their spacing. */
  lemma SameLabelSameVisit(cfg: Config, land: (int, int) -> bool, continents: seq<set<Point>>, order: seq<nat>,
                           base: int, visits: nat, cities: seq<City>, visit: seq<nat>)
    requires Placed(cfg, land, continents, order, base, visits, cities, visit)
    requires forall i, j :: 0 <= i < j < |order| ==> order[i] != order[j]
    ensures forall j, k :: 0 <= j < k < |cities| && cities[j].continentId == cities[k].continentId
              ==> Apart(cfg, cities[k], cities[j])
  {
    forall j, k | 0 <= j < k < |cities| && cities[j].continentId == cities[k].continentId
      ensures Apart(cfg, cities[k], cities[j])
    {
      assert order[visit[j]] == order[visit[k]];
      assert visit[j] == visit[k];
    }
  }

  /** The visiting order: continent indices, largest area first. */
  function VisitOrder(continents: seq<set<Point>>): (order: seq<nat>)
    ensures |order| == |continents|
    ensures forall i :: 0 <= i < |order| ==> order[i] < |continents|
    ensures forall i, j :: 0 <= i < j < |order| ==> order[i] != order[j]
    ensures forall i, j :: 0 <= i < j < |order| ==> |continents[order[i]]| >= |continents[order[j]]|
  {
    var n := |continents|;
    var key := (k: nat) => if k < n then -|continents[k]| else 0;
    var order := SortBy(Range(n), key);
    ReorderedRange(order, n);
    assert forall i, j :: 0 <= i < j < |order| ==> key(order[i]) <= key(order[j]);
    order
  }

  /** The total land area, the sizes of all continents together. */
  function LandArea(continents: seq<set<Point>>): nat {
    SumNat(Areas(continents, Range(|continents|)))
  }

  /** The shares of the continents in visiting order (the allocation loop's
      `actualCities`); no continents, no shares. */
  function Shares(continents: seq<set<Point>>, order: seq<nat>, totalCities: int): (alloc: seq<int>)
    requires forall i :: 0 <= i < |order| ==> order[i] < |continents|
    requires |continents| > 0 ==> continents[0] != {}
    ensures |alloc| <= |order|
    ensures forall i :: 0 <= i < |alloc| ==> alloc[i] >= 1
    ensures Sum(alloc) <= Max(totalCities, 0)
    ensures |alloc| < |order| ==> Sum(alloc) == Max(totalCities, 0)
    ensures |continents| > 0 ==>
              && LandArea(continents) > 0
              && Greedy(Areas(continents, order), LandArea(continents), totalCities, totalCities, alloc)
  {
    var n := |continents|;
    if n == 0 then []
    else
      var areas := Areas(continents, Range(n));
      assert areas[0] == |continents[0]| > 0;
      FirstCounts(areas);
      AllocateIsGreedy(Areas(continents, order), SumNat(areas), totalCities, totalCities);
      Allocate(Areas(continents, order), SumNat(areas), totalCities, totalCities)
  }

  /** The cities keep to the shares: the continent visited v-th holds at
      most its share, a continent the budget did not reach holds none. */
  ghost predicate Apportioned(continents: seq<set<Point>>, totalCities: int, cities: seq<City>)
    requires |continents| > 0 ==> continents[0] != {}
  {
    var order := VisitOrder(continents);
    WithinShares(order, Shares(continents, order, totalCities), cities)
  }

  /** The continent visited v-th holds at most `alloc[v]` cities, and one
      past the allocation holds none. */
  ghost predicate WithinShares(order: seq<nat>, alloc: seq<int>, cities: seq<City>) {
    && (forall v :: 0 <= v < |alloc| && v < |order| ==> CountLabel(cities, order[v] + 1) <= alloc[v])
    && (forall v :: |alloc| <= v < |order| ==> CountLabel(cities, order[v] + 1) == 0)
  }

  /** The tallies once every share has been placed. */
  lemma TallyDone(continents: seq<set<Point>>, totalCities: int, order: seq<nat>, alloc: seq<int>,
                  cities: seq<City>)
    requires |continents| > 0 ==> continents[0] != {}
    requires order == VisitOrder(continents) && alloc == Shares(continents, order, totalCities)
    requires Tally(order, alloc, |alloc|, cities)
    ensures Apportioned(continents, totalCities, cities)
    ensures forall k :: 0 <= k < |cities| ==> NamedInTurn(cities, k)
  {
    assert WithinShares(order, alloc, cities);
  }

  /** What the finished visiting loop gives the caller. */
  lemma VisitingDone(cfg: Config, land: (int, int) -> bool, continents: seq<set<Point>>, order: seq<nat>,
                     alloc: seq<int>, s: Session, totalCities: int, cur: Session, allCities: seq<City>, visit: seq<nat>)
    requires Visiting(cfg, land, continents, order, alloc, s, |alloc|, cur, allCities, visit)
    requires Sum(alloc) <= Max(totalCities, 0)
    requires forall i, j :: 0 <= i < j < |order| ==> order[i] != order[j]
    ensures |allCities| <= Max(totalCities, 0)
    ensures cur.allCitys == s.allCitys + allCities
    ensures cur.roads == s.roads && cur.allRoads == s.allRoads
    ensures forall k :: 0 <= k < |allCities| ==>
              && allCities[k].id == |s.allCitys| + k + 1
              && 1 <= allCities[k].continentId <= |continents|
              && NearArea(continents[allCities[k].continentId - 1], allCities[k].x, allCities[k].y)
              && Footprinted(cfg, land, allCities[k])
    ensures forall j, k :: 0 <= j < k < |allCities| && allCities[j].continentId == allCities[k].continentId
              ==> Apart(cfg, allCities[k], allCities[j])
    ensures ValidSeed(s.rng.seed) ==> ValidSeed(cur.rng.seed)
    ensures ValidSeed(s.rng.seed) ==> forall k :: 0 <= k < |allCities| ==> AnchorInRange(cfg, allCities[k])
  {
    assert alloc[..|alloc|] == alloc;
    PlacedLabels(cfg, land, continents, order, |s.allCitys|, |alloc|, allCities, visit);
    SameLabelSameVisit(cfg, land, continents, order, |s.allCitys|, |alloc|, allCities, visit);
  }

  /** `generateCitiesByContinent(totalCities)`: find the continents, visit
      them largest first, give each its share of the budget (see Allocate)
      and place that many cities near its tiles, named `C<n>-City <m>` and
      labelled with continent n, the continent's discovery position plus
      one.  The relabelling reaches the same city records in the session
      registry.  The result becomes the current city list. */
  method GenerateCitiesByContinent(cfg: Config, land: (int, int) -> bool, s: Session, totalCities: int)
    returns (allCities: seq<City>, continents: seq<set<Point>>, s': Session)
    ensures Partition(cfg, land, continents) && Union(continents) == LandCells(cfg, land)
    ensures |allCities| <= Max(totalCities, 0)
    ensures s'.cities == allCities && s'.allCitys == s.allCitys + allCities
    ensures s'.roads == s.roads && s'.allRoads == s.allRoads
    ensures forall k :: 0 <= k < |allCities| ==>
              && allCities[k].id == |s.allCitys| + k + 1
              && 1 <= allCities[k].continentId <= |continents|
              && NearArea(continents[allCities[k].continentId - 1], allCities[k].x, allCities[k].y)
              && Footprinted(cfg, land, allCities[k])
    ensures forall j, k :: 0 <= j < k < |allCities| && allCities[j].continentId == allCities[k].continentId
              ==> Apart(cfg, allCities[k], allCities[j])
    ensures ValidSeed(s.rng.seed) ==> ValidSeed(s'.rng.seed)
    ensures ValidSeed(s.rng.seed) ==> forall k :: 0 <= k < |allCities| ==> AnchorInRange(cfg, allCities[k])
    ensures Apportioned(continents, totalCities, allCities)
    ensures forall k :: 0 <= k < |allCities| ==> NamedInTurn(allCities, k)
  {
    continents := IdentifyContinents(cfg, land);
    var order := VisitOrder(continents);
    var alloc := Shares(continents, order, totalCities);
    ghost var visit;
    var cur;
    allCities, visit, cur := VisitContinents(cfg, land, continents, order, alloc, s);
    VisitingDone(cfg, land, continents, order, alloc, s, totalCities, cur, allCities, visit);
    TallyDone(continents, totalCities, order, alloc, allCities);
    s' := cur.(cities := allCities);
  }
}
