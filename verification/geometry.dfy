/** The geometry kernel of MapCreator on integer tile coordinates:
    squared distances, the parametric segment-crossing test and the
    area-sum point-in-triangle test. */
module Geometry {

  datatype Point = Point(x: int, y: int)

  function Abs(n: int): nat {
    if n < 0 then -n else n
  }

  function RealAbs(r: real): real {
    if r < 0.0 then -r else r
  }

  function Min(a: int, b: int): int {
    if a <= b then a else b
  }

  function Max(a: int, b: int): int {
    if a <= b then b else a
  }

  function Square(d: int): nat {
    if d < 0 then (-d) * (-d) else d * d
  }

  /** The square of `calculateDistance`: comparing Euclidean distances with a
      non-negative bound is comparing squared distances with its square. */
  function SqDist(p: Point, q: Point): nat {
    Square(q.x - p.x) + Square(q.y - p.y)
  }

  /** Twice the signed area of the triangle (a, b, c). */
  function Cross(a: Point, b: Point, c: Point): int {
    (b.x - a.x) * (c.y - a.y) - (c.x - a.x) * (b.y - a.y)
  }

  // ---------------------------------------------------------------------
  // doLinesIntersect

  /** The bounding boxes of segments p1p2 and p3p4 do not overlap. */
  predicate BoxesDisjoint(p1: Point, p2: Point, p3: Point, p4: Point) {
    || Max(p1.x, p2.x) < Min(p3.x, p4.x)
    || Max(p3.x, p4.x) < Min(p1.x, p2.x)
    || Max(p1.y, p2.y) < Min(p3.y, p4.y)
    || Max(p3.y, p4.y) < Min(p1.y, p2.y)
  }

  function Denominator(p1: Point, p2: Point, p3: Point, p4: Point): int {
    (p2.x - p1.x) * (p4.y - p3.y) - (p2.y - p1.y) * (p4.x - p3.x)
  }

  function TNumerator(p1: Point, p2: Point, p3: Point, p4: Point): int {
    (p3.x - p1.x) * (p4.y - p3.y) - (p3.y - p1.y) * (p4.x - p3.x)
  }

  function UNumerator(p1: Point, p2: Point, p3: Point, p4: Point): int {
    (p3.x - p1.x) * (p2.y - p1.y) - (p3.y - p1.y) * (p2.x - p1.x)
  }

  /** The open parameter interval that counts as a crossing. */
  predicate Interior(t: real) {
    0.01 < t < 0.99
  }

  /** `doLinesIntersect`: bounding-box rejection, then the parametric
      intersection of the two lines, accepted only strictly inside both
      segments.  A reported crossing has non-parallel lines, and segments
      sharing an endpoint (two roads from one city) never cross. */
  function DoLinesIntersect(p1: Point, p2: Point, p3: Point, p4: Point): (r: bool)
    ensures r ==> Denominator(p1, p2, p3, p4) != 0
    ensures r ==> p3 != p1 && p3 != p2 && p4 != p1 && p4 != p2
  {
    if BoxesDisjoint(p1, p2, p3, p4) then false
    else
      var den := Denominator(p1, p2, p3, p4);
      if den == 0 then false
      else
        SharedEndNotInterior(p1, p2, p3, p4);
        var t := TNumerator(p1, p2, p3, p4) as real / den as real;
        var u := UNumerator(p1, p2, p3, p4) as real / den as real;
        Interior(t) && Interior(u)
  }

  /** The point at parameter t along p1p2 is the point at parameter u along
      p3p4, both parameters in the interior interval. */
  ghost predicate MeetAt(p1: Point, p2: Point, p3: Point, p4: Point, t: real, u: real) {
    && Interior(t) && Interior(u)
    && p1.x as real + t * (p2.x - p1.x) as real == p3.x as real + u * (p4.x - p3.x) as real
    && p1.y as real + t * (p2.y - p1.y) as real == p3.y as real + u * (p4.y - p3.y) as real
  }

  /** A point a fraction t of the way from a to b lies between them. */
  lemma Between(a: int, b: int, t: real)
    requires 0.0 <= t <= 1.0
    ensures Min(a, b) as real <= a as real + t * (b - a) as real <= Max(a, b) as real
  {
    var d := (b - a) as real;
    if a <= b {
      ScaledWithin(t, d);
    } else {
      ScaledWithin(t, -d);
      assert t * d == -(t * -d);
    }
  }

  /** Scaling a non-negative length by a fraction stays within it. */
  lemma ScaledWithin(t: real, d: real)
    requires 0.0 <= t <= 1.0 && 0.0 <= d
    ensures 0.0 <= t * d <= d
  {
    assert (1.0 - t) * d == d - t * d;
  }

  /** Cramer's rule for the crossing system, in integers. */
  lemma CramerIdentities(p1: Point, p2: Point, p3: Point, p4: Point)
    ensures TNumerator(p1, p2, p3, p4) * (p2.x - p1.x) - UNumerator(p1, p2, p3, p4) * (p4.x - p3.x)
            == (p3.x - p1.x) * Denominator(p1, p2, p3, p4)
    ensures TNumerator(p1, p2, p3, p4) * (p2.y - p1.y) - UNumerator(p1, p2, p3, p4) * (p4.y - p3.y)
            == (p3.y - p1.y) * Denominator(p1, p2, p3, p4)
  {
  }

  /** The computed parameters solve the system. */
  lemma ComputedParametersMeet(p1: Point, p2: Point, p3: Point, p4: Point)
    requires Denominator(p1, p2, p3, p4) != 0
    ensures var den := Denominator(p1, p2, p3, p4) as real;
            var t := TNumerator(p1, p2, p3, p4) as real / den;
            var u := UNumerator(p1, p2, p3, p4) as real / den;
            && p1.x as real + t * (p2.x - p1.x) as real == p3.x as real + u * (p4.x - p3.x) as real
            && p1.y as real + t * (p2.y - p1.y) as real == p3.y as real + u * (p4.y - p3.y) as real
  {
    var den := Denominator(p1, p2, p3, p4) as real;
    var nt := TNumerator(p1, p2, p3, p4) as real;
    var nu := UNumerator(p1, p2, p3, p4) as real;
    CramerIdentities(p1, p2, p3, p4);
    assert nt * (p2.x - p1.x) as real - nu * (p4.x - p3.x) as real == (p3.x - p1.x) as real * den;
    assert nt * (p2.y - p1.y) as real - nu * (p4.y - p3.y) as real == (p3.y - p1.y) as real * den;
    assert (nt / den) * (p2.x - p1.x) as real - (nu / den) * (p4.x - p3.x) as real == (p3.x - p1.x) as real;
    assert (nt / den) * (p2.y - p1.y) as real - (nu / den) * (p4.y - p3.y) as real == (p3.y - p1.y) as real;
  }

  /** Any solution of the system is the computed one. */
  lemma SolutionIsUnique(p1: Point, p2: Point, p3: Point, p4: Point, t: real, u: real)
    requires Denominator(p1, p2, p3, p4) != 0
    requires p1.x as real + t * (p2.x - p1.x) as real == p3.x as real + u * (p4.x - p3.x) as real
    requires p1.y as real + t * (p2.y - p1.y) as real == p3.y as real + u * (p4.y - p3.y) as real
    ensures t == TNumerator(p1, p2, p3, p4) as real / Denominator(p1, p2, p3, p4) as real
    ensures u == UNumerator(p1, p2, p3, p4) as real / Denominator(p1, p2, p3, p4) as real
  {
    var d1x := (p2.x - p1.x) as real;
    var d1y := (p2.y - p1.y) as real;
    var d2x := (p4.x - p3.x) as real;
    var d2y := (p4.y - p3.y) as real;
    var dx := (p3.x - p1.x) as real;
    var dy := (p3.y - p1.y) as real;
    var den := Denominator(p1, p2, p3, p4) as real;
    assert den == d1x * d2y - d1y * d2x;
    assert t * d1x - u * d2x == dx;
    assert t * d1y - u * d2y == dy;
    calc {
      t * den;
      t * d1x * d2y - t * d1y * d2x;
      (t * d1x) * d2y - (t * d1y) * d2x;
      (dx + u * d2x) * d2y - (dy + u * d2y) * d2x;
      dx * d2y - dy * d2x;
      TNumerator(p1, p2, p3, p4) as real;
    }
    calc {
      u * den;
      d1x * (u * d2y) - d1y * (u * d2x);
      d1x * (t * d1y - dy) - d1y * (t * d1x - dx);
      dx * d1y - dy * d1x;
      UNumerator(p1, p2, p3, p4) as real;
    }
  }

  /** With the lines not parallel, the test reduces to the computed
      parameters being interior, once the boxes overlap. */
  lemma CrossingUnfold(p1: Point, p2: Point, p3: Point, p4: Point)
    requires Denominator(p1, p2, p3, p4) != 0
    ensures DoLinesIntersect(p1, p2, p3, p4)
            <==> && !BoxesDisjoint(p1, p2, p3, p4)
                 && Interior(TNumerator(p1, p2, p3, p4) as real / Denominator(p1, p2, p3, p4) as real)
                 && Interior(UNumerator(p1, p2, p3, p4) as real / Denominator(p1, p2, p3, p4) as real)
  {
  }

  /** Along one axis: two segments that share a point have overlapping
      extents. */
  lemma MeetingExtentsOverlap(a1: int, a2: int, b1: int, b2: int, t: real, u: real)
    requires 0.0 <= t <= 1.0 && 0.0 <= u <= 1.0
    requires a1 as real + t * (a2 - a1) as real == b1 as real + u * (b2 - b1) as real
    ensures Min(b1, b2) <= Max(a1, a2) && Min(a1, a2) <= Max(b1, b2)
  {
    Between(a1, a2, t);
    Between(b1, b2, u);
  }

  /** Two segments that meet have overlapping bounding boxes. */
  lemma MeetingBoxesOverlap(p1: Point, p2: Point, p3: Point, p4: Point, t: real, u: real)
    requires MeetAt(p1, p2, p3, p4, t, u)
    ensures !BoxesDisjoint(p1, p2, p3, p4)
  {
    MeetingExtentsOverlap(p1.x, p2.x, p3.x, p4.x, t, u);
    MeetingExtentsOverlap(p1.y, p2.y, p3.y, p4.y, t, u);
  }

  /** A crossing is a meeting at the computed parameters. */
  lemma CrossingMeets(p1: Point, p2: Point, p3: Point, p4: Point)
    requires DoLinesIntersect(p1, p2, p3, p4)
    ensures Denominator(p1, p2, p3, p4) != 0
    ensures MeetAt(p1, p2, p3, p4, TNumerator(p1, p2, p3, p4) as real / Denominator(p1, p2, p3, p4) as real,
                   UNumerator(p1, p2, p3, p4) as real / Denominator(p1, p2, p3, p4) as real)
  {
    CrossingUnfold(p1, p2, p3, p4);
    ComputedParametersMeet(p1, p2, p3, p4);
  }

  /** A meeting of segments on non-parallel lines is a crossing. */
  lemma MeetingCrosses(p1: Point, p2: Point, p3: Point, p4: Point, t: real, u: real)
    requires Denominator(p1, p2, p3, p4) != 0 && MeetAt(p1, p2, p3, p4, t, u)
    ensures DoLinesIntersect(p1, p2, p3, p4)
  {
    CrossingUnfold(p1, p2, p3, p4);
    SolutionIsUnique(p1, p2, p3, p4, t, u);
    MeetingBoxesOverlap(p1, p2, p3, p4, t, u);
  }

  /** `doLinesIntersect` holds exactly when the lines are not parallel and the
      segments meet at a point interior (in the 0.01 .. 0.99 sense) to both. */
  lemma CrossingCharacterized(p1: Point, p2: Point, p3: Point, p4: Point)
    ensures DoLinesIntersect(p1, p2, p3, p4)
            <==> Denominator(p1, p2, p3, p4) != 0 && exists t, u :: MeetAt(p1, p2, p3, p4, t, u)
  {
    if DoLinesIntersect(p1, p2, p3, p4) {
      CrossingMeets(p1, p2, p3, p4);
    }
    if Denominator(p1, p2, p3, p4) != 0 && exists t, u :: MeetAt(p1, p2, p3, p4, t, u) {
      var t, u :| MeetAt(p1, p2, p3, p4, t, u);
      MeetingCrosses(p1, p2, p3, p4, t, u);
    }
  }

  /** The test does not depend on which segment is given first. */
  lemma CrossingSymmetric(p1: Point, p2: Point, p3: Point, p4: Point)
    ensures DoLinesIntersect(p1, p2, p3, p4) == DoLinesIntersect(p3, p4, p1, p2)
  {
    CrossingCharacterized(p1, p2, p3, p4);
    CrossingCharacterized(p3, p4, p1, p2);
    assert Denominator(p3, p4, p1, p2) == -Denominator(p1, p2, p3, p4);
    if exists t, u :: MeetAt(p1, p2, p3, p4, t, u) {
      var t, u :| MeetAt(p1, p2, p3, p4, t, u);
      assert MeetAt(p3, p4, p1, p2, u, t);
    }
    if exists t, u :: MeetAt(p3, p4, p1, p2, t, u) {
      var t, u :| MeetAt(p3, p4, p1, p2, t, u);
      assert MeetAt(p1, p2, p3, p4, u, t);
    }
  }

  lemma ReverseParameter(a: int, b: int, t: real)
    ensures a as real + t * (b - a) as real == b as real + (1.0 - t) * (a - b) as real
  {
  }

  /** Walking the first segment backwards meets at the complementary
      parameter. */
  lemma ReversedMeet(p1: Point, p2: Point, p3: Point, p4: Point, t: real, u: real)
    requires MeetAt(p1, p2, p3, p4, t, u)
    ensures MeetAt(p2, p1, p3, p4, 1.0 - t, u)
  {
    ReverseParameter(p1.x, p2.x, t);
    ReverseParameter(p1.y, p2.y, t);
  }

  /** The test does not depend on the direction of the first segment. */
  lemma CrossingIgnoresDirection(p1: Point, p2: Point, p3: Point, p4: Point)
    ensures DoLinesIntersect(p1, p2, p3, p4) == DoLinesIntersect(p2, p1, p3, p4)
  {
    CrossingCharacterized(p1, p2, p3, p4);
    CrossingCharacterized(p2, p1, p3, p4);
    assert Denominator(p2, p1, p3, p4) == -Denominator(p1, p2, p3, p4);
    if exists t, u :: MeetAt(p1, p2, p3, p4, t, u) {
      var t, u :| MeetAt(p1, p2, p3, p4, t, u);
      ReversedMeet(p1, p2, p3, p4, t, u);
    }
    if exists t, u :: MeetAt(p2, p1, p3, p4, t, u) {
      var t, u :| MeetAt(p2, p1, p3, p4, t, u);
      ReversedMeet(p2, p1, p3, p4, t, u);
    }
  }

  lemma UNumeratorAtEndpoint(p1: Point, p2: Point, p3: Point, p4: Point)
    requires p4 == p1 || p4 == p2
    ensures UNumerator(p1, p2, p3, p4) == Denominator(p1, p2, p3, p4)
  {
    var d1x, d1y := p2.x - p1.x, p2.y - p1.y;
    var d2x, d2y := p4.x - p3.x, p4.y - p3.y;
    if p4 == p1 {
      assert p3.x - p1.x == -d2x && p3.y - p1.y == -d2y;
    } else {
      assert p3.x - p1.x == d1x - d2x && p3.y - p1.y == d1y - d2y;
    }
  }

  lemma TNumeratorAtEndpoint(p1: Point, p2: Point, p3: Point, p4: Point)
    requires p3 == p2
    ensures TNumerator(p1, p2, p3, p4) == Denominator(p1, p2, p3, p4)
  {
  }

  /** A parameter of exactly 0 or 1 is not interior. */
  lemma EndParameterNotInterior(n: int, den: int)
    requires den != 0
    requires n == 0 || n == den
    ensures !Interior(n as real / den as real)
  {
    if n == den {
      assert n as real / den as real == 1.0;
    }
  }

  /** A segment starting or ending on an end of the other segment puts
      that segment's parameter at exactly 0 or 1, outside the interior. */
  lemma SharedEndNotInterior(p1: Point, p2: Point, p3: Point, p4: Point)
    requires Denominator(p1, p2, p3, p4) != 0
    ensures p3 == p1 || p3 == p2 ==>
              !Interior(TNumerator(p1, p2, p3, p4) as real / Denominator(p1, p2, p3, p4) as real)
    ensures p4 == p1 || p4 == p2 ==>
              !Interior(UNumerator(p1, p2, p3, p4) as real / Denominator(p1, p2, p3, p4) as real)
  {
    var den := Denominator(p1, p2, p3, p4);
    if p3 == p1 {
      EndParameterNotInterior(TNumerator(p1, p2, p3, p4), den);
    } else if p3 == p2 {
      TNumeratorAtEndpoint(p1, p2, p3, p4);
      EndParameterNotInterior(TNumerator(p1, p2, p3, p4), den);
    }
    if p4 == p1 || p4 == p2 {
      UNumeratorAtEndpoint(p1, p2, p3, p4);
      EndParameterNotInterior(UNumerator(p1, p2, p3, p4), den);
    }
  }

  // ---------------------------------------------------------------------
  // isPointInTriangle

  /** `isPointInTriangle`: the triangle's area equals the sum of the three
      areas the point makes with its sides, within 0.01.  All areas are
      multiples of 1/2, so on tile coordinates the tolerance is exact
      equality of the doubled areas. */
  function IsPointInTriangle(p: Point, a: Point, b: Point, c: Point): (r: bool)
    ensures r <==> Abs(Cross(a, b, c)) == Abs(Cross(p, a, b)) + Abs(Cross(p, b, c)) + Abs(Cross(p, c, a))
  {
    var area := Abs(Cross(a, b, c)) as real / 2.0;
    var area1 := Abs(Cross(p, a, b)) as real / 2.0;
    var area2 := Abs(Cross(p, b, c)) as real / 2.0;
    var area3 := Abs(Cross(p, c, a)) as real / 2.0;
    var n := Abs(Cross(a, b, c)) - (Abs(Cross(p, a, b)) + Abs(Cross(p, b, c)) + Abs(Cross(p, c, a)));
    assert area - (area1 + area2 + area3) == n as real / 2.0;
    HalfWithinTolerance(n);
    RealAbs(area - (area1 + area2 + area3)) < 0.01
  }

  /** A whole number of halves is within 0.01 of zero only when it is zero. */
  lemma HalfWithinTolerance(n: int)
    ensures RealAbs(n as real / 2.0) < 0.01 <==> n == 0
  {
    if n != 0 {
      assert RealAbs(n as real / 2.0) >= 0.5;
    }
  }

  /** The three sub-triangles' signed areas add up to the triangle's. */
  lemma CrossSplits(p: Point, a: Point, b: Point, c: Point)
    ensures Cross(a, b, c) == Cross(p, a, b) + Cross(p, b, c) + Cross(p, c, a)
  {
  }

  /** The point is inside the closed triangle (or on its boundary) exactly
      when it lies on the same side of all three edges. */
  lemma PointInTriangleIffSameSide(p: Point, a: Point, b: Point, c: Point)
    ensures IsPointInTriangle(p, a, b, c)
            <==> || (Cross(p, a, b) >= 0 && Cross(p, b, c) >= 0 && Cross(p, c, a) >= 0)
                 || (Cross(p, a, b) <= 0 && Cross(p, b, c) <= 0 && Cross(p, c, a) <= 0)
  {
    CrossSplits(p, a, b, c);
  }

  /** A non-degenerate triangle has three different corners. */
  lemma NonDegenerateCorners(a: Point, b: Point, c: Point)
    requires Cross(a, b, c) != 0
    ensures a != b && b != c && c != a
  {
  }

  /** Each vertex lies in its own triangle. */
  lemma VertexInTriangle(a: Point, b: Point, c: Point)
    ensures IsPointInTriangle(a, a, b, c)
  {
    PointInTriangleIffSameSide(a, a, b, c);
    assert Cross(a, a, b) == 0;
    assert Cross(a, c, a) == 0;
  }
}
