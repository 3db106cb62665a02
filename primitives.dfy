/** Geometry primitives: ray-casting point-in-polygon, point-to-segment and
    point-to-outline distance, axis-aligned rectangle overlap and grid snapping.
    Distances are SQUARED distances: the source takes a square root at the end
    of each point-to-segment computation, and since the root is monotone the
    minimum over edges and every threshold comparison carry over unchanged
    (threshold t on distances becomes t * t on squares). */
module Primitives {
  import opened Types
  import opened Outline

  // ---------------------------------------------------------------- point in polygon

  /** The vertex before `poly[i]` on the closed loop (the `j` of the scan). */
  function Pred(poly: seq<Point>, i: int): Point
    requires 0 <= i < |poly|
  {
    poly[if i == 0 then |poly| - 1 else i - 1]
  }

  /** The ray test of one edge a-b: the edge straddles the horizontal line
      through p (half-open in y) and p lies left of the crossing point. The
      division is only reached when the edge straddles, so b.y != a.y there. */
  predicate Crosses(p: Point, a: Point, b: Point) {
    (a.y > p.y) != (b.y > p.y) &&
    p.x < (b.x - a.x) * (p.y - a.y) / (b.y - a.y) + a.x
  }

  /** Parity of the crossings of the edges (i, i-1) for i < k. */
  function CrossingParity(p: Point, poly: seq<Point>, k: int): bool
    requires 0 <= k <= |poly|
  {
    if k == 0 then false else CrossingParity(p, poly, k - 1) != Crosses(p, poly[k - 1], Pred(poly, k - 1))
  }

  /** The odd-even rule over the whole closed loop. */
  predicate InsidePolygon(p: Point, poly: seq<Point>) {
    CrossingParity(p, poly, |poly|)
  }

  method IsPointInPolygon(point: Point, polygon: seq<Point>) returns (inside: bool)
    ensures inside == InsidePolygon(point, polygon)
    ensures polygon == [] ==> !inside
  {
    inside := false;
    var i, j := 0, |polygon| - 1;
    while i < |polygon|
      invariant 0 <= i <= |polygon|
      invariant j == if i == 0 then |polygon| - 1 else i - 1
      invariant inside == CrossingParity(point, polygon, i)
    {
      if Crosses(point, polygon[i], polygon[j]) {
        inside := !inside;
      }
      j := i;
      i := i + 1;
    }
  }

  /** On a straight outline of positive size the ray test accepts exactly the
      half-open rectangle [0, L) x [0, D): points on the top and left edges are
      inside, points on the right and bottom edges are not. */
  lemma InsideStraightOutline(p: Point, len: real, dp: real)
    requires len > 0.0 && dp > 0.0
    ensures InsidePolygon(p, [Point(0.0, 0.0), Point(len, 0.0), Point(len, dp), Point(0.0, dp)])
        <==> 0.0 <= p.x < len && 0.0 <= p.y < dp
  {
    var poly := [Point(0.0, 0.0), Point(len, 0.0), Point(len, dp), Point(0.0, dp)];
    assert Crosses(p, poly[0], poly[3]) <==> 0.0 <= p.y < dp && p.x < 0.0;
    assert !Crosses(p, poly[1], poly[0]);
    assert Crosses(p, poly[2], poly[1]) <==> 0.0 <= p.y < dp && p.x < len;
    assert !Crosses(p, poly[3], poly[2]);
    assert Pred(poly, 0) == poly[3] && Pred(poly, 1) == poly[0] && Pred(poly, 2) == poly[1] && Pred(poly, 3) == poly[2];
    assert CrossingParity(p, poly, 1) == Crosses(p, poly[0], poly[3]);
    assert CrossingParity(p, poly, 2) == CrossingParity(p, poly, 1);
    assert CrossingParity(p, poly, 3) == (Crosses(p, poly[0], poly[3]) != Crosses(p, poly[2], poly[1]));
    assert CrossingParity(p, poly, 4) == CrossingParity(p, poly, 3);
  }

  // ---------------------------------------------------------------- distances

  function SqDist(p: Point, q: Point): real {
    (p.x - q.x) * (p.x - q.x) + (p.y - q.y) * (p.y - q.y)
  }

  /** The point at fraction t along a-b. */
  function Lerp(a: Point, b: Point, t: real): Point {
    Point(a.x + t * (b.x - a.x), a.y + t * (b.y - a.y))
  }

  /** The squared distance from p to the closest point of segment a-b, found by
      clamping the projection parameter; a zero-length segment keeps the
      parameter at -1 and so measures to `a`. */
  function SegmentDistSq(p: Point, a: Point, b: Point): (d: real)
    ensures d >= 0.0
    ensures a == b ==> d == SqDist(p, a)
  {
    SqDistZero(p, Lerp(a, b, ClampedParam(p, a, b)));
    SqDist(p, Lerp(a, b, ClampedParam(p, a, b)))
  }

  function ClampedParam(p: Point, a: Point, b: Point): real {
    Clamp(Dot(p, a, b), SqDist(b, a))
  }

  /** (p - a) . (b - a) */
  function Dot(p: Point, a: Point, b: Point): real {
    (p.x - a.x) * (b.x - a.x) + (p.y - a.y) * (b.y - a.y)
  }

  /** The projection parameter dot / lenSq (or -1 for a zero-length segment),
      clamped to [0, 1]. */
  function Clamp(dot: real, lenSq: real): real {
    var param := if lenSq != 0.0 then dot / lenSq else -1.0;
    if param < 0.0 then 0.0 else if param > 1.0 then 1.0 else param
  }

  /** The part of SqDist(p, Lerp(a, b, t)) that depends on t. */
  function Quad(dot: real, lenSq: real, t: real): real {
    -2.0 * t * dot + t * t * lenSq
  }

  /** SqDist to the point at fraction t is a quadratic in t. */
  lemma SqDistAlong(p: Point, a: Point, b: Point, t: real)
    ensures SqDist(p, Lerp(a, b, t)) == SqDist(p, a) + Quad(Dot(p, a, b), SqDist(b, a), t)
  {
    var ax, ay, c, e := p.x - a.x, p.y - a.y, b.x - a.x, b.y - a.y;
    assert p.x - Lerp(a, b, t).x == ax - t * c;
    assert p.y - Lerp(a, b, t).y == ay - t * e;
    assert (ax - t * c) * (ax - t * c) == ax * ax - 2.0 * t * ax * c + t * t * (c * c);
    assert (ay - t * e) * (ay - t * e) == ay * ay - 2.0 * t * ay * e + t * t * (e * e);
    assert SqDist(b, a) == c * c + e * e;
    assert Quad(Dot(p, a, b), SqDist(b, a), t) == -2.0 * t * (ax * c + ay * e) + t * t * (c * c + e * e);
  }

  /** The clamped parameter minimises the quadratic over [0, 1]. */
  lemma ClampMinimizes(dot: real, lenSq: real, t: real)
    requires lenSq >= 0.0 && (lenSq == 0.0 ==> dot == 0.0)
    requires 0.0 <= t <= 1.0
    ensures 0.0 <= Clamp(dot, lenSq) <= 1.0
    ensures Quad(dot, lenSq, Clamp(dot, lenSq)) <= Quad(dot, lenSq, t)
  {
    var s := Clamp(dot, lenSq);
    var ft := Quad(dot, lenSq, t);
    var fs := Quad(dot, lenSq, s);
    if lenSq == 0.0 {
      assert s == 0.0;
    } else if dot / lenSq < 0.0 {
      assert s == 0.0;
      assert dot < 0.0;
      assert ft - fs == t * (t * lenSq - 2.0 * dot);
      assert t * lenSq >= 0.0;
    } else if dot / lenSq > 1.0 {
      assert s == 1.0;
      assert dot > lenSq;
      assert ft - fs == (1.0 - t) * (2.0 * dot - (t + 1.0) * lenSq);
      assert t * lenSq <= lenSq;
    } else {
      assert s == dot / lenSq;
      assert dot == s * lenSq;
      assert ft - fs == lenSq * ((t - s) * (t - s));
      assert (t - s) * (t - s) >= 0.0;
    }
  }

  /** x * x, with its sign facts. */
  function Sq(x: real): (r: real)
    ensures r == x * x
    ensures r >= 0.0 && (x != 0.0 ==> r > 0.0)
  {
    if x > 0.0 then PositiveProduct(x, x)
    else if x < 0.0 then (NegSquare(x); PositiveProduct(-x, -x))
    else 0.0
  }

  function PositiveProduct(x: real, y: real): (r: real)
    requires x > 0.0 && y > 0.0
    ensures r == x * y && r > 0.0
  {
    assert x * y > 0.0 * y;
    x * y
  }

  /** A product with a positive factor is zero only when the other factor is. */
  lemma MulZero(x: real, y: real)
    requires x * y == 0.0 && y > 0.0
    ensures x == 0.0
  {
    assert x == (x * y) / y;
  }

  lemma NegSquare(x: real)
    ensures (-x) * (-x) == x * x
  {
  }

  /** A squared distance is non-negative, and zero only between equal points. */
  lemma SqDistZero(p: Point, q: Point)
    ensures SqDist(p, q) >= 0.0
    ensures SqDist(p, q) == 0.0 <==> p == q
  {
    var u, v := Sq(p.x - q.x), Sq(p.y - q.y);
  }

  /** The clamped point is at least as close to p as any point of the segment. */
  lemma SegmentMinAt(p: Point, a: Point, b: Point, t: real)
    requires 0.0 <= t <= 1.0
    ensures 0.0 <= ClampedParam(p, a, b) <= 1.0
    ensures SqDist(p, Lerp(a, b, ClampedParam(p, a, b))) <= SqDist(p, Lerp(a, b, t))
  {
    SqDistZero(b, a);
    if SqDist(b, a) == 0.0 {
      assert Dot(p, a, b) == 0.0;
    }
    SqDistAlong(p, a, b, t);
    SqDistAlong(p, a, b, ClampedParam(p, a, b));
    ClampMinimizes(Dot(p, a, b), SqDist(b, a), t);
  }

  /** The segment distance is the smallest squared distance from p to a point
      of the segment, and some point of the segment attains it. */
  lemma SegmentDistIsMinimum(p: Point, a: Point, b: Point)
    ensures forall t :: 0.0 <= t <= 1.0 ==> SegmentDistSq(p, a, b) <= SqDist(p, Lerp(a, b, t))
    ensures exists t :: 0.0 <= t <= 1.0 && SegmentDistSq(p, a, b) == SqDist(p, Lerp(a, b, t))
  {
    SegmentMinAt(p, a, b, 0.0);
    forall t | 0.0 <= t <= 1.0
      ensures SegmentDistSq(p, a, b) <= SqDist(p, Lerp(a, b, t))
    {
      SegmentMinAt(p, a, b, t);
    }
  }

  /** `distancePointToLineSegment`, returning the squared distance. */
  method DistancePointToLineSegment(point: Point, lineStart: Point, lineEnd: Point) returns (dist: real)
    ensures dist == SegmentDistSq(point, lineStart, lineEnd)
  {
    var a := point.x - lineStart.x;
    var b := point.y - lineStart.y;
    var c := lineEnd.x - lineStart.x;
    var d := lineEnd.y - lineStart.y;
    var dot := a * c + b * d;
    var lenSq := c * c + d * d;
    assert dot == Dot(point, lineStart, lineEnd) && lenSq == SqDist(lineEnd, lineStart);
    assert Clamp(dot, lenSq) == ClampedParam(point, lineStart, lineEnd);
    var param := -1.0;
    if lenSq != 0.0 {
      param := dot / lenSq;
    }
    ghost var s := Clamp(dot, lenSq);
    var xx, yy;
    if param < 0.0 {
      xx, yy := lineStart.x, lineStart.y;
      assert s == 0.0;
    } else if param > 1.0 {
      xx, yy := lineEnd.x, lineEnd.y;
      assert s == 1.0;
    } else {
      xx, yy := lineStart.x + param * c, lineStart.y + param * d;
      assert s == param;
    }
    assert Point(xx, yy) == Lerp(lineStart, lineEnd, s);
    var dx := point.x - xx;
    var dy := point.y - yy;
    dist := dx * dx + dy * dy;
    assert dist == SqDist(point, Point(xx, yy));
  }

  /** Squared distance or +infinity (the minimum over no edges). */
  datatype Distance = Infinite | Finite(sq: real)

  function MinDistance(u: Distance, v: Distance): Distance {
    if u.Infinite? then v
    else if v.Infinite? then u
    else Finite(Min(u.sq, v.sq))
  }

  /** The squared distance from p to the edge starting at poly[i]. */
  function EdgeDistSq(p: Point, poly: seq<Point>, i: int): real
    requires 0 <= i < |poly|
  {
    SegmentDistSq(p, poly[i], Succ(poly, i))
  }

  /** The minimum over the edges starting at poly[0 .. k). */
  function EdgeDistUpTo(p: Point, poly: seq<Point>, k: int): (r: Distance)
    requires 0 <= k <= |poly|
    ensures r.Infinite? <==> k == 0
    ensures r.Finite? ==> r.sq >= 0.0
  {
    if k == 0 then Infinite
    else MinDistance(EdgeDistUpTo(p, poly, k - 1), Finite(EdgeDistSq(p, poly, k - 1)))
  }

  /** The minimum over the first k edges is at most each of their distances and
      equal to one of them. */
  lemma {:induction false} EdgeDistUpToIsMinimum(p: Point, poly: seq<Point>, k: int)
    requires 0 < k <= |poly|
    ensures forall i :: 0 <= i < k ==> EdgeDistUpTo(p, poly, k).sq <= EdgeDistSq(p, poly, i)
    ensures exists i :: 0 <= i < k && EdgeDistUpTo(p, poly, k).sq == EdgeDistSq(p, poly, i)
  {
    var r := EdgeDistUpTo(p, poly, k);
    if k == 1 {
      assert r.sq == EdgeDistSq(p, poly, 0);
    } else {
      EdgeDistUpToIsMinimum(p, poly, k - 1);
      var prev := EdgeDistUpTo(p, poly, k - 1);
      var i :| 0 <= i < k - 1 && prev.sq == EdgeDistSq(p, poly, i);
      if r.sq == prev.sq {
        assert r.sq == EdgeDistSq(p, poly, i);
      } else {
        assert r.sq == EdgeDistSq(p, poly, k - 1);
      }
    }
  }

  /** The squared distance from p to the closed outline: infinite for an empty
      outline, otherwise the smallest of the edge distances. */
  function DistanceToEdgeSq(p: Point, poly: seq<Point>): (r: Distance)
    ensures r.Infinite? <==> poly == []
  {
    EdgeDistUpTo(p, poly, |poly|)
  }

  method GetDistanceToEdge(point: Point, polygon: seq<Point>) returns (minDistance: Distance)
    ensures minDistance == DistanceToEdgeSq(point, polygon)
  {
    minDistance := Infinite;
    for i := 0 to |polygon|
      invariant minDistance == EdgeDistUpTo(point, polygon, i)
    {
      var j := (i + 1) % |polygon|;
      var distance := DistancePointToLineSegment(point, polygon[i], polygon[j]);
      minDistance := MinDistance(minDistance, Finite(distance));
    }
  }

  /** The distance to the outline is at most the distance to any point of any
      edge, and some point of some edge attains it. */
  lemma DistanceToEdgeIsMinimum(p: Point, poly: seq<Point>, i: int, t: real)
    requires 0 <= i < |poly| && 0.0 <= t <= 1.0
    ensures DistanceToEdgeSq(p, poly).Finite?
    ensures 0.0 <= DistanceToEdgeSq(p, poly).sq <= SqDist(p, Lerp(poly[i], Succ(poly, i), t))
  {
    EdgeDistUpToIsMinimum(p, poly, |poly|);
    SegmentDistIsMinimum(p, poly[i], Succ(poly, i));
    assert DistanceToEdgeSq(p, poly).sq <= EdgeDistSq(p, poly, i);
  }

  /** Some point of some edge is exactly at the distance to the outline. */
  lemma DistanceToEdgeAttained(p: Point, poly: seq<Point>) returns (i: int, t: real)
    requires poly != []
    ensures 0 <= i < |poly| && 0.0 <= t <= 1.0
    ensures DistanceToEdgeSq(p, poly).sq == SqDist(p, Lerp(poly[i], Succ(poly, i), t))
  {
    EdgeDistUpToIsMinimum(p, poly, |poly|);
    i :| 0 <= i < |poly| && DistanceToEdgeSq(p, poly).sq == EdgeDistSq(p, poly, i);
    SegmentDistIsMinimum(p, poly[i], Succ(poly, i));
    t :| 0.0 <= t <= 1.0 && SegmentDistSq(p, poly[i], Succ(poly, i)) == SqDist(p, Lerp(poly[i], Succ(poly, i), t));
  }

  // ---------------------------------------------------------------- rectangles

  /** An axis-aligned rectangle by its top-left corner and size. */
  datatype Rect = Rect(x: real, y: real, width: real, height: real)

  predicate DoRectanglesOverlap(r1: Rect, r2: Rect) {
    !(r1.x + r1.width <= r2.x || r2.x + r2.width <= r1.x ||
      r1.y + r1.height <= r2.y || r2.y + r2.height <= r1.y)
  }

  predicate StrictlyInside(p: Point, r: Rect) {
    r.x < p.x < r.x + r.width && r.y < p.y < r.y + r.height
  }

  lemma OverlapSymmetric(r1: Rect, r2: Rect)
    ensures DoRectanglesOverlap(r1, r2) == DoRectanglesOverlap(r2, r1)
  {
  }

  /** A rectangle overlaps itself exactly when both its sides are positive. */
  lemma OverlapSelf(r: Rect)
    ensures DoRectanglesOverlap(r, r) <==> r.width > 0.0 && r.height > 0.0
  {
  }

  /** Rectangles that only share an edge (or are further apart) do not overlap. */
  lemma TouchingDoNotOverlap(r1: Rect, r2: Rect)
    requires r1.x + r1.width == r2.x || r1.y + r1.height == r2.y
    ensures !DoRectanglesOverlap(r1, r2)
  {
  }

  /** For rectangles of positive size, the overlap test holds exactly when some
      point lies strictly inside both. */
  lemma OverlapMeansCommonInterior(r1: Rect, r2: Rect)
    requires r1.width > 0.0 && r1.height > 0.0 && r2.width > 0.0 && r2.height > 0.0
    ensures DoRectanglesOverlap(r1, r2) <==> exists p :: StrictlyInside(p, r1) && StrictlyInside(p, r2)
  {
    if DoRectanglesOverlap(r1, r2) {
      var px := (Max(r1.x, r2.x) + Min(r1.x + r1.width, r2.x + r2.width)) / 2.0;
      var py := (Max(r1.y, r2.y) + Min(r1.y + r1.height, r2.y + r2.height)) / 2.0;
      assert StrictlyInside(Point(px, py), r1) && StrictlyInside(Point(px, py), r2);
    }
  }

  /** A point strictly inside two rectangles makes them overlap, whatever their size. */
  lemma CommonInteriorOverlaps(r1: Rect, r2: Rect, p: Point)
    requires StrictlyInside(p, r1) && StrictlyInside(p, r2)
    ensures DoRectanglesOverlap(r1, r2)
  {
  }

  // ---------------------------------------------------------------- grid

  /** The nearest multiple of the grid size (halves rounded up in units of the grid). */
  function SnapToGrid(value: real, gridSize: real): (r: real)
    requires gridSize != 0.0
    ensures (r / gridSize).Floor as real == r / gridSize
    ensures Abs(r - value) <= Abs(gridSize) / 2.0
  {
    var k := Round(value / gridSize);
    assert k as real * gridSize / gridSize == k as real;
    SnapBound(value, gridSize, k);
    k as real * gridSize
  }

  lemma SnapBound(value: real, g: real, k: int)
    requires g != 0.0
    requires value / g - 0.5 < k as real <= value / g + 0.5
    ensures Abs(k as real * g - value) <= Abs(g) / 2.0
  {
    var q := value / g;
    assert value == q * g;
    var e := k as real - q;
    assert -0.5 < e <= 0.5;
    assert k as real * g - value == e * g;
    if g > 0.0 {
      assert -0.5 * g <= e * g <= 0.5 * g;
    } else {
      assert 0.5 * g <= e * g <= -0.5 * g;
    }
  }
}
