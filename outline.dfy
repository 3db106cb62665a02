/** The outer boundary of a countertop for the straight, L and U layouts, and
    its axis-aligned bounding box. */
module Outline {
  import opened Types

  /** The required dimension fields of the layout, tested the way the
      generator tests them: missing or zero empties the outline, negative does
      not. The U layout only requires `depth`. */
  predicate OutlineMissing(layout: Layout, d: Dimensions) {
    match layout
    case Straight => Falsy(d.length) || Falsy(d.depth)
    case LShape => Falsy(d.lengthA) || Falsy(d.lengthB) || Falsy(d.depth)
    case UShape => Falsy(d.depth)
  }

  function VertexCount(layout: Layout): nat {
    match layout
    case Straight => 4
    case LShape => 6
    case UShape => 8
  }

  /** The outline, vertex order as drawn: [0] is the origin and [0]->[1] runs
      along the top edge. */
  function GeneratePolygon(layout: Layout, d: Dimensions, orientation: Orientation): (r: seq<Point>)
    ensures r == [] <==> OutlineMissing(layout, d)
    ensures r != [] ==> |r| == VertexCount(layout) && r[0] == Point(0.0, 0.0)
  {
    match layout
    case Straight =>
      if Falsy(d.length) || Falsy(d.depth) then []
      else
        var l, dp := d.length.value, d.depth.value;
        [Point(0.0, 0.0), Point(l, 0.0), Point(l, dp), Point(0.0, dp)]
    case LShape =>
      if Falsy(d.lengthA) || Falsy(d.lengthB) || Falsy(d.depth) then []
      else
        var a, b, dp := d.lengthA.value, d.lengthB.value, d.depth.value;
        if orientation == LeftL then
          [Point(0.0, 0.0), Point(a, 0.0), Point(a, dp), Point(dp, dp), Point(dp, dp + b), Point(0.0, dp + b)]
        else
          [Point(0.0, 0.0), Point(a, 0.0), Point(a, dp + b), Point(a - dp, dp + b), Point(a - dp, dp), Point(0.0, dp)]
    case UShape =>
      if Falsy(d.depth) then []
      else
        var dp := d.depth.value;
        var l, r, c := OrZero(d.lengthLeft), OrZero(d.lengthRight), OrZero(d.gapWidth);
        [Point(0.0, 0.0), Point(c, 0.0), Point(c, r + dp), Point(c - dp, r + dp),
         Point(c - dp, dp), Point(dp, dp), Point(dp, l + dp), Point(0.0, l + dp)]
  }

  /** The vertex after `poly[i]` on the closed loop. */
  function Succ(poly: seq<Point>, i: int): Point
    requires 0 <= i < |poly|
  {
    poly[(i + 1) % |poly|]
  }

  /** Every edge of the closed loop is horizontal or vertical. */
  predicate AxisAligned(poly: seq<Point>) {
    forall i :: 0 <= i < |poly| ==> poly[i].x == Succ(poly, i).x || poly[i].y == Succ(poly, i).y
  }

  lemma OutlineAxisAligned(layout: Layout, d: Dimensions, orientation: Orientation)
    ensures AxisAligned(GeneratePolygon(layout, d, orientation))
  {
    var r := GeneratePolygon(layout, d, orientation);
    forall i | 0 <= i < |r|
      ensures r[i].x == Succ(r, i).x || r[i].y == Succ(r, i).y
    {
      if i == |r| - 1 {
        assert (i + 1) % |r| == 0;
      } else {
        assert (i + 1) % |r| == i + 1;
      }
    }
  }

  lemma StraightOutline(d: Dimensions, orientation: Orientation)
    requires !Falsy(d.length) && !Falsy(d.depth)
    ensures GeneratePolygon(Straight, d, orientation) ==
      [Point(0.0, 0.0), Point(d.length.value, 0.0), Point(d.length.value, d.depth.value), Point(0.0, d.depth.value)]
  {
  }

  /** The repository's test: a 100 x 60 straight top has four vertices, the
      first at the origin and the third at (100, 60). */
  lemma StraightOutlineExample()
    ensures var p := GeneratePolygon(Straight, Dimensions(Some(100.0), Some(60.0), None, None, None, None, None), LeftL);
      |p| == 4 && p[0] == Point(0.0, 0.0) && p[2] == Point(100.0, 60.0)
  {
  }

  lemma LOutlineStart(d: Dimensions, orientation: Orientation)
    requires !OutlineMissing(LShape, d)
    ensures var p := GeneratePolygon(LShape, d, orientation);
      |p| == 6 && p[0] == Point(0.0, 0.0) && p[1] == Point(d.lengthA.value, 0.0)
  {
  }

  /** Axis-aligned bounding box of a non-empty vertex list. */
  datatype Box = Box(minX: real, maxX: real, minY: real, maxY: real)

  predicate InBox(p: Point, b: Box) {
    b.minX <= p.x <= b.maxX && b.minY <= p.y <= b.maxY
  }

  function BoundingBox(poly: seq<Point>): (b: Box)
    requires |poly| > 0
    ensures forall i :: 0 <= i < |poly| ==> InBox(poly[i], b)
  {
    if |poly| == 1 then
      Box(poly[0].x, poly[0].x, poly[0].y, poly[0].y)
    else
      var t := BoundingBox(poly[1..]);
      assert forall i :: 1 <= i < |poly| ==> poly[i] == poly[1..][i - 1];
      Box(Min(poly[0].x, t.minX), Max(poly[0].x, t.maxX), Min(poly[0].y, t.minY), Max(poly[0].y, t.maxY))
  }

  /** Each side of the bounding box is touched by a vertex, so no smaller
      box holds them all. */
  lemma {:induction false} BoundingBoxAttained(poly: seq<Point>)
    requires |poly| > 0
    ensures var b := BoundingBox(poly);
      (exists i :: 0 <= i < |poly| && poly[i].x == b.minX) && (exists i :: 0 <= i < |poly| && poly[i].x == b.maxX) &&
      (exists i :: 0 <= i < |poly| && poly[i].y == b.minY) && (exists i :: 0 <= i < |poly| && poly[i].y == b.maxY)
  {
    var b := BoundingBox(poly);
    if |poly| == 1 {
      assert poly[0].x == b.minX && poly[0].x == b.maxX && poly[0].y == b.minY && poly[0].y == b.maxY;
    } else {
      var rest := poly[1..];
      var t := BoundingBox(rest);
      BoundingBoxAttained(rest);
      var i0 :| 0 <= i0 < |rest| && rest[i0].x == t.minX;
      var i1 :| 0 <= i1 < |rest| && rest[i1].x == t.maxX;
      var j0 :| 0 <= j0 < |rest| && rest[j0].y == t.minY;
      var j1 :| 0 <= j1 < |rest| && rest[j1].y == t.maxY;
      assert poly[i0 + 1] == rest[i0] && poly[i1 + 1] == rest[i1] && poly[j0 + 1] == rest[j0] && poly[j1 + 1] == rest[j1];
      var a0 := if poly[0].x <= t.minX then 0 else i0 + 1;
      var a1 := if poly[0].x >= t.maxX then 0 else i1 + 1;
      var c0 := if poly[0].y <= t.minY then 0 else j0 + 1;
      var c1 := if poly[0].y >= t.maxY then 0 else j1 + 1;
      assert poly[a0].x == b.minX && poly[a1].x == b.maxX && poly[c0].y == b.minY && poly[c1].y == b.maxY;
    }
  }

  /** A U top with 0 < depth <= C spans x from 0 to C, and its arms end at
      lengthLeft + depth and lengthRight + depth. */
  lemma UOutlineExtent(d: Dimensions, orientation: Orientation)
    requires !Falsy(d.depth) && 0.0 < d.depth.value <= OrZero(d.gapWidth)
    requires OrZero(d.lengthLeft) >= 0.0 && OrZero(d.lengthRight) >= 0.0
    ensures var p := GeneratePolygon(UShape, d, orientation);
      var b := BoundingBox(p);
      |p| == 8 && b.minX == 0.0 && b.maxX == OrZero(d.gapWidth) && b.minY == 0.0
      && b.maxY == Max(OrZero(d.lengthLeft), OrZero(d.lengthRight)) + d.depth.value
      && p[6].y == OrZero(d.lengthLeft) + d.depth.value
      && p[2].y == OrZero(d.lengthRight) + d.depth.value
  {
    var dp, l, r, c := d.depth.value, OrZero(d.lengthLeft), OrZero(d.lengthRight), OrZero(d.gapWidth);
    var p := GeneratePolygon(UShape, d, orientation);
    assert p == [Point(0.0, 0.0), Point(c, 0.0), Point(c, r + dp), Point(c - dp, r + dp),
                 Point(c - dp, dp), Point(dp, dp), Point(dp, l + dp), Point(0.0, l + dp)];
    var bx := Box(0.0, c, 0.0, Max(l, r) + dp);
    assert forall i :: 0 <= i < 8 ==> InBox(p[i], bx);
    BoundingBoxIs(p, bx, 0, 1, 0, if l >= r then 6 else 2);
  }

  /** A box that holds every vertex and whose four sides are each touched by a
      vertex is the bounding box. */
  lemma BoundingBoxIs(poly: seq<Point>, bx: Box, i0: int, i1: int, j0: int, j1: int)
    requires forall i :: 0 <= i < |poly| ==> InBox(poly[i], bx)
    requires 0 <= i0 < |poly| && 0 <= i1 < |poly| && 0 <= j0 < |poly| && 0 <= j1 < |poly|
    requires poly[i0].x == bx.minX && poly[i1].x == bx.maxX && poly[j0].y == bx.minY && poly[j1].y == bx.maxY
    ensures BoundingBox(poly) == bx
  {
    var b := BoundingBox(poly);
    BoundingBoxAttained(poly);
    assert InBox(poly[i0], b) && InBox(poly[i1], b) && InBox(poly[j0], b) && InBox(poly[j1], b);
  }
}
