/** Where a cutout sits: its offsets are measured from a corner of the outline's
    bounding box (left or right, front or back) to its centre. */
module Positioning {
  import opened Types
  import opened Outline

  datatype Offsets = Offsets(offsetX: real, offsetY: real)

  /** `calculateCutoutPosition`: the centre of a cutout, (0, 0) without an outline. */
  function CalculateCutoutPosition(c: Cutout, poly: seq<Point>): (r: Point)
    ensures poly == [] ==> r == Point(0.0, 0.0)
    ensures poly != [] ==> var b := BoundingBox(poly);
      (c.referenceX == Left ==> r.x - b.minX == c.offsetX) && (c.referenceX == Right ==> b.maxX - r.x == c.offsetX) &&
      (c.referenceY == Front ==> r.y - b.minY == c.offsetY) && (c.referenceY == Back ==> b.maxY - r.y == c.offsetY)
  {
    if |poly| == 0 then Point(0.0, 0.0)
    else
      var b := BoundingBox(poly);
      var x := if c.referenceX == Left then b.minX + c.offsetX else b.maxX - c.offsetX;
      var y := if c.referenceY == Front then b.minY + c.offsetY else b.maxY - c.offsetY;
      Point(x, y)
  }

  /** `calculateOffsetsFromPosition`: the offsets of a centre from the chosen
      corner, clamped at 0; (0, 0) without an outline. */
  function CalculateOffsetsFromPosition(pos: Point, poly: seq<Point>, refX: ReferenceX, refY: ReferenceY): (r: Offsets)
    ensures r.offsetX >= 0.0 && r.offsetY >= 0.0
    ensures poly == [] ==> r == Offsets(0.0, 0.0)
  {
    if |poly| == 0 then Offsets(0.0, 0.0)
    else
      var b := BoundingBox(poly);
      var ox := if refX == Left then pos.x - b.minX else b.maxX - pos.x;
      var oy := if refY == Front then pos.y - b.minY else b.maxY - pos.y;
      Offsets(Max(0.0, ox), Max(0.0, oy))
  }

  /** Offsets -> centre -> offsets gives back non-negative offsets exactly. */
  lemma OffsetsRoundTrip(c: Cutout, poly: seq<Point>)
    requires poly != [] && c.offsetX >= 0.0 && c.offsetY >= 0.0
    ensures CalculateOffsetsFromPosition(CalculateCutoutPosition(c, poly), poly, c.referenceX, c.referenceY)
      == Offsets(c.offsetX, c.offsetY)
  {
  }

  /** Centre -> offsets -> centre gives back any centre inside the bounding box,
      whichever corner the offsets are measured from. */
  lemma PositionRoundTrip(pos: Point, poly: seq<Point>, refX: ReferenceX, refY: ReferenceY, c: Cutout)
    requires poly != [] && InBox(pos, BoundingBox(poly))
    ensures var o := CalculateOffsetsFromPosition(pos, poly, refX, refY);
      CalculateCutoutPosition(c.(offsetX := o.offsetX, offsetY := o.offsetY, referenceX := refX, referenceY := refY), poly) == pos
  {
  }

  /** A centre outside the box is pulled back to the chosen corner's edge: the
      clamp makes positions left of (or in front of) the box unreachable. */
  lemma OffsetsClampAtCorner(pos: Point, poly: seq<Point>)
    requires poly != [] && pos.x < BoundingBox(poly).minX && pos.y < BoundingBox(poly).minY
    ensures CalculateOffsetsFromPosition(pos, poly, Left, Front) == Offsets(0.0, 0.0)
  {
  }

  /** `isPointInCutout`: the closed rectangle of the cutout around its centre. */
  predicate IsPointInCutout(p: Point, c: Cutout, poly: seq<Point>) {
    var pos := CalculateCutoutPosition(c, poly);
    pos.x - c.width / 2.0 <= p.x <= pos.x + c.width / 2.0 &&
    pos.y - c.depth / 2.0 <= p.y <= pos.y + c.depth / 2.0
  }

  /** A cutout contains its own centre exactly when its sizes are not negative. */
  lemma CentreInCutout(c: Cutout, poly: seq<Point>)
    ensures IsPointInCutout(CalculateCutoutPosition(c, poly), c, poly) <==> c.width >= 0.0 && c.depth >= 0.0
  {
  }
}
