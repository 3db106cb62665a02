/** Dimension lines drawn around the countertop: the overall sizes of the
    outline, chosen by layout, followed by three lines per cutout (its width
    and its two offsets from the reference corner). Labels are produced by a
    formatter that converts centimetres to the display unit; turning the
    resulting number and unit label into text is a parameter. */
module Dimensioning {
  import opened Types
  import opened Outline
  import opened Positioning
  import opened Settings

  datatype LineKind = Horizontal | Vertical

  datatype DimensionLine = DimensionLine(start: Point, end: Point, text: string, offset: real, kind: LineKind)

  /** "cm", "mm" or "in". */
  function UnitLabel(units: Unit): string {
    match units
    case Cm => "cm"
    case Mm => "mm"
    case Inches => "in"
  }

  /** The number a label shows for a length in centimetres: converted to the
      display unit, then rounded to whole millimetres or to two decimals. */
  function DisplayNumber(units: Unit, cm: real): (r: real)
    ensures units == Cm ==> r == RoundCents(cm)
    ensures units != Cm ==> r == ConvertValue(cm, Some(Cm), Some(units), units)
  {
    var v := ConvertValue(cm, Some(Cm), Some(units), units);
    var n := if units == Mm then RoundWhole(v) else RoundCents(v);
    RoundTwiceWhole(units, cm);
    RoundTwiceCents(units, cm);
    n
  }

  lemma RoundTwiceWhole(units: Unit, cm: real)
    ensures units == Mm ==> var v := ConvertValue(cm, Some(Cm), Some(units), units); RoundWhole(v) == v
  {
    if units == Mm {
      var v := ConvertValue(cm, Some(Cm), Some(Mm), units);
      assert v == Round(cm * CM_TO_MM) as real;
      RoundOfWhole(Round(cm * CM_TO_MM));
    }
  }

  lemma RoundTwiceCents(units: Unit, cm: real)
    ensures units == Inches ==> var v := ConvertValue(cm, Some(Cm), Some(units), units); RoundCents(v) == v
  {
    if units == Inches {
      var n := Round(cm * CM_TO_INCHES * 100.0);
      var v := ConvertValue(cm, Some(Cm), Some(Inches), units);
      assert v == n as real / 100.0;
      assert v * 100.0 == n as real;
      RoundOfWhole(n);
    }
  }

  /** `fmt`: the label of a length given in centimetres; `render` writes a
      number followed by the unit label as text. */
  function Fmt(units: Unit, render: (real, string) -> string, cm: real): string {
    render(DisplayNumber(units, cm), UnitLabel(units))
  }

  /** The lines giving the overall sizes of a non-empty outline with box `b`. */
  function OutlineLines(design: Design, b: Box, fmt: real -> string): (r: seq<DimensionLine>)
    requires !OutlineMissing(design.layout, design.dimensions)
    ensures |r| == OutlineLineCount(design)
  {
    var dims := design.dimensions;
    match design.layout
    case Straight =>
      [DimensionLine(Point(b.minX, b.minY), Point(b.maxX, b.minY), fmt(dims.length.value), -30.0, Horizontal),
       DimensionLine(Point(b.minX, b.minY), Point(b.minX, b.maxY), fmt(dims.depth.value), -30.0, Vertical)]
    case LShape =>
      var a, lb, dp := OrElse(dims.lengthA, 0.0), OrElse(dims.lengthB, 0.0), OrElse(dims.depth, 0.0);
      [DimensionLine(Point(b.minX, b.minY), Point(a, b.minY), fmt(a), -30.0, Horizontal),
       if design.orientation == LeftL
       then DimensionLine(Point(b.minX, dp), Point(b.minX, b.maxY), fmt(lb), -50.0, Vertical)
       else DimensionLine(Point(a, dp), Point(a, b.maxY), fmt(lb), 20.0, Vertical),
       DimensionLine(Point(b.minX, b.minY), Point(b.minX, dp), fmt(dp), -30.0, Vertical)]
    case UShape =>
      var d, c := OrElse(dims.depth, 0.0), OrElse(dims.gapWidth, 0.0);
      var g := Max(0.0, c - 2.0 * d);
      var ll, lr := OrElse(dims.lengthLeft, 0.0), OrElse(dims.lengthRight, 0.0);
      [DimensionLine(Point(b.minX, b.minY), Point(b.maxX, b.minY), fmt(c), -30.0, Horizontal)]
      + (if d > 0.0 then
           [DimensionLine(Point(b.minX, b.minY), Point(b.minX + d, b.minY), fmt(d), -18.0, Horizontal),
            DimensionLine(Point(b.maxX - d, b.minY), Point(b.maxX, b.minY), fmt(d), -18.0, Horizontal),
            DimensionLine(Point(b.minX + d, b.minY), Point(b.maxX - d, b.minY), fmt(g), -45.0, Horizontal)]
         else [])
      + [DimensionLine(Point(b.minX, b.minY + d), Point(b.minX, b.minY + d + ll), fmt(ll), -30.0, Vertical),
         DimensionLine(Point(b.maxX, b.minY + d), Point(b.maxX, b.minY + d + lr), fmt(lr), 20.0, Vertical)]
  }

  /** Two lines for a straight top, three for an L, three for a U plus three
      more when its depth is positive. */
  function OutlineLineCount(design: Design): nat {
    match design.layout
    case Straight => 2
    case LShape => 3
    case UShape => if OrElse(design.dimensions.depth, 0.0) > 0.0 then 6 else 3
  }

  /** The three lines of one cutout: its width across the centre's front
      edge, its X offset and its Y offset from the reference sides of `b`. */
  function CutoutLines(c: Cutout, poly: seq<Point>, b: Box, fmt: real -> string): (r: seq<DimensionLine>)
    ensures |r| == 3
  {
    var pos := CalculateCutoutPosition(c, poly);
    [DimensionLine(Point(pos.x - c.width / 2.0, pos.y - c.depth / 2.0), Point(pos.x + c.width / 2.0, pos.y - c.depth / 2.0),
       fmt(c.width) + "×" + fmt(c.depth), -15.0, Horizontal),
     if c.referenceX == Left
     then DimensionLine(Point(b.minX, pos.y), Point(pos.x, pos.y), fmt(c.offsetX), 15.0, Horizontal)
     else DimensionLine(Point(pos.x, pos.y), Point(b.maxX, pos.y), fmt(c.offsetX), 15.0, Horizontal),
     if c.referenceY == Front
     then DimensionLine(Point(pos.x, b.minY), Point(pos.x, pos.y), fmt(c.offsetY), 15.0, Vertical)
     else DimensionLine(Point(pos.x, pos.y), Point(pos.x, b.maxY), fmt(c.offsetY), 15.0, Vertical)]
  }

  /** The lines of all cutouts, in order. */
  function AllCutoutLines(cutouts: seq<Cutout>, poly: seq<Point>, b: Box, fmt: real -> string): (r: seq<DimensionLine>)
    ensures |r| == 3 * |cutouts|
  {
    if cutouts == [] then []
    else AllCutoutLines(cutouts[..|cutouts| - 1], poly, b, fmt) + CutoutLines(cutouts[|cutouts| - 1], poly, b, fmt)
  }

  /** Every dimension line of a design: none without an outline, else the
      outline's lines followed by the cutouts'. */
  function DimensionLines(design: Design, fmt: real -> string): (r: seq<DimensionLine>)
    ensures OutlineMissing(design.layout, design.dimensions) ==> r == []
    ensures !OutlineMissing(design.layout, design.dimensions) ==> |r| == OutlineLineCount(design) + 3 * |design.cutouts|
  {
    var poly := GeneratePolygon(design.layout, design.dimensions, design.orientation);
    if poly == [] then []
    else
      var b := BoundingBox(poly);
      OutlineLines(design, b, fmt) + AllCutoutLines(design.cutouts, poly, b, fmt)
  }

  /** `generateDimensionLines`: pushes the outline's lines, chosen by
      layout, then three lines per cutout. */
  method GenerateDimensionLines(design: Design, fmt: real -> string) returns (lines: seq<DimensionLine>)
    ensures lines == DimensionLines(design, fmt)
  {
    lines := [];
    var polygon := GeneratePolygon(design.layout, design.dimensions, design.orientation);
    if |polygon| == 0 {
      return;
    }
    var b := BoundingBox(polygon);
    lines := PushOutlineLines(lines, design, b, fmt);
    lines := PushAllCutoutLines(lines, design.cutouts, polygon, b, fmt);
  }

  /** The cutout `forEach`: appends three lines per cutout, in order. */
  method PushAllCutoutLines(lines0: seq<DimensionLine>, cutouts: seq<Cutout>, polygon: seq<Point>, b: Box, fmt: real -> string)
    returns (lines: seq<DimensionLine>)
    ensures lines == lines0 + AllCutoutLines(cutouts, polygon, b, fmt)
  {
    lines := lines0;
    var i := 0;
    while i < |cutouts|
      invariant 0 <= i <= |cutouts|
      invariant lines == lines0 + AllCutoutLines(cutouts[..i], polygon, b, fmt)
    {
      ghost var done := AllCutoutLines(cutouts[..i], polygon, b, fmt);
      var next := PushCutoutLines([], cutouts[i], polygon, b, fmt);
      lines := lines + next;
      CutoutLinesStep(cutouts, i, polygon, b, fmt);
      assert lines == lines0 + (done + next);
      i := i + 1;
    }
    assert cutouts[..i] == cutouts;
  }

  /** The lines of the first i + 1 cutouts extend those of the first i. */
  lemma CutoutLinesStep(cutouts: seq<Cutout>, i: int, poly: seq<Point>, b: Box, fmt: real -> string)
    requires 0 <= i < |cutouts|
    ensures AllCutoutLines(cutouts[..i + 1], poly, b, fmt)
      == AllCutoutLines(cutouts[..i], poly, b, fmt) + CutoutLines(cutouts[i], poly, b, fmt)
  {
    assert cutouts[..i + 1][..i] == cutouts[..i];
  }

  /** The layout `switch`: appends the outline's lines to `lines`. */
  method PushOutlineLines(lines0: seq<DimensionLine>, design: Design, b: Box, fmt: real -> string)
    returns (lines: seq<DimensionLine>)
    requires !OutlineMissing(design.layout, design.dimensions)
    ensures lines == lines0 + OutlineLines(design, b, fmt)
  {
    lines := lines0;
    var dims := design.dimensions;
    match design.layout {
      case Straight =>
        lines := lines + [DimensionLine(Point(b.minX, b.minY), Point(b.maxX, b.minY), fmt(dims.length.value), -30.0, Horizontal)];
        lines := lines + [DimensionLine(Point(b.minX, b.minY), Point(b.minX, b.maxY), fmt(dims.depth.value), -30.0, Vertical)];
      case LShape =>
        var a := OrElse(dims.lengthA, 0.0);
        var dp := OrElse(dims.depth, 0.0);
        lines := lines + [DimensionLine(Point(b.minX, b.minY), Point(a, b.minY), fmt(a), -30.0, Horizontal)];
        if design.orientation == LeftL {
          lines := lines + [DimensionLine(Point(b.minX, dp), Point(b.minX, b.maxY), fmt(OrElse(dims.lengthB, 0.0)), -50.0, Vertical)];
        } else {
          lines := lines + [DimensionLine(Point(a, dp), Point(a, b.maxY), fmt(OrElse(dims.lengthB, 0.0)), 20.0, Vertical)];
        }
        lines := lines + [DimensionLine(Point(b.minX, b.minY), Point(b.minX, dp), fmt(dp), -30.0, Vertical)];
      case UShape =>
        var d := OrElse(dims.depth, 0.0);
        var c := OrElse(dims.gapWidth, 0.0);
        var g := Max(0.0, c - 2.0 * d);
        lines := lines + [DimensionLine(Point(b.minX, b.minY), Point(b.maxX, b.minY), fmt(c), -30.0, Horizontal)];
        if d > 0.0 {
          lines := lines + [DimensionLine(Point(b.minX, b.minY), Point(b.minX + d, b.minY), fmt(d), -18.0, Horizontal)];
          lines := lines + [DimensionLine(Point(b.maxX - d, b.minY), Point(b.maxX, b.minY), fmt(d), -18.0, Horizontal)];
          lines := lines + [DimensionLine(Point(b.minX + d, b.minY), Point(b.maxX - d, b.minY), fmt(g), -45.0, Horizontal)];
        }
        var ll := OrElse(dims.lengthLeft, 0.0);
        var lr := OrElse(dims.lengthRight, 0.0);
        lines := lines + [DimensionLine(Point(b.minX, b.minY + d), Point(b.minX, b.minY + d + ll), fmt(ll), -30.0, Vertical)];
        lines := lines + [DimensionLine(Point(b.maxX, b.minY + d), Point(b.maxX, b.minY + d + lr), fmt(lr), 20.0, Vertical)];
    }
  }

  /** One pass of the cutout `forEach`: appends the size line and the two
      offset lines of `cutout`. */
  method PushCutoutLines(lines0: seq<DimensionLine>, cutout: Cutout, polygon: seq<Point>, b: Box, fmt: real -> string)
    returns (lines: seq<DimensionLine>)
    ensures lines == lines0 + CutoutLines(cutout, polygon, b, fmt)
  {
    lines := lines0;
    var pos := CalculateCutoutPosition(cutout, polygon);
    lines := lines + [DimensionLine(Point(pos.x - cutout.width / 2.0, pos.y - cutout.depth / 2.0),
                                    Point(pos.x + cutout.width / 2.0, pos.y - cutout.depth / 2.0),
                                    fmt(cutout.width) + "×" + fmt(cutout.depth), -15.0, Horizontal)];
    if cutout.referenceX == Left {
      lines := lines + [DimensionLine(Point(b.minX, pos.y), Point(pos.x, pos.y), fmt(cutout.offsetX), 15.0, Horizontal)];
    } else {
      lines := lines + [DimensionLine(Point(pos.x, pos.y), Point(b.maxX, pos.y), fmt(cutout.offsetX), 15.0, Horizontal)];
    }
    if cutout.referenceY == Front {
      lines := lines + [DimensionLine(Point(pos.x, b.minY), Point(pos.x, pos.y), fmt(cutout.offsetY), 15.0, Vertical)];
    } else {
      lines := lines + [DimensionLine(Point(pos.x, pos.y), Point(pos.x, b.maxY), fmt(cutout.offsetY), 15.0, Vertical)];
    }
  }

  /** The lines of cutout k sit at positions 3k .. 3k + 2 of the cutout lines. */
  lemma {:induction false} AllCutoutLinesAt(cutouts: seq<Cutout>, k: int, poly: seq<Point>, b: Box, fmt: real -> string)
    requires 0 <= k < |cutouts|
    ensures AllCutoutLines(cutouts, poly, b, fmt)[3 * k .. 3 * k + 3] == CutoutLines(cutouts[k], poly, b, fmt)
  {
    var n := |cutouts| - 1;
    var front := AllCutoutLines(cutouts[..n], poly, b, fmt);
    var last := CutoutLines(cutouts[n], poly, b, fmt);
    assert AllCutoutLines(cutouts, poly, b, fmt) == front + last;
    if k < n {
      AllCutoutLinesAt(cutouts[..n], k, poly, b, fmt);
      assert cutouts[..n][k] == cutouts[k];
      assert (front + last)[3 * k .. 3 * k + 3] == front[3 * k .. 3 * k + 3];
    } else {
      assert (front + last)[3 * k .. 3 * k + 3] == last;
    }
  }

  /** A straight top of positive length and depth gets its length along the
      front edge and its depth along the left edge, both from the origin. */
  lemma StraightLines(design: Design, fmt: real -> string)
    requires design.layout == Straight
    requires !Falsy(design.dimensions.length) && design.dimensions.length.value > 0.0
    requires !Falsy(design.dimensions.depth) && design.dimensions.depth.value > 0.0
    ensures var r := DimensionLines(design, fmt);
      var l, dp := design.dimensions.length.value, design.dimensions.depth.value;
      |r| == 2 + 3 * |design.cutouts| &&
      r[0] == DimensionLine(Point(0.0, 0.0), Point(l, 0.0), fmt(l), -30.0, Horizontal) &&
      r[1] == DimensionLine(Point(0.0, 0.0), Point(0.0, dp), fmt(dp), -30.0, Vertical)
  {
    var l, dp := design.dimensions.length.value, design.dimensions.depth.value;
    var p := GeneratePolygon(Straight, design.dimensions, design.orientation);
    assert p == [Point(0.0, 0.0), Point(l, 0.0), Point(l, dp), Point(0.0, dp)];
    BoundingBoxIs(p, Box(0.0, l, 0.0, dp), 0, 1, 0, 2);
  }

  /** An L top (arm A at least as long as the depth) gets arm A along the
      front edge, arm B as a vertical line of exactly its length on the side
      the orientation puts it (x = 0 for left-l, x = lengthA for right-l),
      and the depth from the origin down. */
  lemma LLines(design: Design, fmt: real -> string)
    requires design.layout == LShape
    requires !OutlineMissing(LShape, design.dimensions)
    requires design.dimensions.lengthA.value >= design.dimensions.depth.value > 0.0
    requires design.dimensions.lengthB.value > 0.0
    ensures var r := DimensionLines(design, fmt);
      var a, lb, dp := design.dimensions.lengthA.value, design.dimensions.lengthB.value, design.dimensions.depth.value;
      var x := if design.orientation == LeftL then 0.0 else a;
      |r| == 3 + 3 * |design.cutouts| &&
      r[0] == DimensionLine(Point(0.0, 0.0), Point(a, 0.0), fmt(a), -30.0, Horizontal) &&
      r[1].start == Point(x, dp) && r[1].end == Point(x, dp + lb) && r[1].text == fmt(lb) && r[1].kind == Vertical &&
      r[2] == DimensionLine(Point(0.0, 0.0), Point(0.0, dp), fmt(dp), -30.0, Vertical)
  {
    var a, lb, dp := design.dimensions.lengthA.value, design.dimensions.lengthB.value, design.dimensions.depth.value;
    var p := GeneratePolygon(LShape, design.dimensions, design.orientation);
    var bx := Box(0.0, a, 0.0, dp + lb);
    if design.orientation == LeftL {
      assert p == [Point(0.0, 0.0), Point(a, 0.0), Point(a, dp), Point(dp, dp), Point(dp, dp + lb), Point(0.0, dp + lb)];
      BoundingBoxIs(p, bx, 0, 1, 0, 4);
    } else {
      assert p == [Point(0.0, 0.0), Point(a, 0.0), Point(a, dp + lb), Point(a - dp, dp + lb), Point(a - dp, dp), Point(0.0, dp)];
      BoundingBoxIs(p, bx, 0, 1, 0, 2);
    }
  }

  /** A U top with 0 < depth <= C gets the full top width C, the two depths
      at its ends, the inner gap between them labelled C - 2 * depth, and
      each arm as a vertical line of exactly its length below the top bar. */
  lemma ULines(design: Design, fmt: real -> string)
    requires design.layout == UShape
    requires !Falsy(design.dimensions.depth) && 0.0 < design.dimensions.depth.value <= OrZero(design.dimensions.gapWidth)
    requires OrZero(design.dimensions.lengthLeft) >= 0.0 && OrZero(design.dimensions.lengthRight) >= 0.0
    ensures var r := DimensionLines(design, fmt);
      var dp, c := design.dimensions.depth.value, OrZero(design.dimensions.gapWidth);
      var ll, lr := OrZero(design.dimensions.lengthLeft), OrZero(design.dimensions.lengthRight);
      |r| == 6 + 3 * |design.cutouts| &&
      r[0] == DimensionLine(Point(0.0, 0.0), Point(c, 0.0), fmt(c), -30.0, Horizontal) &&
      r[1] == DimensionLine(Point(0.0, 0.0), Point(dp, 0.0), fmt(dp), -18.0, Horizontal) &&
      r[2] == DimensionLine(Point(c - dp, 0.0), Point(c, 0.0), fmt(dp), -18.0, Horizontal) &&
      r[3] == DimensionLine(Point(dp, 0.0), Point(c - dp, 0.0), fmt(Max(0.0, c - 2.0 * dp)), -45.0, Horizontal) &&
      r[4] == DimensionLine(Point(0.0, dp), Point(0.0, dp + ll), fmt(ll), -30.0, Vertical) &&
      r[5] == DimensionLine(Point(c, dp), Point(c, dp + lr), fmt(lr), 20.0, Vertical)
  {
    UOutlineExtent(design.dimensions, design.orientation);
    assert OrElse(design.dimensions.gapWidth, 0.0) == OrZero(design.dimensions.gapWidth);
    assert OrElse(design.dimensions.lengthLeft, 0.0) == OrZero(design.dimensions.lengthLeft);
    assert OrElse(design.dimensions.lengthRight, 0.0) == OrZero(design.dimensions.lengthRight);
  }

  /** The three lines of a cutout: its width, centred on the cutout and
      level with its front edge; then its X and Y offsets, each a line from
      the reference side of the bounding box to the centre whose length is
      exactly that offset. */
  lemma CutoutLinesMeasureOffsets(c: Cutout, poly: seq<Point>, fmt: real -> string)
    requires poly != []
    ensures var b := BoundingBox(poly);
      var pos := CalculateCutoutPosition(c, poly);
      var r := CutoutLines(c, poly, b, fmt);
      r[0].end.x - r[0].start.x == c.width && r[0].start.x + r[0].end.x == 2.0 * pos.x &&
      r[0].start.y == r[0].end.y == pos.y - c.depth / 2.0 && r[0].text == fmt(c.width) + "×" + fmt(c.depth) &&
      r[1].end.x - r[1].start.x == c.offsetX && r[1].start.y == r[1].end.y == pos.y && r[1].text == fmt(c.offsetX) &&
      (if c.referenceX == Left then r[1].start.x == b.minX && r[1].end == pos else r[1].start == pos && r[1].end.x == b.maxX) &&
      r[2].end.y - r[2].start.y == c.offsetY && r[2].start.x == r[2].end.x == pos.x && r[2].text == fmt(c.offsetY) &&
      (if c.referenceY == Front then r[2].start.y == b.minY && r[2].end == pos else r[2].start == pos && r[2].end.y == b.maxY)
  {
  }

  /** With an outline, the lines of cutout k follow the outline's lines at
      3k places in, whatever the layout. */
  lemma CutoutLinesInDesign(design: Design, k: int, fmt: real -> string)
    requires !OutlineMissing(design.layout, design.dimensions)
    requires 0 <= k < |design.cutouts|
    ensures var poly := GeneratePolygon(design.layout, design.dimensions, design.orientation);
      var n := OutlineLineCount(design) + 3 * k;
      DimensionLines(design, fmt)[n .. n + 3] == CutoutLines(design.cutouts[k], poly, BoundingBox(poly), fmt)
  {
    var poly := GeneratePolygon(design.layout, design.dimensions, design.orientation);
    var b := BoundingBox(poly);
    var outline := OutlineLines(design, b, fmt);
    var all := AllCutoutLines(design.cutouts, poly, b, fmt);
    AllCutoutLinesAt(design.cutouts, k, poly, b, fmt);
    assert DimensionLines(design, fmt) == outline + all;
    assert (outline + all)[|outline| + 3 * k .. |outline| + 3 * k + 3] == all[3 * k .. 3 * k + 3];
  }
}
