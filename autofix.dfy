/** Automatic fixes for validation errors and the summary line: an edge error
    moves the cutout 5 cm towards the centroid of the outline, an
    outside-bounds error moves it onto the centroid, and an overlap error
    tries a 9 x 4 grid of offsets and takes the first free one. */
module AutoFix {
  import opened Types
  import opened Text
  import opened Outline
  import opened Primitives
  import opened Positioning
  import opened Validation

  // ---------------------------------------------------------------- summary

  const ALL_PASSED: string := "Wszystkie walidacje przeszły pomyślnie"

  /** `parts.join(sep)`. */
  function Join(parts: seq<string>, sep: string): (r: string)
    ensures parts == [] ==> r == []
    ensures |parts| == 1 ==> r == parts[0]
  {
    if parts == [] then []
    else if |parts| == 1 then parts[0]
    else Join(parts[..|parts| - 1], sep) + sep + parts[|parts| - 1]
  }

  function PartIf(n: nat, text: string): seq<string> {
    if n > 0 then [NatToString(n) + text] else []
  }

  /** One part per kind of cutout error present, edge errors first. */
  function SummaryParts(errors: seq<ValidationError>): seq<string> {
    PartIf(CountKind(errors, EdgeDistance), " błędów odległości od krawędzi")
    + PartIf(CountKind(errors, Overlap), " nakładających się otworów")
    + PartIf(CountKind(errors, OutsideBounds), " otworów poza granicami")
  }

  /** "Found n errors: ", counting every error including dimension errors. */
  function SummaryHead(n: nat): string {
    "Znaleziono " + NatToString(n) + " błędów: "
  }

  /** `getValidationSummary`: the all-clear message exactly when there are no
      errors, otherwise the total count followed by the parts. */
  function GetValidationSummary(errors: seq<ValidationError>): (r: string)
    ensures r == ALL_PASSED <==> errors == []
    ensures errors != [] ==> var h := SummaryHead(|errors|); |h| <= |r| && r[..|h|] == h
  {
    if |errors| == 0 then ALL_PASSED
    else
      var h := SummaryHead(|errors|);
      var r := h + Join(SummaryParts(errors), ", ");
      assert r[0] == 'Z' && ALL_PASSED[0] == 'W';
      assert r[..|h|] == h;
      r
  }

  lemma {:induction false} CountKindZero(errors: seq<ValidationError>, kind: ErrorKind)
    ensures CountKind(errors, kind) == 0 <==> forall e :: e in errors ==> e.kind != kind
  {
    if errors != [] {
      var init := errors[..|errors| - 1];
      CountKindZero(init, kind);
      assert errors == init + [errors[|errors| - 1]];
    }
  }

  /** The summary lists one part per kind among edge, overlap and bounds that
      occurs; it lists none exactly when every error is a dimension error. */
  lemma SummaryPartsListKinds(errors: seq<ValidationError>)
    ensures |SummaryParts(errors)| ==
      (if CountKind(errors, EdgeDistance) > 0 then 1 else 0) +
      (if CountKind(errors, Overlap) > 0 then 1 else 0) +
      (if CountKind(errors, OutsideBounds) > 0 then 1 else 0)
    ensures SummaryParts(errors) == [] <==> forall e :: e in errors ==> e.kind == DimensionInvalid
  {
    CountKindZero(errors, EdgeDistance);
    CountKindZero(errors, Overlap);
    CountKindZero(errors, OutsideBounds);
    if SummaryParts(errors) == [] {
      forall e | e in errors
        ensures e.kind == DimensionInvalid
      {
        assert e.kind != EdgeDistance && e.kind != Overlap && e.kind != OutsideBounds;
      }
    }
  }

  // ---------------------------------------------------------------- centroid

  function SumX(poly: seq<Point>): real {
    if poly == [] then 0.0 else SumX(poly[..|poly| - 1]) + poly[|poly| - 1].x
  }

  function SumY(poly: seq<Point>): real {
    if poly == [] then 0.0 else SumY(poly[..|poly| - 1]) + poly[|poly| - 1].y
  }

  /** The mean of the vertices, which the fixes call the centre of the outline. */
  function Centroid(poly: seq<Point>): Point
    requires poly != []
  {
    Point(SumX(poly) / |poly| as real, SumY(poly) / |poly| as real)
  }

  lemma {:induction false} SumXBounds(poly: seq<Point>, lo: real, hi: real)
    requires forall i :: 0 <= i < |poly| ==> lo <= poly[i].x <= hi
    ensures |poly| as real * lo <= SumX(poly) <= |poly| as real * hi
  {
    if poly != [] {
      var init := poly[..|poly| - 1];
      SumXBounds(init, lo, hi);
      var n := |init| as real;
      assert (n + 1.0) * lo == n * lo + lo && (n + 1.0) * hi == n * hi + hi;
    }
  }

  lemma {:induction false} SumYBounds(poly: seq<Point>, lo: real, hi: real)
    requires forall i :: 0 <= i < |poly| ==> lo <= poly[i].y <= hi
    ensures |poly| as real * lo <= SumY(poly) <= |poly| as real * hi
  {
    if poly != [] {
      var init := poly[..|poly| - 1];
      SumYBounds(init, lo, hi);
      var n := |init| as real;
      assert (n + 1.0) * lo == n * lo + lo && (n + 1.0) * hi == n * hi + hi;
    }
  }

  /** The centroid lies inside the bounding box of the outline. */
  lemma CentroidInBox(poly: seq<Point>)
    requires poly != []
    ensures InBox(Centroid(poly), BoundingBox(poly))
  {
    var b := BoundingBox(poly);
    assert forall i :: 0 <= i < |poly| ==> InBox(poly[i], b);
    CentroidXInRange(poly, b.minX, b.maxX);
    CentroidYInRange(poly, b.minY, b.maxY);
  }

  lemma CentroidXInRange(poly: seq<Point>, lo: real, hi: real)
    requires poly != [] && forall i :: 0 <= i < |poly| ==> lo <= poly[i].x <= hi
    ensures lo <= Centroid(poly).x <= hi
  {
    SumXBounds(poly, lo, hi);
    DivBounds(SumX(poly), |poly| as real, lo, hi);
  }

  lemma CentroidYInRange(poly: seq<Point>, lo: real, hi: real)
    requires poly != [] && forall i :: 0 <= i < |poly| ==> lo <= poly[i].y <= hi
    ensures lo <= Centroid(poly).y <= hi
  {
    SumYBounds(poly, lo, hi);
    DivBounds(SumY(poly), |poly| as real, lo, hi);
  }

  lemma DivBounds(s: real, n: real, lo: real, hi: real)
    requires n > 0.0 && n * lo <= s <= n * hi
    ensures lo <= s / n <= hi
  {
    assert s / n * n == s;
  }

  // ---------------------------------------------------------------- fixes

  /** The cutout with new offsets and nothing else changed. */
  function WithOffsets(c: Cutout, ox: real, oy: real): (r: Cutout)
    ensures r.offsetX == ox && r.offsetY == oy
    ensures r.id == c.id && r.name == c.name && r.kind == c.kind && r.width == c.width && r.depth == c.depth
    ensures r.position == c.position && r.referenceX == c.referenceX && r.referenceY == c.referenceY
  {
    c.(offsetX := ox, offsetY := oy)
  }

  /** The offsets that put the centre of `c` at `target`, each rounded to the
      nearest whole centimetre. */
  function PlaceAt(c: Cutout, target: Point, poly: seq<Point>): (r: Cutout)
    ensures r == WithOffsets(c, r.offsetX, r.offsetY)
    ensures r.offsetX >= 0.0 && r.offsetY >= 0.0
  {
    var o := CalculateOffsetsFromPosition(target, poly, c.referenceX, c.referenceY);
    var ox, oy := Round(o.offsetX), Round(o.offsetY);
    assert ox >= 0 && oy >= 0;
    WithOffsets(c, ox as real, oy as real)
  }

  /** `fixOutsideBoundsError`: move the cutout onto the centroid. */
  function FixOutsideBoundsError(c: Cutout, poly: seq<Point>): (r: Cutout)
    requires poly != []
    ensures r == WithOffsets(c, r.offsetX, r.offsetY)
    ensures r.offsetX >= 0.0 && r.offsetY >= 0.0
  {
    PlaceAt(c, Centroid(poly), poly)
  }

  /** Rounding the offsets of a centre inside the bounding box moves the centre
      by at most half a centimetre along each axis. */
  lemma PlaceAtIsNear(c: Cutout, target: Point, poly: seq<Point>)
    requires poly != [] && InBox(target, BoundingBox(poly))
    ensures var pos := CalculateCutoutPosition(PlaceAt(c, target, poly), poly);
      Abs(pos.x - target.x) <= 0.5 && Abs(pos.y - target.y) <= 0.5
  {
    var o := CalculateOffsetsFromPosition(target, poly, c.referenceX, c.referenceY);
    PositionRoundTrip(target, poly, c.referenceX, c.referenceY, c);
    var exact := c.(offsetX := o.offsetX, offsetY := o.offsetY, referenceX := c.referenceX, referenceY := c.referenceY);
    assert CalculateCutoutPosition(exact, poly) == target;
  }

  /** After the fix the cutout's centre is within half a centimetre of the
      centroid along each axis. */
  lemma OutsideFixCentres(c: Cutout, poly: seq<Point>)
    requires poly != []
    ensures var pos := CalculateCutoutPosition(FixOutsideBoundsError(c, poly), poly);
      var m := Centroid(poly);
      Abs(pos.x - m.x) <= 0.5 && Abs(pos.y - m.y) <= 0.5
  {
    CentroidInBox(poly);
    PlaceAtIsNear(c, Centroid(poly), poly);
  }

  /** The point 5 cm from `from` along the direction to `to`, given the
      length of that direction; undefined (JavaScript NaN) for length 0. */
  function StepTowards(from: Point, to: Point, length: real): Point
    requires length != 0.0
  {
    var dx, dy := to.x - from.x, to.y - from.y;
    Point(from.x + dx / length * 5.0, from.y + dy / length * 5.0)
  }

  /** The target of the edge fix: 5 cm from `cur` towards `m`, where `sqrt`
      is `Math.sqrt`. None is the case of a zero length, where the division
      gives NaN coordinates. */
  function EdgeStep(cur: Point, m: Point, sqrt: real -> real): Option<Point> {
    var length := sqrt(Sq(m.x - cur.x) + Sq(m.y - cur.y));
    if length == 0.0 then None else Some(StepTowards(cur, m, length))
  }

  /** `fixEdgeDistanceError`: move the centre 5 cm towards the centroid. None
      stands for the NaN offsets of a zero-length direction. */
  function FixEdgeDistanceError(c: Cutout, poly: seq<Point>, sqrt: real -> real): (r: Option<Cutout>)
    requires poly != []
    ensures r.Some? ==> r.value == WithOffsets(c, r.value.offsetX, r.value.offsetY)
    ensures r.Some? ==> r.value.offsetX >= 0.0 && r.value.offsetY >= 0.0
    ensures r.None? <==> EdgeStep(CalculateCutoutPosition(c, poly), Centroid(poly), sqrt).None?
  {
    match EdgeStep(CalculateCutoutPosition(c, poly), Centroid(poly), sqrt)
    case None => None
    case Some(t) => Some(PlaceAt(c, t, poly))
  }

  /** With a correct square root the step is exactly 5 cm long and ends on the
      line through the centroid, at distance |length - 5| from it. */
  lemma StepIsFiveTowardsCentroid(from: Point, to: Point, length: real)
    requires length > 0.0 && length * length == SqDist(from, to)
    ensures SqDist(StepTowards(from, to, length), from) == 25.0
    ensures SqDist(StepTowards(from, to, length), to) == (length - 5.0) * (length - 5.0)
  {
    var dx, dy := to.x - from.x, to.y - from.y;
    var ux, uy := dx / length, dy / length;
    assert ux * length == dx && uy * length == dy;
    UnitDirection(ux, uy, length, dx, dy);
    var t := StepTowards(from, to, length);
    assert t.x - from.x == 5.0 * ux && t.y - from.y == 5.0 * uy;
    ScaledUnit(5.0, ux, uy);
    assert t.x - to.x == (5.0 - length) * ux && t.y - to.y == (5.0 - length) * uy;
    ScaledUnit(5.0 - length, ux, uy);
  }

  /** A multiple a of a unit vector has squared length a * a. */
  lemma ScaledUnit(a: real, ux: real, uy: real)
    requires ux * ux + uy * uy == 1.0
    ensures (a * ux) * (a * ux) + (a * uy) * (a * uy) == a * a
  {
    assert (a * ux) * (a * ux) + (a * uy) * (a * uy) == a * a * (ux * ux + uy * uy);
  }

  lemma UnitDirection(ux: real, uy: real, length: real, dx: real, dy: real)
    requires length > 0.0 && ux * length == dx && uy * length == dy
    requires length * length == dx * dx + dy * dy
    ensures ux * ux + uy * uy == 1.0
  {
    var l2, a, b := Sq(length), ux * ux, uy * uy;
    assert dx * dx == a * l2;
    assert dy * dy == b * l2;
    assert (a + b) * l2 == a * l2 + b * l2;
    assert (a + b - 1.0) * l2 == 0.0;
    MulZero(a + b - 1.0, l2);
  }

  /** With a correct square root the step is undefined exactly when the
      centre already sits on the centroid; otherwise it is 5 cm long and ends
      at distance |length - 5| from the centroid. */
  lemma EdgeStepGeometry(cur: Point, m: Point, sqrt: real -> real)
    requires var s := SqDist(cur, m); sqrt(s) >= 0.0 && sqrt(s) * sqrt(s) == s
    ensures EdgeStep(cur, m, sqrt).None? <==> cur == m
    ensures EdgeStep(cur, m, sqrt).Some? ==> var t, length := EdgeStep(cur, m, sqrt).value, sqrt(SqDist(cur, m));
      SqDist(t, cur) == 25.0 && SqDist(t, m) == (length - 5.0) * (length - 5.0)
  {
    var s := SqDist(cur, m);
    assert Sq(m.x - cur.x) + Sq(m.y - cur.y) == s;
    SqDistZero(cur, m);
    var length := sqrt(s);
    if length == 0.0 {
      assert s == 0.0;
    } else {
      StepIsFiveTowardsCentroid(cur, m, length);
    }
  }

  /** When the edge fix's target lies inside the bounding box, the fixed
      cutout's centre is within half a centimetre of it along each axis. */
  lemma EdgeFixNearTarget(c: Cutout, poly: seq<Point>, sqrt: real -> real)
    requires poly != []
    ensures var t, r := EdgeStep(CalculateCutoutPosition(c, poly), Centroid(poly), sqrt), FixEdgeDistanceError(c, poly, sqrt);
      t.Some? && InBox(t.value, BoundingBox(poly)) ==>
        var pos := CalculateCutoutPosition(r.value, poly); Abs(pos.x - t.value.x) <= 0.5 && Abs(pos.y - t.value.y) <= 0.5
  {
    var t := EdgeStep(CalculateCutoutPosition(c, poly), Centroid(poly), sqrt);
    if t.Some? && InBox(t.value, BoundingBox(poly)) {
      PlaceAtIsNear(c, t.value, poly);
    }
  }

  // ---------------------------------------------------------------- overlap fix

  /** `design.cutouts.filter((c) => c.id !== cutout.id)`. */
  function OthersOf(cutouts: seq<Cutout>, id: string): (r: seq<Cutout>)
    ensures forall o :: o in r <==> o in cutouts && o.id != id
    ensures |r| <= |cutouts|
  {
    if cutouts == [] then []
    else OthersOf(cutouts[..|cutouts| - 1], id) + if cutouts[|cutouts| - 1].id != id then [cutouts[|cutouts| - 1]] else []
  }

  /** Whether the test placement of a cutout overlaps any of the others. */
  predicate HasOverlap(test: Cutout, others: seq<Cutout>, poly: seq<Point>) {
    exists o :: o in others &&
      DoRectanglesOverlap(CutoutRect(CalculateCutoutPosition(test, poly), test), CutoutRect(CalculateCutoutPosition(o, poly), o))
  }

  /** The placement at grid offsets (x, y). */
  function TryAt(c: Cutout, x: int, y: int): Cutout {
    WithOffsets(c, x as real, y as real)
  }

  /** (x, y) is one of the 36 placements the loops try. */
  predicate GridPoint(x: int, y: int) {
    10 <= x < 100 && 10 <= y < 50 && x % 10 == 0 && y % 10 == 0
  }

  /** (x, y) is tried at or after (ox, oy). */
  predicate Later(x: int, y: int, ox: int, oy: int) {
    x > ox || (x == ox && y >= oy)
  }

  /** (x, y) is tried before the placement of `t`. */
  predicate Before(x: int, y: int, t: Cutout) {
    (x as real) < t.offsetX || ((x as real) == t.offsetX && (y as real) < t.offsetY)
  }

  /** The grid search from (ox, oy) on, in the order of the two loops: offsetX
      from 10 to 90 outside, offsetY from 10 to 40 inside, steps of 10. A
      placement is taken when `blocked` does not hold of it. */
  function SearchFrom(c: Cutout, blocked: Cutout -> bool, ox: int, oy: int): (r: Option<Cutout>)
    requires ox >= 10 && oy >= 10
    ensures r.Some? ==> !blocked(r.value) && r.value == WithOffsets(c, r.value.offsetX, r.value.offsetY)
    ensures r.Some? ==> r.value.offsetX < 100.0 && 10.0 <= r.value.offsetY < 50.0
    ensures r.Some? ==> (ox as real) < r.value.offsetX || ((ox as real) == r.value.offsetX && (oy as real) <= r.value.offsetY)
    decreases 100 - ox, 50 - oy
  {
    if ox >= 100 then None
    else if oy >= 50 then SearchFrom(c, blocked, ox + 10, 10)
    else
      var test := TryAt(c, ox, oy);
      if !blocked(test) then Some(test) else SearchFrom(c, blocked, ox, oy + 10)
  }

  /** Every grid placement tried from (ox, oy) on, and before `stop` when
      there is one, is blocked. */
  ghost predicate BlockedUntil(c: Cutout, blocked: Cutout -> bool, ox: int, oy: int, stop: Option<Cutout>) {
    forall x, y :: GridPoint(x, y) && Later(x, y, ox, oy) && (stop.Some? ==> Before(x, y, stop.value)) ==>
      blocked(TryAt(c, x, y))
  }

  /** First fit: every placement the search skips is blocked, so it returns
      nothing exactly when every placement from (ox, oy) on is blocked. */
  lemma {:induction false} SearchIsFirstFit(c: Cutout, blocked: Cutout -> bool, ox: int, oy: int)
    requires ox >= 10 && oy >= 10 && ox % 10 == 0 && oy % 10 == 0
    ensures BlockedUntil(c, blocked, ox, oy, SearchFrom(c, blocked, ox, oy))
    ensures SearchFrom(c, blocked, ox, oy).None? <==> BlockedUntil(c, blocked, ox, oy, None)
    decreases 100 - ox, 50 - oy
  {
    var r := SearchFrom(c, blocked, ox, oy);
    if ox >= 100 {
    } else if oy >= 50 {
      SearchIsFirstFit(c, blocked, ox + 10, 10);
      forall x, y | GridPoint(x, y) && Later(x, y, ox, oy)
        ensures Later(x, y, ox + 10, 10)
      {
      }
    } else {
      var test := TryAt(c, ox, oy);
      if blocked(test) {
        SearchIsFirstFit(c, blocked, ox, oy + 10);
        forall x, y | GridPoint(x, y) && Later(x, y, ox, oy) && !(x == ox && y == oy)
          ensures Later(x, y, ox, oy + 10)
        {
        }
        if r.Some? {
          assert Before(ox, oy, r.value);
        }
      } else {
        assert r == Some(test);
        assert !BlockedUntil(c, blocked, ox, oy, None) by {
          assert GridPoint(ox, oy) && Later(ox, oy, ox, oy);
        }
      }
    }
  }

  /** The whole effect of `fixOverlapError`: the first grid placement that
      overlaps none of the others, or the cutout unchanged when there is none. */
  function OverlapFix(c: Cutout, others: seq<Cutout>, poly: seq<Point>): Cutout {
    match SearchFrom(c, t => HasOverlap(t, others, poly), 10, 10)
    case Some(t) => t
    case None => c
  }

  /** `fixOverlapError`, loop for loop. */
  method FixOverlapError(cutout: Cutout, design: Design, polygon: seq<Point>) returns (r: Cutout)
    ensures r == OverlapFix(cutout, OthersOf(design.cutouts, cutout.id), polygon)
  {
    var otherCutouts := OthersOf(design.cutouts, cutout.id);
    ghost var blocked := t => HasOverlap(t, otherCutouts, polygon);
    var offsetX := 10;
    while offsetX < 100
      invariant offsetX >= 10
      invariant SearchFrom(cutout, blocked, 10, 10) == SearchFrom(cutout, blocked, offsetX, 10)
      decreases 100 - offsetX
    {
      var offsetY := 10;
      while offsetY < 50
        invariant offsetY >= 10
        invariant SearchFrom(cutout, blocked, 10, 10) == SearchFrom(cutout, blocked, offsetX, offsetY)
        decreases 50 - offsetY
      {
        var testCutout := TryAt(cutout, offsetX, offsetY);
        var hasOverlap := HasOverlap(testCutout, otherCutouts, polygon);
        assert hasOverlap == blocked(testCutout);
        if !hasOverlap {
          return testCutout;
        }
        offsetY := offsetY + 10;
      }
      offsetX := offsetX + 10;
    }
    return cutout;
  }

  /** The overlap fix moves the cutout to a grid placement that overlaps none
      of the others and is the first such in loop order; it leaves the cutout
      unchanged exactly when all 36 grid placements overlap. */
  lemma OverlapFixResult(c: Cutout, others: seq<Cutout>, poly: seq<Point>)
    ensures var s, r := SearchFrom(c, t => HasOverlap(t, others, poly), 10, 10), OverlapFix(c, others, poly);
      (r == WithOffsets(c, r.offsetX, r.offsetY)) &&
      (s.Some? ==> (!HasOverlap(r, others, poly) &&
        forall x, y :: GridPoint(x, y) && Before(x, y, r) ==> HasOverlap(TryAt(c, x, y), others, poly))) &&
      (s.None? <==> r == c && forall x, y :: GridPoint(x, y) ==> HasOverlap(TryAt(c, x, y), others, poly))
  {
    var blocked := t => HasOverlap(t, others, poly);
    SearchIsFirstFit(c, blocked, 10, 10);
    assert forall x, y :: GridPoint(x, y) ==> Later(x, y, 10, 10);
  }

  // ---------------------------------------------------------------- dispatch

  /** What `getAutoFixSuggestion` returns: null, a moved cutout, or a cutout
      whose offsets are NaN. */
  datatype Suggestion = NoSuggestion | Suggest(cutout: Cutout) | UndefinedOffsets

  /** `design.cutouts.find((c) => error.id.includes(c.id))`. */
  function FindCutout(cutouts: seq<Cutout>, errorId: string): (r: Option<Cutout>)
    ensures r.None? <==> forall c :: c in cutouts ==> !Includes(errorId, c.id)
    ensures r.Some? ==> r.value in cutouts && Includes(errorId, r.value.id)
    ensures r.Some? ==> exists k :: (0 <= k < |cutouts| && cutouts[k] == r.value &&
      forall j :: 0 <= j < k ==> !Includes(errorId, cutouts[j].id))
  {
    if cutouts == [] then None
    else if Includes(errorId, cutouts[0].id) then Some(cutouts[0])
    else
      var r := FindCutout(cutouts[1..], errorId);
      assert forall c :: c in cutouts ==> c == cutouts[0] || c in cutouts[1..];
      if r.Some? then
        var k :| 0 <= k < |cutouts[1..]| && cutouts[1..][k] == r.value && forall j :: 0 <= j < k ==> !Includes(errorId, cutouts[1..][j].id);
        assert cutouts[k + 1] == r.value;
        assert forall j :: 0 <= j < k + 1 ==> !Includes(errorId, cutouts[j].id);
        r
      else r
  }

  /** The suggestion `getAutoFixSuggestion` computes, with `sqrt` standing for
      `Math.sqrt`. */
  function AutoFix(error: ValidationError, design: Design, sqrt: real -> real): Suggestion {
    var polygon := GeneratePolygon(design.layout, design.dimensions, design.orientation);
    var found := FindCutout(design.cutouts, error.id);
    if found.None? || polygon == [] then NoSuggestion
    else
      var cutout := found.value;
      match error.kind
      case EdgeDistance =>
        (match FixEdgeDistanceError(cutout, polygon, sqrt)
         case Some(r) => Suggest(r)
         case None => UndefinedOffsets)
      case OutsideBounds => Suggest(FixOutsideBoundsError(cutout, polygon))
      case Overlap => Suggest(OverlapFix(cutout, OthersOf(design.cutouts, cutout.id), polygon))
      case DimensionInvalid => NoSuggestion
  }

  method GetAutoFixSuggestion(error: ValidationError, design: Design, sqrt: real -> real) returns (s: Suggestion)
    ensures s == AutoFix(error, design, sqrt)
  {
    var polygon := GeneratePolygon(design.layout, design.dimensions, design.orientation);
    var cutout := FindCutout(design.cutouts, error.id);
    if cutout.None? || |polygon| == 0 {
      return NoSuggestion;
    }
    match error.kind {
      case EdgeDistance =>
        var r := FixEdgeDistanceError(cutout.value, polygon, sqrt);
        s := if r.Some? then Suggest(r.value) else UndefinedOffsets;
      case OutsideBounds =>
        s := Suggest(FixOutsideBoundsError(cutout.value, polygon));
      case Overlap =>
        var r := FixOverlapError(cutout.value, design, polygon);
        s := Suggest(r);
      case DimensionInvalid =>
        s := NoSuggestion;
    }
  }

  /** `canAutoFix`. */
  predicate CanAutoFix(error: ValidationError) {
    error.kind in {EdgeDistance, OutsideBounds, Overlap}
  }

  /** Exactly the dimension errors cannot be fixed, and for them no suggestion
      is made; any suggestion keeps the cutout and changes only its offsets. */
  lemma SuggestionsMoveTheMatchedCutout(error: ValidationError, design: Design, sqrt: real -> real)
    ensures CanAutoFix(error) <==> error.kind != DimensionInvalid
    ensures !CanAutoFix(error) ==> AutoFix(error, design, sqrt) == NoSuggestion
    ensures GeneratePolygon(design.layout, design.dimensions, design.orientation) == [] ==> AutoFix(error, design, sqrt) == NoSuggestion
    ensures AutoFix(error, design, sqrt).Suggest? ==>
      var c := FindCutout(design.cutouts, error.id);
      var r := AutoFix(error, design, sqrt).cutout;
      c.Some? && Includes(error.id, c.value.id) && r == WithOffsets(c.value, r.offsetX, r.offsetY)
  {
    var c := FindCutout(design.cutouts, error.id);
    if AutoFix(error, design, sqrt).Suggest? && error.kind == Overlap {
      OverlapFixResult(c.value, OthersOf(design.cutouts, c.value.id), GeneratePolygon(design.layout, design.dimensions, design.orientation));
    }
  }

  /** An error reported by validation for some cutout always finds a cutout:
      the error id starts with the cutout's id. */
  lemma ReportedErrorFindsCutout(design: Design, poly: seq<Point>, i: int)
    requires poly != [] && 0 <= i < |design.cutouts|
    ensures var c := design.cutouts[i]; var pos := CalculateCutoutPosition(c, poly);
      FindCutout(design.cutouts, EdgeError(c, pos).id).Some? &&
      FindCutout(design.cutouts, OutsideError(c, pos).id).Some?
  {
    var c := design.cutouts[i];
    var pos := CalculateCutoutPosition(c, poly);
    assert OccursAt(EdgeError(c, pos).id, c.id, 0);
    assert OccursAt(OutsideError(c, pos).id, c.id, 0);
  }

  /** Matching is by substring, so with ids "1" and "11" the errors of the
      second cutout are routed to the first. */
  lemma SubstringMatchTakesEarlierCutout(a: Cutout, b: Cutout)
    requires a.id == "1" && b.id == "11"
    ensures FindCutout([a, b], b.id + "-edge") == Some(a)
  {
    assert OccursAt(b.id + "-edge", a.id, 0);
  }
}
