/** Design validation: dimension checks for the U layout, then for every
    cutout an outside-bounds check, an edge-distance check and an overlap check
    against every later cutout. Distances to the outline are squared (see the
    Primitives module), so "closer than 3 cm" is "squared distance below 9". */
module Validation {
  import opened Types
  import opened Config
  import opened Outline
  import opened Primitives
  import opened Positioning

  // ---------------------------------------------------------------- dimension errors

  /** `!v || v < 10`: missing, zero or below 10 cm. */
  predicate TooSmall(v: Option<real>) {
    Falsy(v) || v.value < 10.0
  }

  function DimError(id: string, message: string): ValidationError {
    ValidationError(id, DimensionInvalid, message, None)
  }

  const DEPTH_ERROR := DimError("dim-depth", "Głębokość musi być >= 10 cm")
  const GAP_ERROR := DimError("dim-gap", "Szerokość przestrzeni (C) musi być >= 10 cm")
  const LEFT_ERROR := DimError("dim-left", "Długość lewego ramienia (A) musi być >= 10 cm")
  const RIGHT_ERROR := DimError("dim-right", "Długość prawego ramienia (B) musi być >= 10 cm")

  function ErrorIf(cond: bool, e: ValidationError): seq<ValidationError> {
    if cond then [e] else []
  }

  /** Where a dimension error stands in the fixed order depth, gap, left, right. */
  function DimRank(e: ValidationError): int {
    if e == DEPTH_ERROR then 0 else if e == GAP_ERROR then 1 else if e == LEFT_ERROR then 2 else 3
  }

  /** The dimension errors: only the U layout is checked, one error per field
      that is missing or below 10, in the order depth, gap, left, right. */
  function DimensionErrors(design: Design): (r: seq<ValidationError>)
    ensures design.layout != UShape ==> r == []
    ensures |r| <= 4 && forall e :: e in r ==> e.kind == DimensionInvalid && e.position.None?
    ensures forall e :: e in r ==> e == DEPTH_ERROR || e == GAP_ERROR || e == LEFT_ERROR || e == RIGHT_ERROR
    ensures forall a, b :: 0 <= a < b < |r| ==> DimRank(r[a]) < DimRank(r[b])
    ensures DEPTH_ERROR in r <==> design.layout == UShape && TooSmall(design.dimensions.depth)
    ensures GAP_ERROR in r <==> design.layout == UShape && TooSmall(design.dimensions.gapWidth)
    ensures LEFT_ERROR in r <==> design.layout == UShape && TooSmall(design.dimensions.lengthLeft)
    ensures RIGHT_ERROR in r <==> design.layout == UShape && TooSmall(design.dimensions.lengthRight)
  {
    if design.layout != UShape then []
    else
      var d := design.dimensions;
      ErrorIf(TooSmall(d.depth), DEPTH_ERROR) + ErrorIf(TooSmall(d.gapWidth), GAP_ERROR)
      + ErrorIf(TooSmall(d.lengthLeft), LEFT_ERROR) + ErrorIf(TooSmall(d.lengthRight), RIGHT_ERROR)
  }

  // ---------------------------------------------------------------- per-cutout checks

  /** The corners of a cutout centred at `pos`, in the order of the check. */
  function Corners(pos: Point, c: Cutout): (r: seq<Point>)
    ensures |r| == 4
  {
    var minX, maxX := pos.x - c.width / 2.0, pos.x + c.width / 2.0;
    var minY, maxY := pos.y - c.depth / 2.0, pos.y + c.depth / 2.0;
    [Point(minX, minY), Point(maxX, minY), Point(maxX, maxY), Point(minX, maxY)]
  }

  /** The rectangle a cutout occupies, as the overlap check builds it. */
  function CutoutRect(pos: Point, c: Cutout): Rect {
    Rect(pos.x - c.width / 2.0, pos.y - c.depth / 2.0, c.width, c.depth)
  }

  predicate SomeCornerOutside(corners: seq<Point>, poly: seq<Point>) {
    exists k :: 0 <= k < |corners| && !InsidePolygon(corners[k], poly)
  }

  /** The squared distance of a point to a non-empty outline. */
  function CornerDistSq(p: Point, poly: seq<Point>): (r: real)
    requires poly != []
    ensures r >= 0.0
  {
    DistanceToEdgeSq(p, poly).sq
  }

  /** `Math.min` over the four corners' distances (all finite here). */
  function MinCornerDistSq(corners: seq<Point>, poly: seq<Point>): (r: real)
    requires |corners| == 4 && poly != []
    ensures r >= 0.0
    ensures exists k :: 0 <= k < 4 && r == CornerDistSq(corners[k], poly)
    ensures forall k :: 0 <= k < 4 ==> r <= CornerDistSq(corners[k], poly)
  {
    var ds := [CornerDistSq(corners[0], poly), CornerDistSq(corners[1], poly),
               CornerDistSq(corners[2], poly), CornerDistSq(corners[3], poly)];
    MinOfFour(ds)
  }

  function MinOfFour(ds: seq<real>): (r: real)
    requires |ds| == 4
    ensures exists k :: 0 <= k < 4 && r == ds[k]
    ensures forall k :: 0 <= k < 4 ==> r <= ds[k]
  {
    var m := Min(Min(Min(ds[0], ds[1]), ds[2]), ds[3]);
    assert m == ds[0] || m == ds[1] || m == ds[2] || m == ds[3];
    m
  }

  /** The edge threshold, squared: MIN_EDGE_DISTANCE / 10 = 3 cm. */
  const EDGE_THRESHOLD_SQ: real := MIN_EDGE_DISTANCE_CM * MIN_EDGE_DISTANCE_CM

  predicate TooCloseToEdge(corners: seq<Point>, poly: seq<Point>)
    requires |corners| == 4 && poly != []
  {
    MinCornerDistSq(corners, poly) < EDGE_THRESHOLD_SQ
  }

  function OutsideError(c: Cutout, pos: Point): ValidationError {
    ValidationError(c.id + "-outside", OutsideBounds, c.name + " wykracza poza granice blatu", Some(pos))
  }

  function EdgeError(c: Cutout, pos: Point): ValidationError {
    ValidationError(c.id + "-edge", EdgeDistance, c.name + " jest za blisko krawędzi (min. 3 cm)", Some(pos))
  }

  /** The outside-bounds and edge-distance errors of cutout i. */
  function CutoutChecks(design: Design, poly: seq<Point>, i: int): (r: seq<ValidationError>)
    requires poly != [] && 0 <= i < |design.cutouts|
    ensures |r| <= 2
  {
    var c := design.cutouts[i];
    var pos := CalculateCutoutPosition(c, poly);
    var corners := Corners(pos, c);
    ErrorIf(SomeCornerOutside(corners, poly), OutsideError(c, pos)) + ErrorIf(TooCloseToEdge(corners, poly), EdgeError(c, pos))
  }

  // ---------------------------------------------------------------- overlaps

  predicate PairOverlaps(design: Design, poly: seq<Point>, i: int, j: int)
    requires 0 <= i < |design.cutouts| && 0 <= j < |design.cutouts|
  {
    var c, o := design.cutouts[i], design.cutouts[j];
    DoRectanglesOverlap(CutoutRect(CalculateCutoutPosition(c, poly), c), CutoutRect(CalculateCutoutPosition(o, poly), o))
  }

  function Midpoint(p: Point, q: Point): Point {
    Point((p.x + q.x) / 2.0, (p.y + q.y) / 2.0)
  }

  function OverlapError(design: Design, poly: seq<Point>, i: int, j: int): ValidationError
    requires 0 <= i < |design.cutouts| && 0 <= j < |design.cutouts|
  {
    var c, o := design.cutouts[i], design.cutouts[j];
    ValidationError(c.id + "-" + o.id + "-overlap", Overlap, c.name + " nakłada się z " + o.name,
      Some(Midpoint(CalculateCutoutPosition(c, poly), CalculateCutoutPosition(o, poly))))
  }

  /** The overlap errors of cutout i against the cutouts j < m that come after it. */
  function OverlapsUpTo(design: Design, poly: seq<Point>, i: int, m: int): (r: seq<ValidationError>)
    requires 0 <= i < |design.cutouts| && 0 <= m <= |design.cutouts|
    ensures |r| <= if m > i + 1 then m - i - 1 else 0
  {
    if m == 0 then []
    else
      var j := m - 1;
      OverlapsUpTo(design, poly, i, j) + if i < j && PairOverlaps(design, poly, i, j) then [OverlapError(design, poly, i, j)] else []
  }

  /** Everything reported for cutout i. */
  function CutoutErrors(design: Design, poly: seq<Point>, i: int): seq<ValidationError>
    requires poly != [] && 0 <= i < |design.cutouts|
  {
    CutoutChecks(design, poly, i) + OverlapsUpTo(design, poly, i, |design.cutouts|)
  }

  /** The errors of the first k cutouts, in order. */
  function CutoutErrorsUpTo(design: Design, poly: seq<Point>, k: int): seq<ValidationError>
    requires poly != [] && 0 <= k <= |design.cutouts|
  {
    if k == 0 then [] else CutoutErrorsUpTo(design, poly, k - 1) + CutoutErrors(design, poly, k - 1)
  }

  /** What `validateDesign` returns. */
  function ValidationErrors(design: Design): seq<ValidationError> {
    var poly := GeneratePolygon(design.layout, design.dimensions, design.orientation);
    DimensionErrors(design) + if poly == [] then [] else CutoutErrorsUpTo(design, poly, |design.cutouts|)
  }

  method ValidateDesign(design: Design) returns (errors: seq<ValidationError>)
    ensures errors == ValidationErrors(design)
  {
    errors := DimensionErrors(design);
    var polygon := GeneratePolygon(design.layout, design.dimensions, design.orientation);
    if |polygon| == 0 {
      return;
    }
    var cutoutErrors := CheckCutouts(design, polygon);
    errors := errors + cutoutErrors;
  }

  /** The loop over the cutouts, each checked against the outline and then
      against the cutouts after it. */
  method CheckCutouts(design: Design, polygon: seq<Point>) returns (errors: seq<ValidationError>)
    requires polygon != []
    ensures errors == CutoutErrorsUpTo(design, polygon, |design.cutouts|)
  {
    errors := [];
    for index := 0 to |design.cutouts|
      invariant errors == CutoutErrorsUpTo(design, polygon, index)
    {
      var checks := CheckCutout(design, polygon, index);
      var overlaps := CheckOverlaps(design, polygon, index);
      errors := errors + (checks + overlaps);
    }
  }

  /** The inner scan of one cutout against every other; only later cutouts are
      compared. */
  method CheckOverlaps(design: Design, polygon: seq<Point>, index: int) returns (overlaps: seq<ValidationError>)
    requires 0 <= index < |design.cutouts|
    ensures overlaps == OverlapsUpTo(design, polygon, index, |design.cutouts|)
  {
    var cutouts := design.cutouts;
    overlaps := [];
    for otherIndex := 0 to |cutouts|
      invariant overlaps == OverlapsUpTo(design, polygon, index, otherIndex)
    {
      if index >= otherIndex {
        continue;
      }
      var cutoutPos := CalculateCutoutPosition(cutouts[index], polygon);
      var otherPos := CalculateCutoutPosition(cutouts[otherIndex], polygon);
      if DoRectanglesOverlap(CutoutRect(cutoutPos, cutouts[index]), CutoutRect(otherPos, cutouts[otherIndex])) {
        overlaps := overlaps + [OverlapError(design, polygon, index, otherIndex)];
      }
    }
  }

  /** The bounds and edge checks of one cutout, running the ray test and the
      distance scan on each corner. */
  method CheckCutout(design: Design, polygon: seq<Point>, index: int) returns (checks: seq<ValidationError>)
    requires polygon != [] && 0 <= index < |design.cutouts|
    ensures checks == CutoutChecks(design, polygon, index)
  {
    var cutout := design.cutouts[index];
    var cutoutPos := CalculateCutoutPosition(cutout, polygon);
    var corners := Corners(cutoutPos, cutout);
    var in0 := IsPointInPolygon(corners[0], polygon);
    var in1 := IsPointInPolygon(corners[1], polygon);
    var in2 := IsPointInPolygon(corners[2], polygon);
    var in3 := IsPointInPolygon(corners[3], polygon);
    checks := [];
    if !in0 || !in1 || !in2 || !in3 {
      checks := checks + [OutsideError(cutout, cutoutPos)];
    } else {
      assert forall k :: 0 <= k < 4 ==> InsidePolygon(corners[k], polygon);
    }
    var d0 := GetDistanceToEdge(corners[0], polygon);
    var d1 := GetDistanceToEdge(corners[1], polygon);
    var d2 := GetDistanceToEdge(corners[2], polygon);
    var d3 := GetDistanceToEdge(corners[3], polygon);
    var minDistance := MinDistance(MinDistance(MinDistance(d0, d1), d2), d3);
    if minDistance.sq < EDGE_THRESHOLD_SQ {
      checks := checks + [EdgeError(cutout, cutoutPos)];
    }
  }

  // ---------------------------------------------------------------- properties

  /** Without an outline only the dimension errors are reported. */
  lemma EmptyOutlineOnlyDimensionErrors(design: Design)
    requires GeneratePolygon(design.layout, design.dimensions, design.orientation) == []
    ensures ValidationErrors(design) == DimensionErrors(design)
  {
  }

  /** A straight or L design without cutouts is valid. */
  lemma NoCutoutsNoErrors(design: Design)
    requires design.layout != UShape && design.cutouts == []
    ensures ValidationErrors(design) == []
  {
  }

  /** The repository's test: a 100 x 60 straight top without cutouts has no errors. */
  lemma StraightExampleValid(style: Style)
    ensures ValidationErrors(Design(Straight, LeftL, Dimensions(Some(100.0), Some(60.0), None, None, None, None, None),
                                    style, None, [], None)) == []
  {
  }

  /** An edge-distance error means some corner of the cutout is within 3 cm of
      some point of the outline, and such a corner always produces one. */
  lemma TooCloseMeansNearEdge(corners: seq<Point>, poly: seq<Point>)
    requires |corners| == 4 && poly != []
    ensures TooCloseToEdge(corners, poly) <==>
      exists k, i, t :: 0 <= k < 4 && 0 <= i < |poly| && 0.0 <= t <= 1.0 &&
        SqDist(corners[k], Lerp(poly[i], Succ(poly, i), t)) < EDGE_THRESHOLD_SQ
  {
    if TooCloseToEdge(corners, poly) {
      var k :| 0 <= k < 4 && MinCornerDistSq(corners, poly) == CornerDistSq(corners[k], poly);
      var i, t := DistanceToEdgeAttained(corners[k], poly);
      assert SqDist(corners[k], Lerp(poly[i], Succ(poly, i), t)) < EDGE_THRESHOLD_SQ;
    }
    if exists k, i, t :: 0 <= k < 4 && 0 <= i < |poly| && 0.0 <= t <= 1.0 &&
        SqDist(corners[k], Lerp(poly[i], Succ(poly, i), t)) < EDGE_THRESHOLD_SQ {
      var k, i, t :| 0 <= k < 4 && 0 <= i < |poly| && 0.0 <= t <= 1.0 &&
        SqDist(corners[k], Lerp(poly[i], Succ(poly, i), t)) < EDGE_THRESHOLD_SQ;
      DistanceToEdgeIsMinimum(corners[k], poly, i, t);
    }
  }

  /** The number of errors of one kind. */
  function CountKind(errors: seq<ValidationError>, kind: ErrorKind): (n: nat)
    ensures n <= |errors|
  {
    if errors == [] then 0 else CountKind(errors[..|errors| - 1], kind) + if errors[|errors| - 1].kind == kind then 1 else 0
  }

  lemma {:induction false} CountKindAppend(a: seq<ValidationError>, b: seq<ValidationError>, kind: ErrorKind)
    ensures CountKind(a + b, kind) == CountKind(a, kind) + CountKind(b, kind)
  {
    if b != [] {
      CountKindAppend(a, b[..|b| - 1], kind);
      assert (a + b)[..|a + b| - 1] == a + b[..|b| - 1];
    } else {
      assert a + b == a;
    }
  }

  lemma {:induction false} CountKindNone(errors: seq<ValidationError>, kind: ErrorKind)
    requires forall e :: e in errors ==> e.kind != kind
    ensures CountKind(errors, kind) == 0
  {
    if errors != [] {
      assert forall e :: e in errors[..|errors| - 1] ==> e in errors;
      CountKindNone(errors[..|errors| - 1], kind);
    }
  }

  /** Each unordered pair is checked once: at most n (n - 1) / 2 overlap errors. */
  lemma OverlapErrorBound(design: Design)
    ensures var n := |design.cutouts|; 2 * CountKind(ValidationErrors(design), Overlap) <= n * (n - 1)
  {
    var poly := GeneratePolygon(design.layout, design.dimensions, design.orientation);
    var n := |design.cutouts|;
    var dims := DimensionErrors(design);
    var rest := if poly == [] then [] else CutoutErrorsUpTo(design, poly, n);
    assert ValidationErrors(design) == dims + rest;
    CountKindNone(dims, Overlap);
    CountKindAppend(dims, rest, Overlap);
    PairsTotal(n);
    if poly != [] {
      OverlapCountUpTo(design, poly, n);
    }
  }

  /** All n cutouts together have n (n - 1) / 2 later partners. */
  lemma PairsTotal(n: nat)
    ensures 2 * PairsBefore(n, n) == n * (n - 1)
  {
    AllPairs(n, n);
  }

  lemma {:induction false} OverlapCountUpTo(design: Design, poly: seq<Point>, k: int)
    requires poly != [] && 0 <= k <= |design.cutouts|
    ensures CountKind(CutoutErrorsUpTo(design, poly, k), Overlap) <= PairsBefore(|design.cutouts|, k)
  {
    if k > 0 {
      var n, j := |design.cutouts|, k - 1;
      OverlapCountUpTo(design, poly, j);
      OverlapCountStep(design, poly, j, k);
      var own := OverlapsUpTo(design, poly, j, n);
      assert CountKind(own, Overlap) <= |own| <= n - k;
      PairsStep(n, j, k);
    }
  }

  /** Cutout i adds only its own overlap errors to the count (k is i + 1). */
  lemma OverlapCountStep(design: Design, poly: seq<Point>, i: int, k: int)
    requires poly != [] && 0 <= i < |design.cutouts| && k == i + 1
    ensures CountKind(CutoutErrorsUpTo(design, poly, k), Overlap) ==
      CountKind(CutoutErrorsUpTo(design, poly, i), Overlap) + CountKind(OverlapsUpTo(design, poly, i, |design.cutouts|), Overlap)
  {
    CutoutErrorsStep(design, poly, i, k);
    ChecksAreNotOverlaps(design, poly, i);
    CountStep(CutoutErrorsUpTo(design, poly, k), CutoutErrorsUpTo(design, poly, i), CutoutChecks(design, poly, i),
      OverlapsUpTo(design, poly, i, |design.cutouts|), Overlap);
  }

  lemma CountStep(all: seq<ValidationError>, prev: seq<ValidationError>, checks: seq<ValidationError>,
                  overlaps: seq<ValidationError>, kind: ErrorKind)
    requires all == prev + (checks + overlaps) && CountKind(checks, kind) == 0
    ensures CountKind(all, kind) == CountKind(prev, kind) + CountKind(overlaps, kind)
  {
    CountKindAppend(prev, checks + overlaps, kind);
    CountKindAppend(checks, overlaps, kind);
  }

  lemma CutoutErrorsStep(design: Design, poly: seq<Point>, i: int, k: int)
    requires poly != [] && 0 <= i < |design.cutouts| && k == i + 1
    ensures CutoutErrorsUpTo(design, poly, k) ==
      CutoutErrorsUpTo(design, poly, i) + (CutoutChecks(design, poly, i) + OverlapsUpTo(design, poly, i, |design.cutouts|))
  {
  }

  lemma ChecksAreNotOverlaps(design: Design, poly: seq<Point>, i: int)
    requires poly != [] && 0 <= i < |design.cutouts|
    ensures CountKind(CutoutChecks(design, poly, i), Overlap) == 0
  {
    CutoutChecksReport(design, poly, i);
    CountKindNone(CutoutChecks(design, poly, i), Overlap);
  }

  /** The number of pairs (i, j) with i < k and i < j < n. */
  function PairsBefore(n: int, k: nat): int {
    if k == 0 then 0 else PairsBefore(n, k - 1) + (n - k)
  }

  lemma PairsStep(n: int, j: nat, k: nat)
    requires k == j + 1
    ensures PairsBefore(n, k) == PairsBefore(n, j) + (n - k)
  {
  }

  lemma {:induction false} AllPairs(n: nat, k: nat)
    requires k <= n
    ensures 2 * PairsBefore(n, k) == k * (2 * n - k - 1)
  {
    if k > 0 {
      AllPairs(n, k - 1);
    }
  }

  /** The checks of cutout i report an outside-bounds error exactly when a
      corner fails the ray test, and an edge error exactly when a corner is
      closer than 3 cm to the outline; both sit at the cutout's centre. */
  lemma CutoutChecksReport(design: Design, poly: seq<Point>, i: int)
    requires poly != [] && 0 <= i < |design.cutouts|
    ensures var c := design.cutouts[i]; var pos := CalculateCutoutPosition(c, poly); var r := CutoutChecks(design, poly, i);
      (OutsideError(c, pos) in r <==> SomeCornerOutside(Corners(pos, c), poly)) &&
      (EdgeError(c, pos) in r <==> TooCloseToEdge(Corners(pos, c), poly)) &&
      (forall e :: e in r ==> e.position == Some(pos) && (e.kind == OutsideBounds || e.kind == EdgeDistance))
  {
  }

  /** Every overlap error of cutout i names a later cutout j whose rectangle
      overlaps and sits at the midpoint of the two centres; every such j is
      reported. A cutout is never reported against itself. */
  lemma {:induction false} OverlapErrorsArePairs(design: Design, poly: seq<Point>, i: int, m: int)
    requires 0 <= i < |design.cutouts| && 0 <= m <= |design.cutouts|
    ensures var r := OverlapsUpTo(design, poly, i, m);
      (forall e :: e in r ==> exists j :: i < j < m && PairOverlaps(design, poly, i, j) && e == OverlapError(design, poly, i, j)) &&
      (forall j :: i < j < m && PairOverlaps(design, poly, i, j) ==> OverlapError(design, poly, i, j) in r)
  {
    if m > 0 {
      OverlapErrorsArePairs(design, poly, i, m - 1);
    }
  }

  /** The position of an overlap error is the midpoint of the two centres. */
  lemma OverlapErrorAtMidpoint(design: Design, poly: seq<Point>, i: int, j: int)
    requires 0 <= i < j < |design.cutouts|
    ensures OverlapError(design, poly, i, j).position ==
      Some(Midpoint(CalculateCutoutPosition(design.cutouts[i], poly), CalculateCutoutPosition(design.cutouts[j], poly)))
    ensures OverlapError(design, poly, i, j).kind == Overlap
  {
  }

  lemma {:induction false} OverlapsAreOverlaps(design: Design, poly: seq<Point>, i: int, m: int)
    requires 0 <= i < |design.cutouts| && 0 <= m <= |design.cutouts|
    ensures forall e :: e in OverlapsUpTo(design, poly, i, m) ==> e.kind == Overlap
  {
    if m > 0 {
      OverlapsAreOverlaps(design, poly, i, m - 1);
    }
  }

  /** Every overlap error of the whole validation names a pair i < j of
      overlapping cutouts and sits at the midpoint of their centres. */
  lemma OverlapErrorsInDesign(design: Design)
    ensures var poly := GeneratePolygon(design.layout, design.dimensions, design.orientation);
      forall e :: e in ValidationErrors(design) && e.kind == Overlap ==>
        exists i, j :: 0 <= i < j < |design.cutouts| && PairOverlaps(design, poly, i, j) &&
                       e == OverlapError(design, poly, i, j) &&
                       e.position == Some(Midpoint(CalculateCutoutPosition(design.cutouts[i], poly),
                                                   CalculateCutoutPosition(design.cutouts[j], poly)))
  {
    var poly := GeneratePolygon(design.layout, design.dimensions, design.orientation);
    forall e | e in ValidationErrors(design) && e.kind == Overlap
      ensures exists i, j :: 0 <= i < j < |design.cutouts| && PairOverlaps(design, poly, i, j) &&
                               e == OverlapError(design, poly, i, j) &&
                               e.position == Some(Midpoint(CalculateCutoutPosition(design.cutouts[i], poly),
                                                           CalculateCutoutPosition(design.cutouts[j], poly)))
    {
      assert e !in DimensionErrors(design);
      assert poly != [] && e in CutoutErrorsUpTo(design, poly, |design.cutouts|);
      var i, j := OverlapErrorPair(design, poly, e);
      OverlapErrorAtMidpoint(design, poly, i, j);
    }
  }

  /** Conversely, when the outline exists every overlapping pair i < j is reported. */
  lemma OverlappingPairsReported(design: Design, i: int, j: int)
    requires 0 <= i < j < |design.cutouts|
    ensures var poly := GeneratePolygon(design.layout, design.dimensions, design.orientation);
      poly != [] && PairOverlaps(design, poly, i, j) ==> OverlapError(design, poly, i, j) in ValidationErrors(design)
  {
    var poly := GeneratePolygon(design.layout, design.dimensions, design.orientation);
    if poly != [] && PairOverlaps(design, poly, i, j) {
      PairReported(design, poly, i, j);
    }
  }

  /** An overlap error among all cutouts' reports names an overlapping pair. */
  lemma OverlapErrorPair(design: Design, poly: seq<Point>, e: ValidationError) returns (i: int, j: int)
    requires poly != [] && e in CutoutErrorsUpTo(design, poly, |design.cutouts|) && e.kind == Overlap
    ensures 0 <= i < j < |design.cutouts| && PairOverlaps(design, poly, i, j) && e == OverlapError(design, poly, i, j)
  {
    assert CutoutErrorsUpTo(design, poly, 0) == [];
    PairsUpTo(design, poly, 0, |design.cutouts|);
    PairErrorsMember(design, poly, CutoutErrorsUpTo(design, poly, |design.cutouts|), e);
    i, j :| 0 <= i < j < |design.cutouts| && PairOverlaps(design, poly, i, j) && e == OverlapError(design, poly, i, j);
  }

  /** An overlapping pair i < j is among all cutouts' reports. */
  lemma PairReported(design: Design, poly: seq<Point>, i: int, j: int)
    requires poly != [] && 0 <= i < j < |design.cutouts| && PairOverlaps(design, poly, i, j)
    ensures OverlapError(design, poly, i, j) in CutoutErrorsUpTo(design, poly, |design.cutouts|)
  {
    PairInReport(design, poly, i, j);
    ReportedAll(design, poly, i, OverlapError(design, poly, i, j));
  }

  /** What cutout i reports is among all cutouts' reports. */
  lemma ReportedAll(design: Design, poly: seq<Point>, i: int, e: ValidationError)
    requires poly != [] && 0 <= i < |design.cutouts| && e in CutoutErrors(design, poly, i)
    ensures e in CutoutErrorsUpTo(design, poly, |design.cutouts|)
  {
    ReportOwn(design, poly, i + 1, e);
    ReportedUpTo(design, poly, i + 1, |design.cutouts|, e);
  }

  /** `e`, if it is an overlap error, names a pair i < j of overlapping cutouts. */
  ghost predicate IsPairError(design: Design, poly: seq<Point>, e: ValidationError) {
    e.kind == Overlap ==>
      exists i, j :: 0 <= i < j < |design.cutouts| && PairOverlaps(design, poly, i, j) && e == OverlapError(design, poly, i, j)
  }

  /** Every error of `s` satisfies IsPairError. */
  ghost predicate PairErrors(design: Design, poly: seq<Point>, s: seq<ValidationError>)
    decreases |s|
  {
    s != [] ==> PairErrors(design, poly, s[..|s| - 1]) && IsPairError(design, poly, s[|s| - 1])
  }

  lemma {:induction false} PairErrorsAppend(design: Design, poly: seq<Point>, a: seq<ValidationError>, b: seq<ValidationError>)
    requires PairErrors(design, poly, a) && PairErrors(design, poly, b)
    ensures PairErrors(design, poly, a + b)
    decreases |b|
  {
    if b == [] {
      assert a + b == a;
    } else {
      PairErrorsAppend(design, poly, a, b[..|b| - 1]);
      assert (a + b)[..|a + b| - 1] == a + b[..|b| - 1];
    }
  }

  lemma {:induction false} PairErrorsMember(design: Design, poly: seq<Point>, s: seq<ValidationError>, e: ValidationError)
    requires PairErrors(design, poly, s) && e in s
    ensures IsPairError(design, poly, e)
    decreases |s|
  {
    if e != s[|s| - 1] {
      assert s == s[..|s| - 1] + [s[|s| - 1]];
      PairErrorsMember(design, poly, s[..|s| - 1], e);
    }
  }

  lemma {:induction false} PairErrorsOf(design: Design, poly: seq<Point>, s: seq<ValidationError>)
    requires forall e :: e in s ==> IsPairError(design, poly, e)
    ensures PairErrors(design, poly, s)
    decreases |s|
  {
    if s != [] {
      assert forall e :: e in s[..|s| - 1] ==> e in s;
      PairErrorsOf(design, poly, s[..|s| - 1]);
    }
  }

  /** Carrying PairErrors from the first i cutouts' reports to the first k. */
  lemma {:induction false} PairsUpTo(design: Design, poly: seq<Point>, i: int, k: int)
    requires poly != [] && 0 <= i <= k <= |design.cutouts|
    requires PairErrors(design, poly, CutoutErrorsUpTo(design, poly, i))
    ensures PairErrors(design, poly, CutoutErrorsUpTo(design, poly, k))
    decreases k - i
  {
    if i < k {
      PairsGrow(design, poly, i + 1);
      PairsUpTo(design, poly, i + 1, k);
    }
  }

  lemma PairsGrow(design: Design, poly: seq<Point>, k: int)
    requires poly != [] && 0 < k <= |design.cutouts|
    requires PairErrors(design, poly, CutoutErrorsUpTo(design, poly, k - 1))
    ensures PairErrors(design, poly, CutoutErrorsUpTo(design, poly, k))
  {
    PairsInReport(design, poly, k - 1);
    CutoutErrorsNext(design, poly, k);
    PairErrorsAppend(design, poly, CutoutErrorsUpTo(design, poly, k - 1), CutoutErrors(design, poly, k - 1));
  }

  lemma PairsInReport(design: Design, poly: seq<Point>, i: int)
    requires poly != [] && 0 <= i < |design.cutouts|
    ensures PairErrors(design, poly, CutoutErrors(design, poly, i))
  {
    forall e | e in CutoutErrors(design, poly, i)
      ensures IsPairError(design, poly, e)
    {
      if e.kind == Overlap {
        OverlapInReportIsPair(design, poly, i, e);
      }
    }
    PairErrorsOf(design, poly, CutoutErrors(design, poly, i));
  }

  /** What the first i cutouts report stays reported for the first k. */
  lemma {:induction false} ReportedUpTo(design: Design, poly: seq<Point>, i: int, k: int, e: ValidationError)
    requires poly != [] && 0 <= i <= k <= |design.cutouts|
    requires e in CutoutErrorsUpTo(design, poly, i)
    ensures e in CutoutErrorsUpTo(design, poly, k)
    decreases k - i
  {
    if i < k {
      ReportKept(design, poly, i + 1, e);
      ReportedUpTo(design, poly, i + 1, k, e);
    }
  }

  lemma ReportKept(design: Design, poly: seq<Point>, k: int, e: ValidationError)
    requires poly != [] && 0 < k <= |design.cutouts|
    requires e in CutoutErrorsUpTo(design, poly, k - 1)
    ensures e in CutoutErrorsUpTo(design, poly, k)
  {
    CutoutErrorsNext(design, poly, k);
  }

  lemma ReportOwn(design: Design, poly: seq<Point>, k: int, e: ValidationError)
    requires poly != [] && 0 < k <= |design.cutouts|
    requires e in CutoutErrors(design, poly, k - 1)
    ensures e in CutoutErrorsUpTo(design, poly, k)
  {
    CutoutErrorsNext(design, poly, k);
  }

  lemma CutoutErrorsNext(design: Design, poly: seq<Point>, k: int)
    requires poly != [] && 0 < k <= |design.cutouts|
    ensures CutoutErrorsUpTo(design, poly, k) == CutoutErrorsUpTo(design, poly, k - 1) + CutoutErrors(design, poly, k - 1)
  {
  }

  /** The overlap errors in cutout i's report are its overlapping pairs. */
  lemma OverlapInReportIsPair(design: Design, poly: seq<Point>, i: int, e: ValidationError)
    requires poly != [] && 0 <= i < |design.cutouts|
    requires e in CutoutErrors(design, poly, i) && e.kind == Overlap
    ensures exists j :: i < j < |design.cutouts| && PairOverlaps(design, poly, i, j) && e == OverlapError(design, poly, i, j)
  {
    var n := |design.cutouts|;
    CutoutChecksReport(design, poly, i);
    ReportStep(CutoutErrors(design, poly, i), [], CutoutChecks(design, poly, i), OverlapsUpTo(design, poly, i, n));
    OverlapErrorsArePairs(design, poly, i, n);
  }

  lemma PairInReport(design: Design, poly: seq<Point>, i: int, j: int)
    requires poly != [] && 0 <= i < j < |design.cutouts| && PairOverlaps(design, poly, i, j)
    ensures OverlapError(design, poly, i, j) in CutoutErrors(design, poly, i)
  {
    var n := |design.cutouts|;
    OverlapErrorsArePairs(design, poly, i, n);
    assert OverlapError(design, poly, i, j) in OverlapsUpTo(design, poly, i, n);
    assert CutoutErrors(design, poly, i) == CutoutChecks(design, poly, i) + OverlapsUpTo(design, poly, i, n);
  }

  /** One step of the report: an overlap error of `all` comes from `prev` or
      from `overlaps`, since `checks` holds none, and both are kept. */
  lemma ReportStep(all: seq<ValidationError>, prev: seq<ValidationError>, checks: seq<ValidationError>,
                   overlaps: seq<ValidationError>)
    requires all == prev + (checks + overlaps)
    requires forall e :: e in checks ==> e.kind != Overlap
    ensures forall e :: e in all && e.kind == Overlap ==> e in prev || e in overlaps
    ensures forall e :: e in prev || e in overlaps ==> e in all
  {
  }
}
