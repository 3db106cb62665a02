# Countertop configurator core, modelled in Dafny

This project models the computational core of a kitchen-countertop configurator. A design has:

- a layout: straight ("prosty"), L-shaped ("l-ksztaltny") or U-shaped ("u-ksztaltny");
- an L orientation (left-l or right-l);
- optional dimensions in centimetres;
- a material style, optional per-segment styles, cutouts (sinks, hobs, holes) and dividers.

The model covers:

- **Outline and geometry.** The layout becomes an outline polygon, and each arm becomes a rectangular segment (`Outline`, `Segments`). The model also covers:
  - the ray-casting point-in-polygon test and point-to-edge distances (`Primitives`);
  - rectangle overlap and grid snapping (`Primitives`);
  - cutout positions, measured from a corner of the outline's bounding box (`Positioning`).
- **Validation.** Dimension checks for the U layout, then outside-bounds, 3 cm edge-distance and pairwise overlap checks for each cutout (`Validation`).
- **Automatic fixes** for validation errors, and the summary line (`AutoFix`).
- **Pricing** (`Pricing`):
  - area by the shoelace formula;
  - perimeter as a sum of edge lengths;
  - material rate from the catalogue, with a 120 PLN/m² fallback;
  - cutout, labour, edge and VAT costs.
- **The design reducer** and its default design (`DesignStore`).
- **Unit conversion** between cm, mm and inches (`Settings`).
- **Dimension lines** drawn around the countertop and its cutouts (`Dimensioning`).

Imperative code is modelled as methods with loops, each proved equal to a specification function. This covers:

- the point-in-polygon test;
- distance scans;
- segment slicing;
- validation;
- the overlap-fix grid search;
- the area and perimeter loops;
- the dimension-line pushes.

Lemmas then state the properties of those functions.

Parameters stand in for what the model cannot compute:

- `Math.sqrt` is a parameter `sqrt: real -> real`. Results that need a true square root assume `IsSqrt(sqrt)`.
- The edge-distance check avoids square roots: it compares squared distances with 3² = 9.
- Ids from `Date.now()` are a `freshId` parameter of the reducer.
- The unit store's current unit is a parameter of `ConvertValue`.
- The label formatter of the dimension lines is a parameter `fmt: real -> string`. The formatter the application passes is modelled separately as `Fmt`/`DisplayNumber`. Only the final number-to-text step is a parameter (`render`).

Numbers are `real`. JavaScript falsiness of a number (`!x`, `x || d`) means "missing or zero". `Math.round(x)` is `floor(x + 1/2)`.

## Model

| member | source | states |
|---|---|---|
| Types.OrElse | src/store/designStore.tsx:52-54 | `x \|\| d`: the default when the value is missing or zero, the value itself otherwise |
| Types.Round | src/utils/validation.ts:169-170 | `Math.round`: an integer within half a unit of x, halves rounded up |
| Types.Abs | src/utils/pricing.ts:68 | `Math.abs`: non-negative and equal to x or -x |
| Text.Upper | src/store/designStore.tsx:99 | `toUpperCase` on ASCII: same length, each ASCII letter upper-cased, every other character kept (see Left out) |
| Text.Lower | src/utils/geometry.ts:373 | `toLowerCase` on ASCII: same length, each ASCII letter lower-cased, every other character kept (see Left out) |
| Text.IncludesItself | src/utils/validation.ts:133 | `includes`: every string contains itself |
| Text.NatToString | src/utils/geometry.ts:431 | a counter printed in a template is a non-empty string of decimal digits |
| Config.CutoutTypePrice | src/constants/index.ts:9-33 | every cutout type's catalogue price lies between 40 and 300 |
| Outline.GeneratePolygon | src/utils/geometry.ts:11-82 | the outline is empty exactly when a dimension the layout needs is missing or zero (for U only the depth); otherwise it has 4, 6 or 8 vertices starting at the origin |
| Outline.OutlineAxisAligned | src/utils/geometry.ts:11-82 | every edge of every generated outline is horizontal or vertical |
| Outline.StraightOutline | src/utils/geometry.ts:19-28 | a straight top is the rectangle (0,0), (length,0), (length,depth), (0,depth) |
| Outline.StraightOutlineExample | tests/utils/geometry.test.ts:5-10 | the repository's test: a 100 x 60 top has 4 vertices, the first (0,0) and the third (100,60) |
| Outline.LOutlineStart | src/utils/geometry.ts:30-55 | an L outline has six vertices and starts along the top edge from (0,0) to (lengthA,0) |
| Outline.BoundingBox | src/utils/geometry.ts:165-168 | the min/max box of the vertices holds every vertex |
| Outline.BoundingBoxAttained | src/utils/geometry.ts:165-168 | each side of the box is touched by a vertex, so no smaller box holds them all |
| Outline.UOutlineExtent | src/utils/geometry.ts:57-77 | a U top with 0 < depth <= C spans x from 0 to C and y from 0 to the longer arm plus the depth |
| Outline.BoundingBoxIs | src/utils/geometry.ts:165-168 | a box that holds every vertex and whose four sides are each touched is the bounding box |
| Primitives.IsPointInPolygon | src/utils/geometry.ts:84-96 | the ray-casting loop returns the parity of the crossing edges; it returns false for an empty polygon |
| Primitives.InsideStraightOutline | src/utils/geometry.ts:84-96 | for a rectangle the ray test accepts exactly 0 <= x < length and 0 <= y < depth (a half-open box) |
| Primitives.SegmentDistSq | src/utils/geometry.ts:110-140 | the squared point-to-segment distance is non-negative; for a degenerate segment it is the distance to its point |
| Primitives.SqDistAlong | src/utils/geometry.ts:116-134 | the squared distance to the point at parameter t is a quadratic in t built from the dot product and the squared length |
| Primitives.ClampMinimizes | src/utils/geometry.ts:118-135 | the parameter clamped to [0,1] minimises that quadratic over [0,1] |
| Primitives.SqDistZero | src/utils/geometry.ts:137-139 | a squared distance is zero exactly for equal points |
| Primitives.SegmentMinAt | src/utils/geometry.ts:118-139 | the clamped projection is the closest point of the segment |
| Primitives.SegmentDistIsMinimum | src/utils/geometry.ts:110-140 | the computed distance is the minimum over all points of the segment, and some point attains it |
| Primitives.DistancePointToLineSegment | src/utils/geometry.ts:110-140 | the method computes the segment distance, squared |
| Primitives.EdgeDistUpTo | src/utils/geometry.ts:98-108 | the running minimum is +infinity before the first edge and a finite non-negative value after it |
| Primitives.EdgeDistUpToIsMinimum | src/utils/geometry.ts:98-108 | after k edges the running minimum is at most every edge distance seen and equals one of them |
| Primitives.DistanceToEdgeSq | src/utils/geometry.ts:98-108 | the distance to the outline is +infinity exactly for an empty polygon |
| Primitives.GetDistanceToEdge | src/utils/geometry.ts:98-108 | the loop over the edges computes that minimum |
| Primitives.DistanceToEdgeIsMinimum | src/utils/geometry.ts:98-108 | the distance to the outline is at most the distance to any point of any edge |
| Primitives.DistanceToEdgeAttained | src/utils/geometry.ts:98-108 | some point of some edge attains the distance to the outline |
| Primitives.OverlapSymmetric | src/utils/geometry.ts:142-152 | the rectangle overlap test is symmetric |
| Primitives.OverlapSelf | src/utils/geometry.ts:142-152 | a rectangle overlaps itself exactly when its width and height are positive |
| Primitives.TouchingDoNotOverlap | src/utils/geometry.ts:146-151 | rectangles that only share an edge do not overlap |
| Primitives.OverlapMeansCommonInterior | src/utils/geometry.ts:142-152 | for rectangles of positive size, overlap means a common interior point |
| Primitives.CommonInteriorOverlaps | src/utils/geometry.ts:142-152 | a common interior point always counts as an overlap |
| Primitives.SnapToGrid | src/utils/geometry.ts:154-156 | the snapped value is a whole multiple of the grid size within half a grid step of the input |
| Primitives.SnapBound | src/utils/geometry.ts:154-156 | rounding value/grid moves the value by at most half a grid step |
| Positioning.CalculateCutoutPosition | src/utils/geometry.ts:158-188 | the centre is (0,0) without an outline; otherwise its distance from the chosen side of the bounding box is the offset |
| Positioning.CalculateOffsetsFromPosition | src/utils/geometry.ts:203-232 | offsets are clamped at 0 and are (0,0) without an outline |
| Positioning.OffsetsRoundTrip | src/utils/geometry.ts:158-232 | offsets to centre to offsets gives back non-negative offsets exactly |
| Positioning.PositionRoundTrip | src/utils/geometry.ts:158-232 | centre to offsets to centre gives back any centre inside the bounding box, from any corner |
| Positioning.OffsetsClampAtCorner | src/utils/geometry.ts:219-231 | a centre left of and in front of the box maps to offsets (0,0) |
| Positioning.CentreInCutout | src/utils/geometry.ts:190-201 | a cutout contains its own centre exactly when its width and depth are non-negative |
| Segments.GenerateSegmentPolygons | src/utils/geometry.ts:234-353 | no segments exactly when there is no outline; otherwise one four-cornered parallelogram per arm, with ids main / A,B / A,B,C |
| Segments.StraightSegmentIsOutline | src/utils/geometry.ts:242-255 | the one segment of a straight top is the whole outline |
| Segments.SegmentsInsideOutlineBox | src/utils/geometry.ts:234-353 | every corner of every segment lies in the outline's bounding box |
| Segments.SegmentCornerCoordinates | src/utils/geometry.ts:234-353 | each coordinate of a segment corner is a coordinate of an outline vertex |
| Segments.CreateSegmentBetweenPositions | src/utils/geometry.ts:439-473 | null for fewer than four corners; otherwise a slice with the given id whose near side runs from fraction start to fraction end |
| Segments.WholeSliceIsSegment | src/utils/geometry.ts:439-473 | the slice from 0 to 1 of a parallelogram is the parallelogram |
| Segments.SlicesShareSide | src/utils/geometry.ts:455-466 | slices [s,t] and [t,u] share the side at fraction t |
| Segments.FirstCodeUnit | src/utils/geometry.ts:435 | `charCodeAt(0)` is a UTF-16 code unit |
| Segments.GenerateNewSegmentId | src/utils/geometry.ts:429-437 | "main" for the first slice of main, "main-(k+1)" for later ones; otherwise a one-character id |
| Segments.LetterIds | src/utils/geometry.ts:434-436 | for a letter id, slice k gets the letter k places further on |
| Segments.SegmentIdsDistinct | src/utils/geometry.ts:429-437 | two slices of one segment never get the same id |
| Segments.MainIdsDistinct | src/utils/geometry.ts:430-432 | main's slice ids never repeat |
| Segments.NatToStringInjective | src/utils/geometry.ts:431 | different counters print differently |
| Segments.NatToStringLength | src/utils/geometry.ts:431 | numbers from 10 on print with at least two digits |
| Segments.DividersOf | src/utils/geometry.ts:372-373 | exactly the dividers whose segment id matches case-insensitively |
| Segments.Insert | src/utils/geometry.ts:374 | inserting into a position-sorted list keeps it sorted and adds exactly that divider |
| Segments.InsertFront | src/utils/geometry.ts:374 | a divider no later than all of a sorted list can go first |
| Segments.SortByPosition | src/utils/geometry.ts:374 | the sort by position gives a sorted permutation |
| Segments.GenerateSegmentPolygonsWithDividers | src/utils/geometry.ts:355-427 | the forEach over the base segments computes the specified slices |
| Segments.SliceSegment | src/utils/geometry.ts:383-423 | the per-segment callback computes the specified slices |
| Segments.UnmatchedSegmentsPassThrough | src/utils/geometry.ts:376-379 | segments that no divider names pass through whole |
| Segments.NoOwnDividers | src/utils/geometry.ts:372-376 | a segment that no divider names has no dividers |
| Segments.NoMatchingDividers | src/utils/geometry.ts:355-427 | dividers naming none of the layout's segments leave the segments unchanged |
| Segments.SplitPrefixChain | src/utils/geometry.ts:393-414 | the slicing loop keeps its invariant: ids numbered by the counter, adjacent slices share a side, `previousPosition` is the last divider |
| Segments.ChainAppend | src/utils/geometry.ts:398-411 | appending the next slice keeps the loop invariant |
| Segments.ChainKeep | src/utils/geometry.ts:413 | skipping a divider at the previous position keeps the loop invariant |
| Segments.SplitSegmentChain | src/utils/geometry.ts:383-423 | the slices of a segment are numbered 0,1,2,... by `generateNewSegmentId`, and each starts where the previous one ends |
| Segments.FirstSliceAtStart | src/utils/geometry.ts:396-411 | the first slice starts at the start of the segment |
| Segments.SplitCoversSegment | src/utils/geometry.ts:383-423 | with dividers strictly inside, the slices run from the start of the near side to its end |
| Validation.DimensionErrors | src/utils/validation.ts:15-29 | only the U layout is checked; the result holds only the four dimension errors, at most once each and in the order depth, gap, left arm, right arm; each field gets its error exactly when it is missing, zero or below 10 |
| Validation.Corners | src/utils/validation.ts:41-53 | a cutout has four corners |
| Validation.CornerDistSq | src/utils/validation.ts:67 | a corner's distance to a non-empty outline is non-negative |
| Validation.MinCornerDistSq | src/utils/validation.ts:67 | the edge check uses the least of the four corners' distances |
| Validation.MinOfFour | src/utils/validation.ts:67 | `Math.min` of four values is one of them and no larger than any |
| Validation.CutoutChecks | src/utils/validation.ts:55-77 | a cutout gets at most two errors, outside-bounds and edge-distance |
| Validation.OverlapsUpTo | src/utils/validation.ts:80-108 | cutout i is compared only with later cutouts, so it has at most one overlap error per later cutout |
| Validation.ValidateDesign | src/utils/validation.ts:12-112 | the method computes exactly the specified errors |
| Validation.CheckCutouts | src/utils/validation.ts:37-109 | the cutout loop computes the errors of every cutout in order |
| Validation.CheckOverlaps | src/utils/validation.ts:80-108 | the inner loop computes the overlap errors of one cutout |
| Validation.CheckCutout | src/utils/validation.ts:38-77 | the bounds and edge checks of one cutout |
| Validation.EmptyOutlineOnlyDimensionErrors | src/utils/validation.ts:30-34 | without an outline only the dimension errors are reported |
| Validation.NoCutoutsNoErrors | src/utils/validation.ts:12-112 | a straight or L design without cutouts has no errors |
| Validation.StraightExampleValid | tests/utils/validation.test.ts:5-17 | the repository's test: a 100 x 60 straight top without cutouts has no errors |
| Validation.TooCloseMeansNearEdge | src/utils/validation.ts:66-77 | an edge error is reported exactly when some corner lies within 3 cm of some point of the outline |
| Validation.CountKind | src/utils/validation.ts:119-121 | a count of errors of one kind is at most the number of errors |
| Validation.CountKindAppend | src/utils/validation.ts:119-121 | counting distributes over concatenation |
| Validation.CountKindNone | src/utils/validation.ts:119-121 | a list with no errors of a kind counts zero |
| Validation.OverlapErrorBound | src/utils/validation.ts:80-81 | each unordered pair is checked once: at most n(n-1)/2 overlap errors |
| Validation.OverlapCountUpTo | src/utils/validation.ts:37-109 | the first k cutouts give at most as many overlap errors as they have later partners |
| Validation.OverlapCountStep | src/utils/validation.ts:37-109 | cutout i adds only its own overlap errors to the count |
| Validation.ChecksAreNotOverlaps | src/utils/validation.ts:55-77 | bounds and edge checks never produce overlap errors |
| Validation.AllPairs | src/utils/validation.ts:80-81 | the later-partner counts sum to k(2n-k-1)/2 |
| Validation.CutoutChecksReport | src/utils/validation.ts:55-77 | an outside-bounds error exactly when a corner fails the ray test, an edge error exactly when a corner is within 3 cm; both at the centre |
| Validation.OverlapErrorsArePairs | src/utils/validation.ts:80-108 | every overlap error of cutout i names a later overlapping cutout, and every later overlapping cutout is reported |
| Validation.OverlapErrorsInDesign | src/utils/validation.ts:80-108 | every overlap error in the whole result of `validateDesign` names a pair i < j of overlapping cutouts and sits at the midpoint of their centres |
| Validation.OverlappingPairsReported | src/utils/validation.ts:80-108 | conversely, when the outline exists, every overlapping pair i < j has its error in the whole result |
| Validation.OverlapsAreOverlaps | src/utils/validation.ts:97-106 | the inner loop reports only overlap errors |
| AutoFix.Join | src/utils/validation.ts:128 | `join` of no parts is empty and of one part is that part |
| AutoFix.GetValidationSummary | src/utils/validation.ts:114-129 | the all-clear message exactly when there are no errors; otherwise it starts with the total count |
| AutoFix.CountKindZero | src/utils/validation.ts:119-126 | a kind counts zero exactly when no error has it |
| AutoFix.SummaryPartsListKinds | src/utils/validation.ts:119-126 | one part per kind (edge, overlap, bounds) that occurs; none exactly when every error is a dimension error |
| AutoFix.SumXBounds | src/utils/validation.ts:154 | the sum of n x-coordinates in [lo,hi] lies in [n lo, n hi] |
| AutoFix.SumYBounds | src/utils/validation.ts:155 | the same for y-coordinates |
| AutoFix.CentroidInBox | src/utils/validation.ts:154-155 | the centre the fixes use (the vertex mean) lies in the bounding box |
| AutoFix.CentroidXInRange | src/utils/validation.ts:154 | the mean x lies within any range holding every vertex's x |
| AutoFix.CentroidYInRange | src/utils/validation.ts:155 | the mean y lies within any range holding every vertex's y |
| AutoFix.WithOffsets | src/utils/validation.ts:167-171 | `{...cutout, offsetX, offsetY}` changes the offsets and nothing else |
| AutoFix.PlaceAt | src/utils/validation.ts:179-190 | placing at a target only changes the offsets, and both are non-negative |
| AutoFix.FixOutsideBoundsError | src/utils/validation.ts:174-191 | the outside fix only changes the offsets, and both are non-negative |
| AutoFix.PlaceAtIsNear | src/utils/validation.ts:179-190 | for a target inside the box the rounded offsets put the centre within 0.5 cm of it on each axis |
| AutoFix.OutsideFixCentres | src/utils/validation.ts:174-191 | after the outside fix the centre is within 0.5 cm of the centroid on each axis |
| AutoFix.FixEdgeDistanceError | src/utils/validation.ts:149-172 | the edge fix only changes the offsets (non-negative); it is undefined (NaN) exactly when the step is |
| AutoFix.StepIsFiveTowardsCentroid | src/utils/validation.ts:158-163 | the step moves the centre exactly 5 cm, along the line to the centroid |
| AutoFix.UnitDirection | src/utils/validation.ts:158-163 | the direction divided by its length is a unit vector |
| AutoFix.EdgeStepGeometry | src/utils/validation.ts:158-163 | the step is undefined exactly when the centre is on the centroid; otherwise it is 5 cm long and ends |length-5| from the centroid |
| AutoFix.EdgeFixNearTarget | src/utils/validation.ts:149-172 | when the step's target is inside the box, the fixed centre is within 0.5 cm of it on each axis |
| AutoFix.OthersOf | src/utils/validation.ts:195 | exactly the cutouts with a different id |
| AutoFix.SearchFrom | src/utils/validation.ts:198-225 | a found placement is free, changes only the offsets, lies in the grid and is not before the start |
| AutoFix.SearchIsFirstFit | src/utils/validation.ts:198-225 | every placement the search skips is blocked; it finds nothing exactly when all are blocked |
| AutoFix.FixOverlapError | src/utils/validation.ts:193-229 | the nested loops compute the first-fit placement or the unchanged cutout |
| AutoFix.OverlapFixResult | src/utils/validation.ts:193-229 | the result is the first grid placement overlapping no other cutout; the cutout is unchanged exactly when all 36 overlap |
| AutoFix.FindCutout | src/utils/validation.ts:133 | the first cutout whose id is a substring of the error id; none exactly when no id is |
| AutoFix.GetAutoFixSuggestion | src/utils/validation.ts:131-147 | the method computes the specified suggestion |
| AutoFix.SuggestionsMoveTheMatchedCutout | src/utils/validation.ts:131-147 | dimension errors get no suggestion and are the only kind `canAutoFix` refuses; without an outline there is none; a suggestion moves the matched cutout's offsets only |
| AutoFix.ReportedErrorFindsCutout | src/utils/validation.ts:58-76 | an edge or outside error reported for a cutout always finds a cutout |
| AutoFix.SubstringMatchTakesEarlierCutout | src/utils/validation.ts:133 | with ids "1" and "11", the errors of "11" are routed to "1" |
| Pricing.CountertopArea | src/utils/pricing.ts:57-72 | the area is non-negative and 0 without an outline |
| Pricing.CalculateCountertopArea | src/utils/pricing.ts:57-72 | the shoelace loop computes the specified area in m² |
| Pricing.ShoelaceSum | src/utils/pricing.ts:62-67 | the loop accumulates the shoelace cross terms |
| Pricing.StraightArea | src/utils/pricing.ts:57-72 | a straight top's area is |length x depth| / 10000 |
| Pricing.LArea | src/utils/pricing.ts:57-72 | an L top's area is |depth x (lengthA + lengthB)| / 10000 |
| Pricing.LeftLShoelace | src/utils/pricing.ts:62-67 | the left-L shoelace sum is twice depth x (A + B) |
| Pricing.RightLShoelace | src/utils/pricing.ts:62-67 | the right-L shoelace sum is twice depth x (A + B) |
| Pricing.UArea | src/utils/pricing.ts:57-72 | a U top's area is |depth x (C + left + right)| / 10000 |
| Pricing.EdgeLength | src/utils/pricing.ts:74-87 | the perimeter is 0 without an outline |
| Pricing.CalculateEdgeLength | src/utils/pricing.ts:74-87 | the loop computes the specified perimeter |
| Pricing.RootOfSquare | src/utils/pricing.ts:83 | a non-negative root of x² is |x| |
| Pricing.AxisEdgeLen | src/utils/pricing.ts:81-83 | an axis-parallel edge's length is |dx| + |dy| |
| Pricing.PerimeterIsTaxicab | src/utils/pricing.ts:78-84 | for an axis-aligned outline the perimeter is the sum of |dx| + |dy| |
| Pricing.EdgeLengthIsTaxicab | src/utils/pricing.ts:74-87 | every generated outline's perimeter is its taxicab sum |
| Pricing.StraightEdgeLength | src/utils/pricing.ts:74-87 | a straight top's edge is 2(|length| + |depth|) |
| Pricing.LEdgeLength | src/utils/pricing.ts:74-87 | an L top with A >= depth > 0 has edge 2(A + B + depth) |
| Pricing.LeftLTaxicab | src/utils/pricing.ts:78-84 | the left-L taxicab sum is 2(A + B + depth) |
| Pricing.RightLTaxicab | src/utils/pricing.ts:78-84 | the right-L taxicab sum is 2(A + B + depth) |
| Pricing.UEdgeLength | src/utils/pricing.ts:74-87 | a U top with C >= 2 depth has edge 2(C + left + right + depth) |
| Pricing.MatchFrom | src/utils/pricing.ts:25 | a match is an index of the catalogue |
| Pricing.MatchFromIsFirst | src/utils/pricing.ts:25 | `find`: no match exactly when no entry has the style's value and type; otherwise the first such entry |
| Pricing.ZeroPriceFallsBack | src/utils/pricing.ts:26 | a matching entry priced 0 falls back to 120 |
| Pricing.CataloguePriceIsFirstMatch | src/utils/pricing.ts:25-26 | the rate is the first match's price, or 120 when it is missing or zero |
| Pricing.CatalogueRates | src/constants/index.ts:42-171 | every catalogue material has a price from 90 to 280 |
| Pricing.MaterialPriceRange | src/utils/pricing.ts:25-26 | the rate is between 90 and 280; it is 120 for a style not in the catalogue |
| Pricing.WhitePrice | src/constants/index.ts:44 | the first catalogue material costs 90 per m² |
| Pricing.CutoutCost | src/utils/pricing.ts:34-38 | each cutout costs between 70 and 330 (type price plus 30 for cutting) |
| Pricing.CutoutCostAppend | src/utils/pricing.ts:34-38 | the cutout cost is additive over lists |
| Pricing.BreakdownIdentities | src/utils/pricing.ts:29-54 | material + labour = area x (rate + 50); subtotal adds 2 per cm of edge and the cutouts; total = subtotal + VAT = 1.23 x subtotal; all non-negative for non-negative inputs |
| Pricing.CalculatePricing | src/utils/pricing.ts:17-55 | the method computes the specified breakdown |
| Pricing.CutoutCostIgnoresOutline | src/utils/pricing.ts:34-38 | the cutout cost depends on the cutouts only |
| Pricing.MoreCutoutsCostMore | src/utils/pricing.ts:34-40 | adding cutouts raises the subtotal by their cost and leaves area, edge and material unchanged |
| Pricing.PricingBounds | src/utils/pricing.ts:17-55 | with a non-negative square root every cost is non-negative, the cutouts cost at least 70 each, and subtotal <= total |
| Pricing.PerimeterNonNegative | src/utils/pricing.ts:78-84 | the perimeter is non-negative |
| Pricing.DefaultPricing | src/store/designStore.tsx:27-37 | the default 300 x 60 white top: 1.8 m², 720 cm of edge, 162 + 90 + 1440 = 1692 net, 2081.16 gross |
| DesignStore.Pick | src/store/designStore.tsx:82 | a supplied field overrides, an absent one keeps the current value |
| DesignStore.MapWhere | src/store/designStore.tsx:131-133 | `map` with a conditional update: same length, matching elements updated, others kept |
| DesignStore.Filter | src/store/designStore.tsx:140 | `filter`: exactly the elements that pass |
| DesignStore.FilterKeepsAll | src/store/designStore.tsx:140 | filtering returns the list unchanged exactly when every element passes |
| DesignStore.FilterAppend | src/store/designStore.tsx:140 | filtering distributes over concatenation |
| DesignStore.FilterKeepsUnique | src/store/designStore.tsx:140 | filtering keeps ids unique |
| DesignStore.MapWhereKeepsUnique | src/store/designStore.tsx:131-133 | an update that keeps ids keeps them unique |
| DesignStore.Reduce | src/store/designStore.tsx:43-173 | each action changes only its own field (layout, dimensions, orientation, style, segment styles, cutouts, dividers); reset and load may change all |
| DesignStore.ResetGivesValidDefault | src/store/designStore.tsx:27-37 | reset gives the 300 x 60 straight rectangle with no cutouts and no validation errors |
| DesignStore.DefaultDesignPrice | src/store/designStore.tsx:27-37 | the default design costs 2081.16 gross |
| DesignStore.LoadReplaces | src/store/designStore.tsx:168-169 | load replaces the design |
| DesignStore.SetLayoutFillsDefaults | src/store/designStore.tsx:45-73 | set-layout changes only layout and dimensions, keeps every truthy dimension, always yields an outline, and is idempotent |
| DesignStore.SetLayoutDefaultValues | src/store/designStore.tsx:49-70 | from empty dimensions: straight 300/60; L 200/150/60; U 150/150/100/60 |
| DesignStore.SetDimensionsOverrides | src/store/designStore.tsx:78-84 | only the supplied dimension fields change; an empty patch changes nothing |
| DesignStore.StyleOf | src/store/designStore.tsx:93 | a segment has a style exactly when an entry names it |
| DesignStore.StyleOfMapped | src/store/designStore.tsx:94 | updating an existing entry gives that segment the new style and leaves others |
| DesignStore.StyleOfMappedOthers | src/store/designStore.tsx:94 | updating one segment's entries leaves other segments' styles |
| DesignStore.StyleOfAppended | src/store/designStore.tsx:95-102 | appending a new entry gives that segment its style and leaves others |
| DesignStore.SegmentStyleUpsert | src/store/designStore.tsx:89-110 | set-segment-style gives the segment the style: in place if present, otherwise appended with name "Główny" or the upper-cased id |
| DesignStore.UpdateCutoutOnlyMatching | src/store/designStore.tsx:127-135 | update-cutout merges the patch into cutouts with that id only, keeps the order, and is idempotent |
| DesignStore.MergeCutoutFields | src/store/designStore.tsx:132 | an empty patch changes nothing, an offsets patch changes only the offsets, and merging twice equals merging once |
| DesignStore.RemoveCutoutFilters | src/store/designStore.tsx:136-142 | remove-cutout keeps exactly the cutouts with other ids; it changes nothing for an unknown id |
| DesignStore.AddThenRemoveCutout | src/store/designStore.tsx:120-142 | add appends the cutout with the fresh id; removing that id restores the design |
| DesignStore.CutoutIdsStayUnique | src/store/designStore.tsx:43-173 | with a fresh id, no id patch and a loaded design with unique ids, every action keeps cutout ids unique |
| DesignStore.UpdateDividerOnlyMatching | src/store/designStore.tsx:150-158 | update-divider merges into dividers with that id only, keeping the order |
| DesignStore.RemoveDividerFilters | src/store/designStore.tsx:159-165 | remove-divider keeps exactly the dividers with other ids |
| DesignStore.AddThenRemoveDivider | src/store/designStore.tsx:143-165 | add appends with the fresh id; removing it restores the (defaulted) divider list |
| DesignStore.AddCutoutPrice | src/store/designStore.tsx:120-126 | adding a cutout raises the subtotal by its type price plus 30 and leaves area, edge and material unchanged |
| Settings.ConvertValue | src/store/settingsStore.ts:28-57 | `convertValue`: equal units (after defaulting to the current one) return the value unchanged |
| Settings.OmittedUnitIsCurrent | src/store/settingsStore.ts:29-33 | an omitted unit is the current unit; with both omitted the value is returned unchanged |
| Settings.ToMillimetresIsWhole | src/store/settingsStore.ts:43-51 | conversions to mm give whole numbers within half a millimetre of value x factor |
| Settings.OtherConversionsHaveTwoDecimals | src/store/settingsStore.ts:37-54 | the other conversions give two decimals within 0.005 of value x factor |
| Settings.CentimetreRoundTrip | src/store/settingsStore.ts:43-48 | cm to mm to cm rounds to a millimetre and is exact for values with one decimal |
| Settings.RoundOfWhole | src/store/settingsStore.ts:45 | `Math.round` leaves whole numbers unchanged |
| Settings.WholeMillimetresToCentimetres | src/store/settingsStore.ts:46-48 | a whole number of mm converts to cm exactly |
| Dimensioning.DisplayNumber | src/utils/dimensioning.ts:29-33 | a label's number is the converted value; in cm it is rounded to two decimals; the second rounding changes no mm or inch value |
| Dimensioning.RoundTwiceWhole | src/utils/dimensioning.ts:31 | rounding a converted mm value again leaves it unchanged |
| Dimensioning.RoundTwiceCents | src/utils/dimensioning.ts:31 | rounding a converted inch value to cents again leaves it unchanged |
| Dimensioning.OutlineLines | src/utils/dimensioning.ts:36-154 | the outline gets 2 lines (straight), 3 (L), or 3 plus 3 more when the depth is positive (U) |
| Dimensioning.CutoutLines | src/utils/dimensioning.ts:157-208 | each cutout gets three lines |
| Dimensioning.AllCutoutLines | src/utils/dimensioning.ts:157-208 | the cutouts get three lines each |
| Dimensioning.DimensionLines | src/utils/dimensioning.ts:14-211 | no lines without an outline; otherwise outline lines plus 3 per cutout |
| Dimensioning.GenerateDimensionLines | src/utils/dimensioning.ts:14-211 | the pushes build exactly the specified lines |
| Dimensioning.PushOutlineLines | src/utils/dimensioning.ts:36-154 | the layout switch appends the outline's lines |
| Dimensioning.PushAllCutoutLines | src/utils/dimensioning.ts:157-208 | the forEach appends each cutout's lines in order |
| Dimensioning.PushCutoutLines | src/utils/dimensioning.ts:160-207 | one pass appends the size line and the two offset lines |
| Dimensioning.AllCutoutLinesAt | src/utils/dimensioning.ts:157-208 | cutout k's lines sit at positions 3k to 3k+2 |
| Dimensioning.StraightLines | src/utils/dimensioning.ts:37-55 | a straight top has its length along y = 0 and its depth along x = 0, both from the origin |
| Dimensioning.LLines | src/utils/dimensioning.ts:57-96 | an L top has arm A along the front; arm B is a vertical line of exactly its length at x = 0 (left-l) or x = lengthA (right-l); the depth runs from the origin |
| Dimensioning.ULines | src/utils/dimensioning.ts:98-152 | a U top has width C, two depth marks at its ends, an inner gap from depth to C - depth labelled C - 2 x depth, and each arm as a vertical line of its own length |
| Dimensioning.CutoutLinesMeasureOffsets | src/utils/dimensioning.ts:157-208 | the size line spans the cutout's width, centred; each offset line runs from the reference side to the centre and is exactly as long as the offset |
| Dimensioning.CutoutLinesInDesign | src/utils/dimensioning.ts:157-208 | for any layout, cutout k's lines follow the outline lines, 3k places in |

## Left out

- Rendering, React context and providers, canvas drawing (`drawDimensionLine`, `cmToPx`, `pxToCm`), persistence and all I/O are not modelled. They hold no logic worth a contract.
- `formatPrice`, `formatArea`, `formatLength` and `formatValue` are not modelled. They only format strings (Intl, `toFixed`). Number-to-text in dimension labels is the `render` parameter.
- `Math.sqrt` is a parameter. Perimeter results assume `IsSqrt(sqrt)`. The edge-distance check compares squared distances with 9; this equals the source's `< 3` because the square root is monotone.
- NaN, infinities and floating-point rounding are not modelled; numbers are exact reals.
  - The one NaN case the source reaches is the edge fix for a cutout centred on the centroid. It is kept as an explicit undefined result (`UndefinedOffsets`).
- `Date.now()` ids are the `freshId` parameter of the reducer.
- The reducer's `default:` branch is not modelled: the action type here is closed, so it cannot be reached.
- In `Partial<Cutout>` / `Partial<Divider>` patches, a key explicitly set to `undefined` is not modelled. A patch field is either absent or a value. Dimension patches do model it, as `Some(None)`.
- `CUTOUT_TYPES[type]?.price || 0` (src/utils/pricing.ts:36) is modelled without its fallback. Every cutout type has a positive catalogue price, so the fallback never fires.
- The `offsetLabel` string built at src/utils/dimensioning.ts:170 is not modelled: it is never used.
- The formatter `fmt` inside `generateDimensionLines` reads the unit store. The model passes it in as a parameter. The formatter the application builds is `Dimensioning.Fmt`.
- Settings.ConvertValue: the final `return value` (src/store/settingsStore.ts:57) cannot be reached with three units and is not a separate branch.
- Settings.ConvertValue: the rounding bounds are stated in the lemmas ToMillimetresIsWhole and OtherConversionsHaveTwoDecimals, not in its own contract.
- `String.fromCharCode` of a lone surrogate code becomes U+FFFD in the model (`Segments.FromCharCode`). A Dafny `char` cannot hold a lone surrogate. Any first character can reach that range once the slice counter is added, letters included: U+D7A3 (a Hangul syllable) plus 93 gives 0xD800.
- Text.Upper / Text.Lower: case mapping is ASCII-only. JavaScript's `toUpperCase`/`toLowerCase` use the full Unicode mapping ("é" to "É", "ß" to "SS", which changes the length). The difference reaches three places: the segment name built from a styled segment id (src/store/designStore.tsx:99, `DesignStore.SegmentName`), the case-insensitive divider match (src/utils/geometry.ts:373), and the first character code in `generateNewSegmentId` (src/utils/geometry.ts:435; for "ß" the source starts from 'S'). The model agrees with the source on ASCII ids such as "main", "A", "B", "C".
