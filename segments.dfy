/** Named rectangular segments of a countertop (one per arm of the layout) and
    their slicing at divider positions. */
module Segments {
  import opened Types
  import opened Text
  import opened Outline

  datatype Segment = Segment(segmentId: string, name: string, polygon: seq<Point>)

  function Rectangle(x0: real, y0: real, x1: real, y1: real): seq<Point> {
    [Point(x0, y0), Point(x1, y0), Point(x1, y1), Point(x0, y1)]
  }

  /** Four vertices whose far side is the near side translated. */
  predicate Parallelogram(poly: seq<Point>) {
    |poly| >= 4 &&
    poly[2].x - poly[1].x == poly[3].x - poly[0].x && poly[2].y - poly[1].y == poly[3].y - poly[0].y
  }

  function SegmentIds(layout: Layout): seq<string> {
    match layout
    case Straight => ["main"]
    case LShape => ["A", "B"]
    case UShape => ["A", "B", "C"]
  }

  function Ids(segs: seq<Segment>): (r: seq<string>)
    ensures |r| == |segs| && forall i :: 0 <= i < |segs| ==> r[i] == segs[i].segmentId
  {
    if segs == [] then [] else [segs[0].segmentId] + Ids(segs[1..])
  }

  /** `generateSegmentPolygons`: empty exactly when the outline is, otherwise one
      four-cornered parallelogram per arm, with the layout's segment ids. */
  function GenerateSegmentPolygons(layout: Layout, d: Dimensions, orientation: Orientation): (r: seq<Segment>)
    ensures r == [] <==> OutlineMissing(layout, d)
    ensures r != [] ==> Ids(r) == SegmentIds(layout)
    ensures forall i :: 0 <= i < |r| ==> |r[i].polygon| == 4 && Parallelogram(r[i].polygon)
  {
    match layout
    case Straight =>
      if Falsy(d.length) || Falsy(d.depth) then []
      else [Segment("main", "Główny", Rectangle(0.0, 0.0, d.length.value, d.depth.value))]
    case LShape =>
      if Falsy(d.lengthA) || Falsy(d.lengthB) || Falsy(d.depth) then []
      else
        var a, b, dp := d.lengthA.value, d.lengthB.value, d.depth.value;
        var segA := Segment("A", "Segment A (poziomy)", Rectangle(0.0, 0.0, a, dp));
        if orientation == LeftL then
          [segA, Segment("B", "Segment B (pionowy)", Rectangle(0.0, dp, dp, dp + b))]
        else
          [segA, Segment("B", "Segment B (pionowy)", Rectangle(a - dp, dp, a, dp + b))]
    case UShape =>
      if Falsy(d.depth) then []
      else
        var dp := d.depth.value;
        var l, r, c := OrZero(d.lengthLeft), OrZero(d.lengthRight), OrZero(d.gapWidth);
        [Segment("A", "Segment A (lewy)", Rectangle(0.0, 0.0, dp, l + dp)),
         Segment("B", "Segment B (prawy)", Rectangle(c - dp, 0.0, c, r + dp)),
         Segment("C", "Segment C (środkowy)", Rectangle(dp, 0.0, c - dp, dp))]
  }

  /** The single segment of a straight top is the whole outline. */
  lemma StraightSegmentIsOutline(d: Dimensions, orientation: Orientation)
    requires !OutlineMissing(Straight, d)
    ensures GenerateSegmentPolygons(Straight, d, orientation)[0].polygon == GeneratePolygon(Straight, d, orientation)
  {
  }

  /** Every corner of every segment lies in the bounding box of the outline. */
  lemma SegmentsInsideOutlineBox(layout: Layout, d: Dimensions, orientation: Orientation)
    ensures var segs, poly := GenerateSegmentPolygons(layout, d, orientation), GeneratePolygon(layout, d, orientation);
      forall i, j :: 0 <= i < |segs| && 0 <= j < |segs[i].polygon| ==> InBox(segs[i].polygon[j], BoundingBox(poly))
  {
    var segs, poly := GenerateSegmentPolygons(layout, d, orientation), GeneratePolygon(layout, d, orientation);
    if segs != [] {
      var b := BoundingBox(poly);
      forall i, j | 0 <= i < |segs| && 0 <= j < |segs[i].polygon|
        ensures InBox(segs[i].polygon[j], b)
      {
        var q := segs[i].polygon[j];
        var xs, ys := CornerXs(poly), CornerYs(poly);
        CoordinatesInBox(poly);
        SegmentCornerCoordinates(layout, d, orientation, i, j);
      }
    }
  }

  /** The x and y coordinates that the outline's vertices take. */
  function CornerXs(poly: seq<Point>): set<real> {
    set k | 0 <= k < |poly| :: poly[k].x
  }

  function CornerYs(poly: seq<Point>): set<real> {
    set k | 0 <= k < |poly| :: poly[k].y
  }

  lemma CoordinatesInBox(poly: seq<Point>)
    requires poly != []
    ensures forall x :: x in CornerXs(poly) ==> BoundingBox(poly).minX <= x <= BoundingBox(poly).maxX
    ensures forall y :: y in CornerYs(poly) ==> BoundingBox(poly).minY <= y <= BoundingBox(poly).maxY
  {
    var b := BoundingBox(poly);
    forall x | x in CornerXs(poly)
      ensures b.minX <= x <= b.maxX
    {
      var k :| 0 <= k < |poly| && poly[k].x == x;
      assert InBox(poly[k], b);
    }
    forall y | y in CornerYs(poly)
      ensures b.minY <= y <= b.maxY
    {
      var k :| 0 <= k < |poly| && poly[k].y == y;
      assert InBox(poly[k], b);
    }
  }

  /** Each coordinate of a segment corner is a coordinate of an outline vertex. */
  lemma SegmentCornerCoordinates(layout: Layout, d: Dimensions, orientation: Orientation, i: int, j: int)
    requires var segs := GenerateSegmentPolygons(layout, d, orientation);
      0 <= i < |segs| && 0 <= j < |segs[i].polygon|
    ensures var q, poly := GenerateSegmentPolygons(layout, d, orientation)[i].polygon[j], GeneratePolygon(layout, d, orientation);
      q.x in CornerXs(poly) && q.y in CornerYs(poly)
  {
    var poly := GeneratePolygon(layout, d, orientation);
    assert poly[0].x in CornerXs(poly) && poly[0].y in CornerYs(poly);
    match layout
    case Straight =>
      assert poly[2].x in CornerXs(poly) && poly[2].y in CornerYs(poly);
    case LShape =>
      assert poly[1].x in CornerXs(poly) && poly[2].y in CornerYs(poly) && poly[3].x in CornerXs(poly);
      assert poly[4].x in CornerXs(poly) && poly[4].y in CornerYs(poly) && poly[5].y in CornerYs(poly);
    case UShape =>
      assert poly[1].x in CornerXs(poly) && poly[2].y in CornerYs(poly) && poly[3].x in CornerXs(poly);
      assert poly[5].x in CornerXs(poly) && poly[5].y in CornerYs(poly) && poly[6].y in CornerYs(poly);
  }

  // ---------------------------------------------------------------- slicing

  /** The point at fraction t along the near side poly[0] -> poly[1]. */
  function PointAt(poly: seq<Point>, t: real): Point
    requires |poly| >= 2
  {
    Point(poly[0].x + (poly[1].x - poly[0].x) * t, poly[0].y + (poly[1].y - poly[0].y) * t)
  }

  /** A four-cornered piece whose far side is its near side moved by the
      segment's sides. */
  predicate SliceOf(poly: seq<Point>, q: seq<Point>)
    requires |poly| >= 4
  {
    |q| == 4 &&
    q[2] == Point(q[1].x + (poly[2].x - poly[1].x), q[1].y + (poly[2].y - poly[1].y)) &&
    q[3] == Point(q[0].x + (poly[3].x - poly[0].x), q[0].y + (poly[3].y - poly[0].y))
  }

  /** `createSegmentBetweenPositions`: the part of a four-cornered segment between
      fractions `startPos` and `endPos` of its near side; none for fewer corners. */
  function CreateSegmentBetweenPositions(poly: seq<Point>, startPos: real, endPos: real, segmentId: string, counter: nat)
    : (r: Option<Segment>)
    ensures r.None? <==> |poly| < 4
    ensures r.Some? ==> r.value.segmentId == segmentId && SliceOf(poly, r.value.polygon)
    ensures r.Some? ==> r.value.polygon[0] == PointAt(poly, startPos) && r.value.polygon[1] == PointAt(poly, endPos)
  {
    if |poly| < 4 then None
    else
      var p1, p2, p3, p4 := poly[0], poly[1], poly[2], poly[3];
      var startX, endX := p1.x + (p2.x - p1.x) * startPos, p1.x + (p2.x - p1.x) * endPos;
      var startY, endY := p1.y + (p2.y - p1.y) * startPos, p1.y + (p2.y - p1.y) * endPos;
      var q := [Point(startX, startY), Point(endX, endY),
                Point(endX + (p3.x - p2.x), endY + (p3.y - p2.y)),
                Point(startX + (p4.x - p1.x), startY + (p4.y - p1.y))];
      Some(Segment(segmentId, "Segment " + segmentId, q))
  }

  /** The slice over the whole near side of a parallelogram is the parallelogram. */
  lemma WholeSliceIsSegment(poly: seq<Point>, id: string, counter: nat)
    requires |poly| == 4 && Parallelogram(poly)
    ensures CreateSegmentBetweenPositions(poly, 0.0, 1.0, id, counter).value.polygon == poly
  {
    var q := CreateSegmentBetweenPositions(poly, 0.0, 1.0, id, counter).value.polygon;
    assert q[2] == poly[2] && q[3] == poly[3];
  }

  /** Slices [s, t] and [t, u] of one segment share the side at fraction t. */
  lemma SlicesShareSide(poly: seq<Point>, s: real, t: real, u: real, id1: string, id2: string, c1: nat, c2: nat)
    requires |poly| >= 4 && Parallelogram(poly)
    ensures var p, q := CreateSegmentBetweenPositions(poly, s, t, id1, c1).value.polygon,
                        CreateSegmentBetweenPositions(poly, t, u, id2, c2).value.polygon;
      p[1] == q[0] && p[2] == q[3]
  {
  }

  /** UTF-16 code unit of the first character: the high surrogate for a
      character outside the basic plane. */
  function FirstCodeUnit(c: char): (r: int)
    ensures 0 <= r < 0x1_0000
  {
    if (c as int) < 0x1_0000 then c as int else 0xD800 + (c as int - 0x1_0000) / 0x400
  }

  /** `String.fromCharCode` of a number: the code is taken modulo 2^16; a lone
      surrogate, which is not a character here, becomes U+FFFD. */
  function FromCharCode(code: int): char {
    var u := code % 0x1_0000;
    if 0xD800 <= u <= 0xDFFF then 0xFFFD as char else u as char
  }

  /** `generateNewSegmentId`: "main", "main-2", "main-3", ... for the main segment
      (case-insensitively), otherwise the upper-cased first letter advanced by
      `counter` ("A", "B", ...). An empty id reads code NaN, which becomes U+0000. */
  function GenerateNewSegmentId(originalId: string, counter: nat): (r: string)
    ensures Lower(originalId) == "main" && counter == 0 ==> r == "main"
    ensures Lower(originalId) == "main" && counter > 0 ==>
      |r| > 5 && r[..5] == "main-" && r[5..] == NatToString(counter + 1)
    ensures Lower(originalId) != "main" ==> |r| == 1
  {
    if Lower(originalId) == "main" then
      if counter == 0 then "main" else "main-" + NatToString(counter + 1)
    else
      var up := Upper(originalId);
      if up == [] then [0 as char] else [FromCharCode(FirstCodeUnit(up[0]) + counter)]
  }

  /** For an upper-case letter id, slice k gets the letter k places further on. */
  lemma LetterIds(id: string, k: nat)
    requires |id| >= 1 && 'A' <= id[0] <= 'Z' && Lower(id) != "main" && k < 0x1000
    ensures GenerateNewSegmentId(id, k) == [(id[0] as int + k) as char]
  {
    assert Upper(id)[0] == id[0];
  }

  /** Slice ids of one segment never repeat. */
  lemma SegmentIdsDistinct(id: string, i: nat, j: nat)
    requires i != j
    requires Lower(id) == "main" || (|id| >= 1 && 'A' <= id[0] <= 'Z' && i < 0x1000 && j < 0x1000)
    ensures GenerateNewSegmentId(id, i) != GenerateNewSegmentId(id, j)
  {
    if Lower(id) == "main" {
      MainIdsDistinct(id, i, j);
    } else {
      LetterIds(id, i);
      LetterIds(id, j);
    }
  }

  lemma MainIdsDistinct(id: string, i: nat, j: nat)
    requires i != j && Lower(id) == "main"
    ensures GenerateNewSegmentId(id, i) != GenerateNewSegmentId(id, j)
  {
    var ri, rj := GenerateNewSegmentId(id, i), GenerateNewSegmentId(id, j);
    if i == 0 {
      assert |ri| == 4 < |rj|;
    } else if j == 0 {
      assert |rj| == 4 < |ri|;
    } else if ri == rj {
      assert ri[5..] == rj[5..];
      NatToStringInjective(i + 1, j + 1);
    }
  }

  lemma {:induction false} NatToStringInjective(m: nat, n: nat)
    requires NatToString(m) == NatToString(n)
    ensures m == n
  {
    if m < 10 && n < 10 {
    } else if m < 10 {
      NatToStringLength(n);
    } else if n < 10 {
      NatToStringLength(m);
    } else {
      var sm, sn := NatToString(m), NatToString(n);
      assert sm[..|sm| - 1] == NatToString(m / 10) && sn[..|sn| - 1] == NatToString(n / 10);
      NatToStringInjective(m / 10, n / 10);
      assert sm[|sm| - 1] == sn[|sn| - 1];
    }
  }

  lemma NatToStringLength(n: nat)
    requires n >= 10
    ensures |NatToString(n)| >= 2
  {
  }

  // ---------------------------------------------------------------- dividers

  predicate SortedByPosition(ds: seq<Divider>) {
    forall i, j :: 0 <= i < j < |ds| ==> ds[i].position <= ds[j].position
  }

  /** The dividers of `segmentId`, compared case-insensitively, in their order. */
  function DividersOf(ds: seq<Divider>, segmentId: string): (r: seq<Divider>)
    ensures forall x :: x in r <==> x in ds && Lower(x.segmentId) == Lower(segmentId)
    ensures |r| <= |ds|
    ensures (forall x :: x in ds ==> Lower(x.segmentId) != Lower(segmentId)) ==> r == []
  {
    if ds == [] then []
    else if Lower(ds[0].segmentId) == Lower(segmentId) then [ds[0]] + DividersOf(ds[1..], segmentId)
    else DividersOf(ds[1..], segmentId)
  }

  /** Stable insertion of `d` before the first divider placed after it. */
  function Insert(d: Divider, ds: seq<Divider>): (r: seq<Divider>)
    requires SortedByPosition(ds)
    ensures SortedByPosition(r) && multiset(r) == multiset(ds) + multiset{d}
    ensures forall x :: x in r ==> x == d || x in ds
  {
    if ds == [] || d.position <= ds[0].position then
      assert forall j :: 0 <= j < |ds| ==> d.position <= ds[j].position;
      InsertFront(d, ds);
      [d] + ds
    else
      var t := Insert(d, ds[1..]);
      InsertAfterHead(d, ds, t);
      [ds[0]] + t
  }

  /** Putting the head back in front of `d` inserted into the tail keeps the
      order and the contents. */
  lemma InsertAfterHead(d: Divider, ds: seq<Divider>, t: seq<Divider>)
    requires SortedByPosition(ds) && ds != [] && ds[0].position < d.position
    requires SortedByPosition(t) && multiset(t) == multiset(ds[1..]) + multiset{d}
    requires forall x :: x in t ==> x == d || x in ds[1..]
    ensures SortedByPosition([ds[0]] + t) && multiset([ds[0]] + t) == multiset(ds) + multiset{d}
    ensures forall x :: x in [ds[0]] + t ==> x == d || x in ds
  {
    assert ds == [ds[0]] + ds[1..];
    assert forall x :: x in t ==> ds[0].position <= x.position;
    InsertFront(ds[0], t);
  }

  lemma InsertFront(x: Divider, t: seq<Divider>)
    requires SortedByPosition(t) && forall y :: y in t ==> x.position <= y.position
    ensures SortedByPosition([x] + t)
  {
    var r := [x] + t;
    forall i, j | 0 <= i < j < |r|
      ensures r[i].position <= r[j].position
    {
      if i == 0 {
        assert r[j] in t;
      } else {
        assert r[i] == t[i - 1] && r[j] == t[j - 1];
      }
    }
  }

  /** `sort((a, b) => a.position - b.position)`: ordered by position, same dividers. */
  function SortByPosition(ds: seq<Divider>): (r: seq<Divider>)
    ensures SortedByPosition(r) && multiset(r) == multiset(ds)
  {
    if ds == [] then []
    else
      assert ds == [ds[0]] + ds[1..];
      Insert(ds[0], SortByPosition(ds[1..]))
  }

  /** The state of the slicing loop over one segment's sorted dividers. */
  datatype SplitState = SplitState(slices: seq<Segment>, previous: real, counter: nat)

  function SplitStep(poly: seq<Point>, segmentId: string, st: SplitState, d: Divider): SplitState {
    if d.position > st.previous then
      match CreateSegmentBetweenPositions(poly, st.previous, d.position, GenerateNewSegmentId(segmentId, st.counter), st.counter)
      case Some(s) => SplitState(st.slices + [s], d.position, st.counter + 1)
      case None => SplitState(st.slices, d.position, st.counter)
    else SplitState(st.slices, d.position, st.counter)
  }

  /** The loop state after the first k dividers. */
  function SplitPrefix(poly: seq<Point>, segmentId: string, ds: seq<Divider>, k: nat): SplitState
    requires k <= |ds|
  {
    if k == 0 then SplitState([], 0.0, 0) else SplitStep(poly, segmentId, SplitPrefix(poly, segmentId, ds, k - 1), ds[k - 1])
  }

  /** The closing slice from the last divider to the end of the segment. */
  function SplitFinish(poly: seq<Point>, segmentId: string, st: SplitState): seq<Segment> {
    if st.previous < 1.0 then
      match CreateSegmentBetweenPositions(poly, st.previous, 1.0, GenerateNewSegmentId(segmentId, st.counter), st.counter)
      case Some(s) => st.slices + [s]
      case None => st.slices
    else st.slices
  }

  /** One base segment cut at its (sorted) dividers; without dividers it is kept
      whole, and a segment with fewer than four corners is dropped. */
  function SplitSegment(seg: Segment, ds: seq<Divider>): seq<Segment> {
    if ds == [] then [seg]
    else if |seg.polygon| < 4 then []
    else SplitFinish(seg.polygon, seg.segmentId, SplitPrefix(seg.polygon, seg.segmentId, ds, |ds|))
  }

  function SegmentDividers(seg: Segment, dividers: seq<Divider>): seq<Divider> {
    SortByPosition(DividersOf(dividers, seg.segmentId))
  }

  /** The slices of the first k base segments, in order. */
  function SplitAll(bases: seq<Segment>, dividers: seq<Divider>, k: nat): seq<Segment>
    requires k <= |bases|
  {
    if k == 0 then [] else SplitAll(bases, dividers, k - 1) + SplitSegment(bases[k - 1], SegmentDividers(bases[k - 1], dividers))
  }

  /** What `generateSegmentPolygonsWithDividers` returns. */
  function SegmentsWithDividers(layout: Layout, d: Dimensions, orientation: Orientation, dividers: Option<seq<Divider>>)
    : seq<Segment>
  {
    var bases := GenerateSegmentPolygons(layout, d, orientation);
    if dividers.None? || dividers.value == [] then bases
    else SplitAll(bases, dividers.value, |bases|)
  }

  method GenerateSegmentPolygonsWithDividers(layout: Layout, d: Dimensions, orientation: Orientation,
                                             dividers: Option<seq<Divider>>)
    returns (splitSegments: seq<Segment>)
    ensures splitSegments == SegmentsWithDividers(layout, d, orientation, dividers)
  {
    var baseSegments := GenerateSegmentPolygons(layout, d, orientation);
    if dividers.None? || dividers.value == [] {
      return baseSegments;
    }
    var ds := dividers.value;
    splitSegments := [];
    for i := 0 to |baseSegments|
      invariant splitSegments == SplitAll(baseSegments, ds, i)
    {
      var segment := baseSegments[i];
      var segmentDividers := SortByPosition(DividersOf(ds, segment.segmentId));
      assert SegmentDividers(segment, ds) == segmentDividers;
      if |segmentDividers| == 0 {
        splitSegments := splitSegments + [segment];
      } else if |segment.polygon| >= 4 {
        var slices := SliceSegment(segment, segmentDividers);
        splitSegments := splitSegments + slices;
      }
    }
  }

  /** The body of the per-segment callback: cut one segment of at least four
      corners at its sorted, non-empty list of dividers. */
  method SliceSegment(segment: Segment, segmentDividers: seq<Divider>) returns (slices: seq<Segment>)
    requires |segment.polygon| >= 4 && segmentDividers != []
    ensures slices == SplitSegment(segment, segmentDividers)
  {
    var polygon := segment.polygon;
    var previousPosition := 0.0;
    var segmentCounter := 0;
    slices := [];
    for k := 0 to |segmentDividers|
      invariant var st := SplitPrefix(polygon, segment.segmentId, segmentDividers, k);
        slices == st.slices && previousPosition == st.previous && segmentCounter == st.counter
    {
      ghost var before := SplitState(slices, previousPosition, segmentCounter);
      assert SplitPrefix(polygon, segment.segmentId, segmentDividers, k + 1)
        == SplitStep(polygon, segment.segmentId, before, segmentDividers[k]);
      var divider := segmentDividers[k];
      if divider.position > previousPosition {
        var newSegmentId := GenerateNewSegmentId(segment.segmentId, segmentCounter);
        var newSegment := CreateSegmentBetweenPositions(polygon, previousPosition, divider.position, newSegmentId, segmentCounter);
        if newSegment.Some? {
          slices := slices + [newSegment.value];
          segmentCounter := segmentCounter + 1;
        }
      }
      previousPosition := divider.position;
    }
    assert SplitSegment(segment, segmentDividers)
      == SplitFinish(polygon, segment.segmentId, SplitState(slices, previousPosition, segmentCounter));
    if previousPosition < 1.0 {
      var newSegmentId := GenerateNewSegmentId(segment.segmentId, segmentCounter);
      var newSegment := CreateSegmentBetweenPositions(polygon, previousPosition, 1.0, newSegmentId, segmentCounter);
      if newSegment.Some? {
        slices := slices + [newSegment.value];
      }
    }
  }

  // ---------------------------------------------------------------- properties of slicing

  /** When no divider names any base segment, every segment passes through whole. */
  lemma {:induction false} UnmatchedSegmentsPassThrough(bases: seq<Segment>, dividers: seq<Divider>, k: nat)
    requires k <= |bases|
    requires forall i, x :: 0 <= i < |bases| && x in dividers ==> Lower(x.segmentId) != Lower(bases[i].segmentId)
    ensures SplitAll(bases, dividers, k) == bases[..k]
  {
    if k > 0 {
      UnmatchedSegmentsPassThrough(bases, dividers, k - 1);
      NoOwnDividers(dividers, bases[k - 1]);
      assert bases[..k] == bases[..k - 1] + [bases[k - 1]];
    }
  }

  lemma NoOwnDividers(dividers: seq<Divider>, seg: Segment)
    requires forall x :: x in dividers ==> Lower(x.segmentId) != Lower(seg.segmentId)
    ensures SegmentDividers(seg, dividers) == []
  {
  }

  /** Dividers that name none of the layout's segments leave its segments unchanged. */
  lemma NoMatchingDividers(layout: Layout, d: Dimensions, orientation: Orientation, dividers: seq<Divider>)
    requires var bases := GenerateSegmentPolygons(layout, d, orientation);
      forall i, x :: 0 <= i < |bases| && x in dividers ==> Lower(x.segmentId) != Lower(bases[i].segmentId)
    ensures SegmentsWithDividers(layout, d, orientation, Some(dividers)) == GenerateSegmentPolygons(layout, d, orientation)
  {
    var bases := GenerateSegmentPolygons(layout, d, orientation);
    UnmatchedSegmentsPassThrough(bases, dividers, |bases|);
    assert bases[..|bases|] == bases;
  }

  /** The loop state of a segment cut at sorted dividers: slice j carries id
      number j, the counter counts the slices, consecutive slices share a side,
      and the last slice ends where the next one will start. */
  predicate ChainInvariant(poly: seq<Point>, segmentId: string, st: SplitState)
    requires |poly| >= 4
  {
    st.counter == |st.slices| &&
    (forall j :: 0 <= j < |st.slices| ==> st.slices[j].segmentId == GenerateNewSegmentId(segmentId, j)) &&
    (forall j :: 0 <= j < |st.slices| ==> SliceOf(poly, st.slices[j].polygon)) &&
    (forall j :: 0 <= j < |st.slices| - 1 ==> st.slices[j].polygon[1] == st.slices[j + 1].polygon[0]) &&
    (st.slices != [] ==> st.slices[|st.slices| - 1].polygon[1] == PointAt(poly, st.previous))
  }

  lemma {:induction false} SplitPrefixChain(poly: seq<Point>, segmentId: string, ds: seq<Divider>, k: nat)
    requires |poly| >= 4 && k <= |ds| && SortedByPosition(ds)
    ensures ChainInvariant(poly, segmentId, SplitPrefix(poly, segmentId, ds, k))
    ensures k > 0 ==> SplitPrefix(poly, segmentId, ds, k).previous == ds[k - 1].position
  {
    if k > 0 {
      SplitPrefixChain(poly, segmentId, ds, k - 1);
      var st := SplitPrefix(poly, segmentId, ds, k - 1);
      var d := ds[k - 1];
      if d.position > st.previous {
        var s := CreateSegmentBetweenPositions(poly, st.previous, d.position, GenerateNewSegmentId(segmentId, st.counter), st.counter);
        ChainAppend(poly, segmentId, st, s.value, d.position);
      } else if st.slices != [] {
        assert ds[k - 2].position <= d.position;
        ChainKeep(poly, segmentId, st, d.position);
      }
    }
  }

  lemma ChainAppend(poly: seq<Point>, segmentId: string, st: SplitState, s: Segment, next: real)
    requires |poly| >= 4 && ChainInvariant(poly, segmentId, st)
    requires s.segmentId == GenerateNewSegmentId(segmentId, st.counter) && SliceOf(poly, s.polygon)
    requires s.polygon[0] == PointAt(poly, st.previous) && s.polygon[1] == PointAt(poly, next)
    ensures ChainInvariant(poly, segmentId, SplitState(st.slices + [s], next, st.counter + 1))
  {
    var r := st.slices + [s];
    var n := |st.slices|;
    forall j | 0 <= j < |r|
      ensures r[j].segmentId == GenerateNewSegmentId(segmentId, j) && SliceOf(poly, r[j].polygon)
    {
      if j < n {
        assert r[j] == st.slices[j];
      }
    }
    forall j | 0 <= j < |r| - 1
      ensures r[j].polygon[1] == r[j + 1].polygon[0]
    {
      assert r[j] == st.slices[j];
      if j + 1 < n {
        assert r[j + 1] == st.slices[j + 1];
      }
    }
  }

  lemma ChainKeep(poly: seq<Point>, segmentId: string, st: SplitState, next: real)
    requires |poly| >= 4 && ChainInvariant(poly, segmentId, st) && next == st.previous
    ensures ChainInvariant(poly, segmentId, SplitState(st.slices, next, st.counter))
  {
  }

  /** Slices of one segment cut at sorted dividers are numbered 0, 1, 2, ... by
      `generateNewSegmentId` and each starts where the previous one ends. */
  lemma SplitSegmentChain(seg: Segment, ds: seq<Divider>)
    requires |seg.polygon| >= 4 && Parallelogram(seg.polygon) && ds != [] && SortedByPosition(ds)
    ensures var r := SplitSegment(seg, ds);
      (forall j :: 0 <= j < |r| ==> r[j].segmentId == GenerateNewSegmentId(seg.segmentId, j) && |r[j].polygon| == 4) &&
      (forall j :: 0 <= j < |r| - 1 ==> r[j].polygon[1] == r[j + 1].polygon[0] && r[j].polygon[2] == r[j + 1].polygon[3])
  {
    var poly := seg.polygon;
    var st := SplitPrefix(poly, seg.segmentId, ds, |ds|);
    SplitPrefixChain(poly, seg.segmentId, ds, |ds|);
    if st.previous < 1.0 {
      var s := CreateSegmentBetweenPositions(poly, st.previous, 1.0, GenerateNewSegmentId(seg.segmentId, st.counter), st.counter);
      ChainAppend(poly, seg.segmentId, st, s.value, 1.0);
      var st' := SplitState(st.slices + [s.value], 1.0, st.counter + 1);
      assert SplitSegment(seg, ds) == st'.slices;
      ChainShape(poly, seg.segmentId, st');
    } else {
      assert SplitSegment(seg, ds) == st.slices;
      ChainShape(poly, seg.segmentId, st);
    }
  }

  /** The slices of a chain over a parallelogram are numbered in order, have
      four corners, and each shares its whole far side with the next. */
  lemma ChainShape(poly: seq<Point>, segmentId: string, st: SplitState)
    requires |poly| >= 4 && Parallelogram(poly) && ChainInvariant(poly, segmentId, st)
    ensures var r := st.slices;
      (forall j :: 0 <= j < |r| ==> r[j].segmentId == GenerateNewSegmentId(segmentId, j) && |r[j].polygon| == 4) &&
      (forall j :: 0 <= j < |r| - 1 ==> r[j].polygon[1] == r[j + 1].polygon[0] && r[j].polygon[2] == r[j + 1].polygon[3])
  {
    var r := st.slices;
    forall j | 0 <= j < |r| - 1
      ensures r[j].polygon[2] == r[j + 1].polygon[3]
    {
      assert SliceOf(poly, r[j].polygon) && SliceOf(poly, r[j + 1].polygon);
    }
  }

  /** Once the first divider (placed after the start) has cut, the first slice
      begins at the start of the segment. */
  lemma {:induction false} FirstSliceAtStart(poly: seq<Point>, segmentId: string, ds: seq<Divider>, k: nat)
    requires |poly| >= 4 && 1 <= k <= |ds| && ds[0].position > 0.0
    ensures var st := SplitPrefix(poly, segmentId, ds, k);
      st.slices != [] && SliceOf(poly, st.slices[0].polygon) && st.slices[0].polygon[0] == poly[0]
  {
    if k > 1 {
      FirstSliceAtStart(poly, segmentId, ds, k - 1);
      var st := SplitPrefix(poly, segmentId, ds, k - 1);
      assert SplitStep(poly, segmentId, st, ds[k - 1]).slices[0] == st.slices[0];
    }
  }

  /** With sorted dividers strictly inside the segment, the slices run from the
      start of its near side to its end. */
  lemma SplitCoversSegment(seg: Segment, ds: seq<Divider>)
    requires |seg.polygon| >= 4 && ds != [] && SortedByPosition(ds)
    requires forall i :: 0 <= i < |ds| ==> 0.0 < ds[i].position < 1.0
    ensures var r := SplitSegment(seg, ds);
      r != [] && SliceOf(seg.polygon, r[0].polygon) && SliceOf(seg.polygon, r[|r| - 1].polygon) &&
      r[0].polygon[0] == seg.polygon[0] && r[|r| - 1].polygon[1] == seg.polygon[1]
  {
    var poly := seg.polygon;
    var st := SplitPrefix(poly, seg.segmentId, ds, |ds|);
    FirstSliceAtStart(poly, seg.segmentId, ds, |ds|);
    SplitPrefixChain(poly, seg.segmentId, ds, |ds|);
    assert st.previous < 1.0;
    var s := CreateSegmentBetweenPositions(poly, st.previous, 1.0, GenerateNewSegmentId(seg.segmentId, st.counter), st.counter);
    var r := st.slices + [s.value];
    assert SplitSegment(seg, ds) == r;
    assert r[0] == st.slices[0];
    assert s.value.polygon[1] == PointAt(poly, 1.0) == poly[1];
  }
}
