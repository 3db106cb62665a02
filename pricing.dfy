/** The price of a countertop: its area by the shoelace formula, its perimeter,
    the material rate from the catalogue and the cost breakdown with VAT.
    `sqrt` stands for `Math.sqrt`, which the perimeter loop calls. */
module Pricing {
  import opened Types
  import opened Config
  import opened Outline
  import opened Primitives

  datatype PricingBreakdown = PricingBreakdown(
    materialCost: real,
    laborCost: real,
    edgeCost: real,
    cutoutCost: real,
    subtotal: real,
    vat: real,
    total: real,
    area: real,
    edgeLength: real)

  function DesignOutline(design: Design): seq<Point> {
    GeneratePolygon(design.layout, design.dimensions, design.orientation)
  }

  // ---------------------------------------------------------------- area

  /** The shoelace term of the edge from `poly[i]` to the next vertex. */
  function CrossTerm(poly: seq<Point>, i: int): real
    requires 0 <= i < |poly|
  {
    poly[i].x * Succ(poly, i).y - Succ(poly, i).x * poly[i].y
  }

  /** The running sum of the first `k` shoelace terms. */
  function ShoelaceUpTo(poly: seq<Point>, k: int): real
    requires 0 <= k <= |poly|
  {
    if k == 0 then 0.0 else ShoelaceUpTo(poly, k - 1) + CrossTerm(poly, k - 1)
  }

  /** `calculateCountertopArea`: half the absolute shoelace sum, converted from
      square centimetres to square metres; 0 without an outline. */
  function CountertopArea(design: Design): (r: real)
    ensures r >= 0.0
    ensures DesignOutline(design) == [] ==> r == 0.0
  {
    var poly := DesignOutline(design);
    if |poly| == 0 then 0.0 else Abs(ShoelaceUpTo(poly, |poly|)) / 2.0 / 10000.0
  }

  method CalculateCountertopArea(design: Design) returns (area: real)
    ensures area == CountertopArea(design)
  {
    var polygon := GeneratePolygon(design.layout, design.dimensions, design.orientation);
    if |polygon| == 0 {
      return 0.0;
    }
    area := ShoelaceSum(polygon);
    area := Abs(area) / 2.0;
    area := area / 10000.0;
  }

  /** The loop of `calculateCountertopArea`: the signed shoelace sum. */
  method ShoelaceSum(polygon: seq<Point>) returns (area: real)
    requires |polygon| > 0
    ensures area == ShoelaceUpTo(polygon, |polygon|)
  {
    area := 0.0;
    for i := 0 to |polygon|
      invariant area == ShoelaceUpTo(polygon, i)
    {
      var j := (i + 1) % |polygon|;
      area := area + polygon[i].x * polygon[j].y;
      area := area - polygon[j].x * polygon[i].y;
    }
  }

  /** A straight L x D top covers |L * D| / 10000 square metres. */
  lemma StraightArea(design: Design)
    requires design.layout == Straight && !OutlineMissing(Straight, design.dimensions)
    ensures CountertopArea(design) == Abs(design.dimensions.length.value * design.dimensions.depth.value) / 10000.0
  {
    var l, dp := design.dimensions.length.value, design.dimensions.depth.value;
    var p := DesignOutline(design);
    assert p == [Point(0.0, 0.0), Point(l, 0.0), Point(l, dp), Point(0.0, dp)];
    assert CrossTerm(p, 0) == 0.0;
    assert CrossTerm(p, 1) == l * dp;
    assert CrossTerm(p, 2) == l * dp;
    assert CrossTerm(p, 3) == 0.0;
    ShoelaceOf4(p);
    assert ShoelaceUpTo(p, 4) == 2.0 * (l * dp);
    AbsScale(l * dp, 2.0);
  }

  /** An L top, in either orientation, covers the top bar plus the arm:
      |depth * (lengthA + lengthB)| / 10000 square metres. */
  lemma LArea(design: Design)
    requires design.layout == LShape && !OutlineMissing(LShape, design.dimensions)
    ensures var d := design.dimensions;
      CountertopArea(design) == Abs(d.depth.value * (d.lengthA.value + d.lengthB.value)) / 10000.0
  {
    var a, b, dp := design.dimensions.lengthA.value, design.dimensions.lengthB.value, design.dimensions.depth.value;
    if design.orientation == LeftL {
      LeftLShoelace(a, b, dp);
    } else {
      RightLShoelace(a, b, dp);
    }
    AbsScale(dp * (a + b), 2.0);
  }

  lemma LeftLShoelace(a: real, b: real, dp: real)
    ensures ShoelaceUpTo([Point(0.0, 0.0), Point(a, 0.0), Point(a, dp), Point(dp, dp), Point(dp, dp + b), Point(0.0, dp + b)], 6)
      == 2.0 * (dp * (a + b))
  {
    var p := [Point(0.0, 0.0), Point(a, 0.0), Point(a, dp), Point(dp, dp), Point(dp, dp + b), Point(0.0, dp + b)];
    assert CrossTerm(p, 0) == 0.0;
    assert CrossTerm(p, 1) == a * dp;
    assert CrossTerm(p, 2) == a * dp - dp * dp;
    assert CrossTerm(p, 3) == dp * b;
    assert CrossTerm(p, 4) == dp * dp + dp * b;
    assert CrossTerm(p, 5) == 0.0;
    ShoelaceOf6(p);
  }

  lemma RightLShoelace(a: real, b: real, dp: real)
    ensures ShoelaceUpTo([Point(0.0, 0.0), Point(a, 0.0), Point(a, dp + b), Point(a - dp, dp + b), Point(a - dp, dp), Point(0.0, dp)], 6)
      == 2.0 * (dp * (a + b))
  {
    var p := [Point(0.0, 0.0), Point(a, 0.0), Point(a, dp + b), Point(a - dp, dp + b), Point(a - dp, dp), Point(0.0, dp)];
    assert CrossTerm(p, 0) == 0.0;
    assert CrossTerm(p, 1) == a * dp + a * b;
    assert CrossTerm(p, 2) == dp * dp + dp * b;
    assert CrossTerm(p, 3) == dp * b - a * b;
    assert CrossTerm(p, 4) == a * dp - dp * dp;
    assert CrossTerm(p, 5) == 0.0;
    ShoelaceOf6(p);
  }

  /** A U top covers the top bar and both arms:
      |depth * (gapWidth + lengthLeft + lengthRight)| / 10000 square metres,
      missing sizes counting as 0. */
  lemma UArea(design: Design)
    requires design.layout == UShape && !OutlineMissing(UShape, design.dimensions)
    ensures var d := design.dimensions;
      CountertopArea(design) == Abs(d.depth.value * (OrZero(d.gapWidth) + OrZero(d.lengthLeft) + OrZero(d.lengthRight))) / 10000.0
  {
    var d := design.dimensions;
    var dp, l, r, c := d.depth.value, OrZero(d.lengthLeft), OrZero(d.lengthRight), OrZero(d.gapWidth);
    var p := DesignOutline(design);
    assert p == [Point(0.0, 0.0), Point(c, 0.0), Point(c, r + dp), Point(c - dp, r + dp),
                 Point(c - dp, dp), Point(dp, dp), Point(dp, l + dp), Point(0.0, l + dp)];
    assert CrossTerm(p, 0) == 0.0;
    assert CrossTerm(p, 1) == c * r + c * dp;
    assert CrossTerm(p, 2) == dp * r + dp * dp;
    assert CrossTerm(p, 3) == dp * r - c * r;
    assert CrossTerm(p, 4) == c * dp - 2.0 * (dp * dp);
    assert CrossTerm(p, 5) == dp * l;
    assert CrossTerm(p, 6) == dp * l + dp * dp;
    assert CrossTerm(p, 7) == 0.0;
    ShoelaceOf8(p);
    assert ShoelaceUpTo(p, 8) == 2.0 * (dp * (c + l + r));
    AbsScale(dp * (c + l + r), 2.0);
  }

  lemma ShoelaceOf4(p: seq<Point>)
    requires |p| == 4
    ensures ShoelaceUpTo(p, 4) == CrossTerm(p, 0) + CrossTerm(p, 1) + CrossTerm(p, 2) + CrossTerm(p, 3)
  {
    assert ShoelaceUpTo(p, 1) == CrossTerm(p, 0);
    assert ShoelaceUpTo(p, 2) == ShoelaceUpTo(p, 1) + CrossTerm(p, 1);
    assert ShoelaceUpTo(p, 3) == ShoelaceUpTo(p, 2) + CrossTerm(p, 2);
  }

  lemma ShoelaceOf6(p: seq<Point>)
    requires |p| == 6
    ensures ShoelaceUpTo(p, 6) == CrossTerm(p, 0) + CrossTerm(p, 1) + CrossTerm(p, 2) + CrossTerm(p, 3) + CrossTerm(p, 4) + CrossTerm(p, 5)
  {
    assert ShoelaceUpTo(p, 1) == CrossTerm(p, 0);
    assert ShoelaceUpTo(p, 2) == ShoelaceUpTo(p, 1) + CrossTerm(p, 1);
    assert ShoelaceUpTo(p, 3) == ShoelaceUpTo(p, 2) + CrossTerm(p, 2);
    assert ShoelaceUpTo(p, 4) == ShoelaceUpTo(p, 3) + CrossTerm(p, 3);
    assert ShoelaceUpTo(p, 5) == ShoelaceUpTo(p, 4) + CrossTerm(p, 4);
  }

  lemma ShoelaceOf8(p: seq<Point>)
    requires |p| == 8
    ensures ShoelaceUpTo(p, 8) == CrossTerm(p, 0) + CrossTerm(p, 1) + CrossTerm(p, 2) + CrossTerm(p, 3)
      + CrossTerm(p, 4) + CrossTerm(p, 5) + CrossTerm(p, 6) + CrossTerm(p, 7)
  {
    assert ShoelaceUpTo(p, 1) == CrossTerm(p, 0);
    assert ShoelaceUpTo(p, 2) == ShoelaceUpTo(p, 1) + CrossTerm(p, 1);
    assert ShoelaceUpTo(p, 3) == ShoelaceUpTo(p, 2) + CrossTerm(p, 2);
    assert ShoelaceUpTo(p, 4) == ShoelaceUpTo(p, 3) + CrossTerm(p, 3);
    assert ShoelaceUpTo(p, 5) == ShoelaceUpTo(p, 4) + CrossTerm(p, 4);
    assert ShoelaceUpTo(p, 6) == ShoelaceUpTo(p, 5) + CrossTerm(p, 5);
    assert ShoelaceUpTo(p, 7) == ShoelaceUpTo(p, 6) + CrossTerm(p, 6);
  }

  lemma AbsScale(x: real, k: real)
    requires k > 0.0
    ensures Abs(k * x) == k * Abs(x)
  {
    if x < 0.0 {
      assert k * x < 0.0 by { assert k * (-x) > 0.0; }
    } else {
      assert k * x >= 0.0;
    }
  }

  // ------------------------------------------------------------ perimeter

  /** The length of the edge from `poly[i]` to the next vertex, as the loop
      computes it. */
  function EdgeLen(poly: seq<Point>, i: int, sqrt: real -> real): real
    requires 0 <= i < |poly|
  {
    var dx, dy := Succ(poly, i).x - poly[i].x, Succ(poly, i).y - poly[i].y;
    sqrt(Sq(dx) + Sq(dy))
  }

  function PerimeterUpTo(poly: seq<Point>, k: int, sqrt: real -> real): real
    requires 0 <= k <= |poly|
  {
    if k == 0 then 0.0 else PerimeterUpTo(poly, k - 1, sqrt) + EdgeLen(poly, k - 1, sqrt)
  }

  /** `calculateEdgeLength`: the length of the closed outline; 0 without one. */
  function EdgeLength(design: Design, sqrt: real -> real): (r: real)
    ensures DesignOutline(design) == [] ==> r == 0.0
  {
    var poly := DesignOutline(design);
    if |poly| == 0 then 0.0 else PerimeterUpTo(poly, |poly|, sqrt)
  }

  method CalculateEdgeLength(design: Design, sqrt: real -> real) returns (perimeter: real)
    ensures perimeter == EdgeLength(design, sqrt)
  {
    var polygon := GeneratePolygon(design.layout, design.dimensions, design.orientation);
    if |polygon| == 0 {
      return 0.0;
    }
    perimeter := 0.0;
    for i := 0 to |polygon|
      invariant perimeter == PerimeterUpTo(polygon, i, sqrt)
    {
      var j := (i + 1) % |polygon|;
      var dx := polygon[j].x - polygon[i].x;
      var dy := polygon[j].y - polygon[i].y;
      perimeter := perimeter + sqrt(Sq(dx) + Sq(dy));
    }
  }

  /** `sqrt` is the non-negative square root on every non-negative number. */
  ghost predicate IsSqrt(sqrt: real -> real) {
    forall x :: x >= 0.0 ==> sqrt(x) >= 0.0 && sqrt(x) * sqrt(x) == x
  }

  /** The taxicab length |dx| + |dy| of the edge from `poly[i]`. */
  function Taxi(poly: seq<Point>, i: int): real
    requires 0 <= i < |poly|
  {
    Abs(Succ(poly, i).x - poly[i].x) + Abs(Succ(poly, i).y - poly[i].y)
  }

  /** The taxicab length of the first `k` edges. */
  function TaxicabUpTo(poly: seq<Point>, k: int): real
    requires 0 <= k <= |poly|
  {
    if k == 0 then 0.0 else TaxicabUpTo(poly, k - 1) + Taxi(poly, k - 1)
  }

  lemma TaxicabOf4(p: seq<Point>)
    requires |p| == 4
    ensures TaxicabUpTo(p, 4) == Taxi(p, 0) + Taxi(p, 1) + Taxi(p, 2) + Taxi(p, 3)
  {
    assert TaxicabUpTo(p, 1) == Taxi(p, 0);
    assert TaxicabUpTo(p, 2) == TaxicabUpTo(p, 1) + Taxi(p, 1);
    assert TaxicabUpTo(p, 3) == TaxicabUpTo(p, 2) + Taxi(p, 2);
  }

  lemma TaxicabOf6(p: seq<Point>)
    requires |p| == 6
    ensures TaxicabUpTo(p, 6) == Taxi(p, 0) + Taxi(p, 1) + Taxi(p, 2) + Taxi(p, 3) + Taxi(p, 4) + Taxi(p, 5)
  {
    assert TaxicabUpTo(p, 1) == Taxi(p, 0);
    assert TaxicabUpTo(p, 2) == TaxicabUpTo(p, 1) + Taxi(p, 1);
    assert TaxicabUpTo(p, 3) == TaxicabUpTo(p, 2) + Taxi(p, 2);
    assert TaxicabUpTo(p, 4) == TaxicabUpTo(p, 3) + Taxi(p, 3);
    assert TaxicabUpTo(p, 5) == TaxicabUpTo(p, 4) + Taxi(p, 4);
  }

  lemma TaxicabOf8(p: seq<Point>)
    requires |p| == 8
    ensures TaxicabUpTo(p, 8) == Taxi(p, 0) + Taxi(p, 1) + Taxi(p, 2) + Taxi(p, 3) + Taxi(p, 4) + Taxi(p, 5) + Taxi(p, 6) + Taxi(p, 7)
  {
    assert TaxicabUpTo(p, 1) == Taxi(p, 0);
    assert TaxicabUpTo(p, 2) == TaxicabUpTo(p, 1) + Taxi(p, 1);
    assert TaxicabUpTo(p, 3) == TaxicabUpTo(p, 2) + Taxi(p, 2);
    assert TaxicabUpTo(p, 4) == TaxicabUpTo(p, 3) + Taxi(p, 3);
    assert TaxicabUpTo(p, 5) == TaxicabUpTo(p, 4) + Taxi(p, 4);
    assert TaxicabUpTo(p, 6) == TaxicabUpTo(p, 5) + Taxi(p, 5);
    assert TaxicabUpTo(p, 7) == TaxicabUpTo(p, 6) + Taxi(p, 6);
  }

  /** A non-negative root of x * x is |x|. */
  lemma RootOfSquare(s: real, x: real)
    requires s >= 0.0 && s * s == x * x
    ensures s == Abs(x)
  {
    var a := Abs(x);
    NegSquare(x);
    assert (s - a) * (s + a) == s * s - a * a;
    if s + a > 0.0 {
      MulZero(s - a, s + a);
    }
  }

  /** An axis-aligned edge is as long as its taxicab length. */
  lemma AxisEdgeLen(poly: seq<Point>, i: int, sqrt: real -> real)
    requires IsSqrt(sqrt) && 0 <= i < |poly|
    requires poly[i].x == Succ(poly, i).x || poly[i].y == Succ(poly, i).y
    ensures EdgeLen(poly, i, sqrt) == Taxi(poly, i)
  {
    var dx, dy := Succ(poly, i).x - poly[i].x, Succ(poly, i).y - poly[i].y;
    var s := sqrt(Sq(dx) + Sq(dy));
    if dx == 0.0 {
      assert Sq(dx) + Sq(dy) == dy * dy;
      RootOfSquare(s, dy);
    } else {
      assert Sq(dx) + Sq(dy) == dx * dx;
      RootOfSquare(s, dx);
    }
  }

  lemma {:induction false} PerimeterIsTaxicab(poly: seq<Point>, k: int, sqrt: real -> real)
    requires IsSqrt(sqrt) && AxisAligned(poly) && 0 <= k <= |poly|
    ensures PerimeterUpTo(poly, k, sqrt) == TaxicabUpTo(poly, k)
  {
    if k > 0 {
      var j := k - 1;
      PerimeterIsTaxicab(poly, j, sqrt);
      assert poly[j].x == Succ(poly, j).x || poly[j].y == Succ(poly, j).y;
      AxisEdgeLen(poly, j, sqrt);
      assert PerimeterUpTo(poly, k, sqrt) == PerimeterUpTo(poly, j, sqrt) + EdgeLen(poly, j, sqrt);
      assert TaxicabUpTo(poly, k) == TaxicabUpTo(poly, j) + Taxi(poly, j);
    }
  }

  /** Every generated outline is axis-aligned, so with an exact square root
      the edge length is the sum of |dx| + |dy| over the closed loop. */
  lemma EdgeLengthIsTaxicab(design: Design, sqrt: real -> real)
    requires IsSqrt(sqrt)
    ensures var poly := DesignOutline(design); EdgeLength(design, sqrt) == TaxicabUpTo(poly, |poly|)
  {
    var poly := DesignOutline(design);
    OutlineAxisAligned(design.layout, design.dimensions, design.orientation);
    PerimeterIsTaxicab(poly, |poly|, sqrt);
  }

  /** A straight L x D top has edge length 2 (|L| + |D|). */
  lemma StraightEdgeLength(design: Design, sqrt: real -> real)
    requires IsSqrt(sqrt) && design.layout == Straight && !OutlineMissing(Straight, design.dimensions)
    ensures EdgeLength(design, sqrt) == 2.0 * (Abs(design.dimensions.length.value) + Abs(design.dimensions.depth.value))
  {
    EdgeLengthIsTaxicab(design, sqrt);
    var l, dp := design.dimensions.length.value, design.dimensions.depth.value;
    var p := DesignOutline(design);
    assert p == [Point(0.0, 0.0), Point(l, 0.0), Point(l, dp), Point(0.0, dp)];
    assert Taxi(p, 0) == Abs(l);
    assert Taxi(p, 1) == Abs(dp);
    assert Taxi(p, 2) == Abs(l);
    assert Taxi(p, 3) == Abs(dp);
    TaxicabOf4(p);
  }

  /** An L top whose bar is at least as long as it is deep has edge length
      2 (lengthA + lengthB + depth), in either orientation. */
  lemma LEdgeLength(design: Design, sqrt: real -> real)
    requires IsSqrt(sqrt) && design.layout == LShape && !OutlineMissing(LShape, design.dimensions)
    requires var d := design.dimensions; d.lengthA.value >= d.depth.value > 0.0 && d.lengthB.value >= 0.0
    ensures var d := design.dimensions; EdgeLength(design, sqrt) == 2.0 * (d.lengthA.value + d.lengthB.value + d.depth.value)
  {
    EdgeLengthIsTaxicab(design, sqrt);
    var a, b, dp := design.dimensions.lengthA.value, design.dimensions.lengthB.value, design.dimensions.depth.value;
    if design.orientation == LeftL {
      LeftLTaxicab(a, b, dp);
    } else {
      RightLTaxicab(a, b, dp);
    }
  }

  lemma LeftLTaxicab(a: real, b: real, dp: real)
    requires a >= dp > 0.0 && b >= 0.0
    ensures TaxicabUpTo([Point(0.0, 0.0), Point(a, 0.0), Point(a, dp), Point(dp, dp), Point(dp, dp + b), Point(0.0, dp + b)], 6)
      == 2.0 * (a + b + dp)
  {
    var p := [Point(0.0, 0.0), Point(a, 0.0), Point(a, dp), Point(dp, dp), Point(dp, dp + b), Point(0.0, dp + b)];
    assert Taxi(p, 0) == a;
    assert Taxi(p, 1) == dp;
    assert Taxi(p, 2) == a - dp;
    assert Taxi(p, 3) == b;
    assert Taxi(p, 4) == dp;
    assert Taxi(p, 5) == dp + b;
    TaxicabOf6(p);
  }

  lemma RightLTaxicab(a: real, b: real, dp: real)
    requires a >= dp > 0.0 && b >= 0.0
    ensures TaxicabUpTo([Point(0.0, 0.0), Point(a, 0.0), Point(a, dp + b), Point(a - dp, dp + b), Point(a - dp, dp), Point(0.0, dp)], 6)
      == 2.0 * (a + b + dp)
  {
    var p := [Point(0.0, 0.0), Point(a, 0.0), Point(a, dp + b), Point(a - dp, dp + b), Point(a - dp, dp), Point(0.0, dp)];
    assert Taxi(p, 0) == a;
    assert Taxi(p, 1) == dp + b;
    assert Taxi(p, 2) == dp;
    assert Taxi(p, 3) == b;
    assert Taxi(p, 4) == a - dp;
    assert Taxi(p, 5) == dp;
    TaxicabOf6(p);
  }

  /** A U top whose bar holds both arms (gapWidth >= 2 depth) has edge length
      2 (gapWidth + lengthLeft + lengthRight + depth). */
  lemma UEdgeLength(design: Design, sqrt: real -> real)
    requires IsSqrt(sqrt) && design.layout == UShape && !OutlineMissing(UShape, design.dimensions)
    requires var d := design.dimensions;
      d.depth.value > 0.0 && OrZero(d.gapWidth) >= 2.0 * d.depth.value && OrZero(d.lengthLeft) >= 0.0 && OrZero(d.lengthRight) >= 0.0
    ensures var d := design.dimensions;
      EdgeLength(design, sqrt) == 2.0 * (OrZero(d.gapWidth) + OrZero(d.lengthLeft) + OrZero(d.lengthRight) + d.depth.value)
  {
    EdgeLengthIsTaxicab(design, sqrt);
    var d := design.dimensions;
    var dp, l, r, c := d.depth.value, OrZero(d.lengthLeft), OrZero(d.lengthRight), OrZero(d.gapWidth);
    var p := DesignOutline(design);
    assert p == [Point(0.0, 0.0), Point(c, 0.0), Point(c, r + dp), Point(c - dp, r + dp),
                 Point(c - dp, dp), Point(dp, dp), Point(dp, l + dp), Point(0.0, l + dp)];
    assert Taxi(p, 0) == c;
    assert Taxi(p, 1) == r + dp;
    assert Taxi(p, 2) == dp;
    assert Taxi(p, 3) == r;
    assert Taxi(p, 4) == c - 2.0 * dp;
    assert Taxi(p, 5) == l;
    assert Taxi(p, 6) == dp;
    assert Taxi(p, 7) == l + dp;
    TaxicabOf8(p);
  }

  // ------------------------------------------------------------- material

  predicate SameMaterial(m: Style, style: Style) {
    m.value == style.value && m.kind == style.kind
  }

  /** `MATERIALS.find(...)` from position `i` on: the position of the first
      entry with the style's value and type. */
  function MatchFrom(catalogue: seq<Style>, style: Style, i: nat): (r: Option<nat>)
    requires i <= |catalogue|
    ensures r.Some? ==> i <= r.value < |catalogue|
    decreases |catalogue| - i
  {
    if i == |catalogue| then None
    else if SameMaterial(catalogue[i], style) then Some(i)
    else MatchFrom(catalogue, style, i + 1)
  }

  /** The match found is the first one, and there is none exactly when no
      entry from `i` on has the style's value and type. */
  lemma {:induction false} MatchFromIsFirst(catalogue: seq<Style>, style: Style, i: nat)
    requires i <= |catalogue|
    ensures var r := MatchFrom(catalogue, style, i);
      (r.None? <==> forall k :: i <= k < |catalogue| ==> !SameMaterial(catalogue[k], style)) &&
      (r.Some? ==> SameMaterial(catalogue[r.value], style) && forall k :: i <= k < r.value ==> !SameMaterial(catalogue[k], style))
    decreases |catalogue| - i
  {
    if i < |catalogue| && !SameMaterial(catalogue[i], style) {
      MatchFromIsFirst(catalogue, style, i + 1);
    }
  }

  /** The rate per square metre: the matched entry's `pricePerSqm || 120`,
      and 120 when nothing matches. */
  function CataloguePrice(catalogue: seq<Style>, style: Style): real {
    match MatchFrom(catalogue, style, 0)
    case None => DEFAULT_PRICE_PER_SQM
    case Some(k) => OrElse(catalogue[k].pricePerSqm, DEFAULT_PRICE_PER_SQM)
  }

  function MaterialPrice(style: Style): real {
    CataloguePrice(MATERIALS, style)
  }

  /** A matched entry priced at 0 falls back to the default rate, because the
      lookup combines with `||`. */
  lemma ZeroPriceFallsBack(catalogue: seq<Style>, style: Style, k: int)
    requires 0 <= k < |catalogue| && SameMaterial(catalogue[k], style) && catalogue[k].pricePerSqm == Some(0.0)
    requires forall j :: 0 <= j < k ==> !SameMaterial(catalogue[j], style)
    ensures CataloguePrice(catalogue, style) == DEFAULT_PRICE_PER_SQM
  {
    MatchFromIsFirst(catalogue, style, 0);
    var i := MatchFrom(catalogue, style, 0).value;
    assert i == k;
  }

  /** The rate is that of the first entry with the style's value and type,
      and the default 120 when there is none. */
  lemma CataloguePriceIsFirstMatch(catalogue: seq<Style>, style: Style, k: int)
    requires 0 <= k < |catalogue| && SameMaterial(catalogue[k], style)
    requires forall j :: 0 <= j < k ==> !SameMaterial(catalogue[j], style)
    ensures CataloguePrice(catalogue, style) == OrElse(catalogue[k].pricePerSqm, DEFAULT_PRICE_PER_SQM)
  {
    MatchFromIsFirst(catalogue, style, 0);
    var i := MatchFrom(catalogue, style, 0).value;
    assert i == k;
  }

  /** Every catalogue rate lies between 90 and 280. */
  lemma CatalogueRates()
    ensures forall i :: 0 <= i < |MATERIALS| ==> MATERIALS[i].pricePerSqm.Some? && 90.0 <= MATERIALS[i].pricePerSqm.value <= 280.0
  {
  }

  /** The rate of any style lies between 90 and 280 per square metre: a catalogue
      rate, or 120 for a style the catalogue does not have. */
  lemma MaterialPriceRange(style: Style)
    ensures 90.0 <= MaterialPrice(style) <= 280.0
    ensures (forall i :: 0 <= i < |MATERIALS| ==> !SameMaterial(MATERIALS[i], style)) ==> MaterialPrice(style) == 120.0
  {
    CatalogueRates();
    MatchFromIsFirst(MATERIALS, style, 0);
  }

  /** The default white colour costs 90 per square metre. */
  lemma WhitePrice()
    ensures MaterialPrice(MATERIALS[0]) == 90.0
  {
  }

  // -------------------------------------------------------------- cutouts

  /** The `reduce` over the cutouts: each adds its type's catalogue price and
      the cutting fee. */
  function CutoutCost(cutouts: seq<Cutout>): (r: real)
    ensures (70.0 * |cutouts| as real) <= r <= 330.0 * |cutouts| as real
  {
    if cutouts == [] then 0.0
    else CutoutCost(cutouts[..|cutouts| - 1]) + CutoutTypePrice(cutouts[|cutouts| - 1].kind) + CUTTING_COST_PER_CUTOUT
  }

  /** The cost of a concatenation is the sum of the costs. */
  lemma {:induction false} CutoutCostAppend(a: seq<Cutout>, b: seq<Cutout>)
    ensures CutoutCost(a + b) == CutoutCost(a) + CutoutCost(b)
  {
    if b != [] {
      var b' := b[..|b| - 1];
      assert (a + b)[..|a + b| - 1] == a + b';
      CutoutCostAppend(a, b');
    } else {
      assert a + b == a;
    }
  }

  // ---------------------------------------------------------------- total

  /** The breakdown `calculatePricing` assembles from an area in square
      metres, an edge length in centimetres, a material rate and the cutout
      cost. */
  function Breakdown(area: real, edgeLength: real, rate: real, cutoutCost: real): PricingBreakdown {
    var materialCost := area * rate;
    var laborCost := area * LABOR_COST_PER_SQM;
    var edgeCost := edgeLength * EDGE_COST_PER_CM;
    var subtotal := materialCost + laborCost + edgeCost + cutoutCost;
    var vat := subtotal * VAT_RATE;
    PricingBreakdown(materialCost, laborCost, edgeCost, cutoutCost, subtotal, vat, subtotal + vat, area, edgeLength)
  }

  /** The cost identities: material and labour cost (rate + 50) per square
      metre, the edge 2 per centimetre, VAT is 23% of the subtotal and the
      total 1.23 times it; with non-negative inputs no cost is negative. */
  lemma BreakdownIdentities(area: real, edgeLength: real, rate: real, cutoutCost: real)
    ensures var r := Breakdown(area, edgeLength, rate, cutoutCost);
      r.area == area && r.edgeLength == edgeLength && r.cutoutCost == cutoutCost &&
      r.materialCost + r.laborCost == area * (rate + 50.0) &&
      r.subtotal == area * (rate + 50.0) + 2.0 * edgeLength + cutoutCost &&
      r.total == r.subtotal + r.vat == 1.23 * r.subtotal
    ensures var r := Breakdown(area, edgeLength, rate, cutoutCost);
      area >= 0.0 && rate >= 0.0 && edgeLength >= 0.0 && cutoutCost >= 0.0 ==>
      r.materialCost >= 0.0 && r.laborCost >= 0.0 && r.edgeCost >= 0.0 && r.vat >= 0.0 && 0.0 <= r.subtotal <= r.total
  {
    if area >= 0.0 && rate >= 0.0 {
      assert area * rate >= 0.0;
    }
  }

  /** `calculatePricing`. */
  function Pricing(design: Design, sqrt: real -> real): PricingBreakdown {
    Breakdown(CountertopArea(design), EdgeLength(design, sqrt), MaterialPrice(design.style), CutoutCost(design.cutouts))
  }

  method CalculatePricing(design: Design, sqrt: real -> real) returns (r: PricingBreakdown)
    ensures r == Pricing(design, sqrt)
  {
    var area := CalculateCountertopArea(design);
    var edgeLength := CalculateEdgeLength(design, sqrt);
    r := Breakdown(area, edgeLength, MaterialPrice(design.style), CutoutCost(design.cutouts));
  }

  /** Two designs with the same cutouts pay the same for them, whatever their
      outlines. */
  lemma CutoutCostIgnoresOutline(design: Design, other: Design, sqrt: real -> real)
    requires other.cutouts == design.cutouts
    ensures Pricing(design, sqrt).cutoutCost == Pricing(other, sqrt).cutoutCost
  {
    BreakdownIdentities(CountertopArea(design), EdgeLength(design, sqrt), MaterialPrice(design.style), CutoutCost(design.cutouts));
    BreakdownIdentities(CountertopArea(other), EdgeLength(other, sqrt), MaterialPrice(other.style), CutoutCost(other.cutouts));
  }

  /** Adding cutouts to a design raises its subtotal by exactly their cost and
      leaves the area, the edge length and the material cost as they were. */
  lemma MoreCutoutsCostMore(design: Design, extra: seq<Cutout>, sqrt: real -> real)
    ensures var before, after := Pricing(design, sqrt), Pricing(design.(cutouts := design.cutouts + extra), sqrt);
      after.subtotal == before.subtotal + CutoutCost(extra) &&
      after.area == before.area && after.edgeLength == before.edgeLength && after.materialCost == before.materialCost
  {
    var more := design.(cutouts := design.cutouts + extra);
    assert DesignOutline(more) == DesignOutline(design);
    var area, edge, rate := CountertopArea(design), EdgeLength(design, sqrt), MaterialPrice(design.style);
    assert Pricing(more, sqrt) == Breakdown(area, edge, rate, CutoutCost(more.cutouts));
    BreakdownIdentities(area, edge, rate, CutoutCost(more.cutouts));
    BreakdownIdentities(area, edge, rate, CutoutCost(design.cutouts));
    CutoutCostAppend(design.cutouts, extra);
  }

  /** With a non-negative square root every cost is non-negative, the cutouts
      cost at least 70 each, and 0 <= subtotal <= total. */
  lemma PricingBounds(design: Design, sqrt: real -> real)
    requires forall x :: x >= 0.0 ==> sqrt(x) >= 0.0
    ensures var p := Pricing(design, sqrt);
      p.materialCost >= 0.0 && p.laborCost >= 0.0 && p.edgeCost >= 0.0 &&
      p.cutoutCost >= 70.0 * |design.cutouts| as real &&
      0.0 <= p.subtotal <= p.total && p.vat >= 0.0
  {
    var poly := DesignOutline(design);
    MaterialPriceRange(design.style);
    if |poly| > 0 {
      PerimeterNonNegative(poly, |poly|, sqrt);
    }
    BreakdownIdentities(CountertopArea(design), EdgeLength(design, sqrt), MaterialPrice(design.style), CutoutCost(design.cutouts));
  }

  lemma {:induction false} PerimeterNonNegative(poly: seq<Point>, k: int, sqrt: real -> real)
    requires forall x :: x >= 0.0 ==> sqrt(x) >= 0.0
    requires 0 <= k <= |poly|
    ensures PerimeterUpTo(poly, k, sqrt) >= 0.0
  {
    if k > 0 {
      var j := k - 1;
      PerimeterNonNegative(poly, j, sqrt);
      var dx, dy := Succ(poly, j).x - poly[j].x, Succ(poly, j).y - poly[j].y;
      assert Sq(dx) + Sq(dy) >= 0.0;
    }
  }

  /** The default 300 x 60 white straight top without cutouts: 1.8 m², 720 cm
      of edge, 162 + 90 + 1440 = 1692 before VAT and 2081.16 in total. */
  lemma DefaultPricing(design: Design, sqrt: real -> real)
    requires design.layout == Straight && design.style == MATERIALS[0] && design.cutouts == []
    requires design.dimensions.length == Some(300.0) && design.dimensions.depth == Some(60.0)
    requires IsSqrt(sqrt)
    ensures Pricing(design, sqrt) == PricingBreakdown(162.0, 90.0, 1440.0, 0.0, 1692.0, 389.16, 2081.16, 1.8, 720.0)
  {
    StraightArea(design);
    StraightEdgeLength(design, sqrt);
    WhitePrice();
  }
}
