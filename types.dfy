/** The value types of the configurator: a design, its outline points, cutouts,
    dividers, styles and validation errors. Every numeric field is a real number
    of centimetres; a field the source declares optional is an `Option`. */
module Types {

  datatype Option<+T> = None | Some(value: T)

  /** JavaScript truthiness of an optional number: a missing value and 0 are falsy,
      every other number (negative ones included) is truthy. */
  predicate Falsy(v: Option<real>) {
    v.None? || v.value == 0.0
  }

  /** `v || d` on an optional number. */
  function OrElse(v: Option<real>, d: real): (r: real)
    ensures Falsy(v) ==> r == d
    ensures !Falsy(v) ==> r == v.value
  {
    if Falsy(v) then d else v.value
  }

  /** `v ?? 0` on an optional number: only a missing value is replaced. */
  function OrZero(v: Option<real>): real {
    if v.None? then 0.0 else v.value
  }

  function Abs(x: real): (r: real)
    ensures r >= 0.0 && (r == x || r == -x)
  {
    if x < 0.0 then -x else x
  }

  function Min(a: real, b: real): real { if a <= b then a else b }
  function Max(a: real, b: real): real { if a >= b then a else b }

  /** JavaScript `Math.round`: the nearest integer, halves rounded up. */
  function Round(x: real): (r: int)
    ensures x - 0.5 < r as real <= x + 0.5
  {
    (x + 0.5).Floor
  }

  /** "prosty", "l-ksztaltny", "u-ksztaltny". */
  datatype Layout = Straight | LShape | UShape

  /** "left-l", "right-l": which side the vertical arm of an L hangs from. */
  datatype Orientation = LeftL | RightL

  datatype Point = Point(x: real, y: real)

  /** A superset record; each layout reads only its own fields. For the U layout
      `gapWidth` is the total outer width C of the top bar. */
  datatype Dimensions = Dimensions(
    length: Option<real>,
    depth: Option<real>,
    lengthA: Option<real>,
    lengthB: Option<real>,
    lengthLeft: Option<real>,
    lengthRight: Option<real>,
    gapWidth: Option<real>)

  /** Reference corner of a cutout's offsets: "lewo" (Left) / "prawo" (Right),
      "przod" (Front, the minimum y) / "tyl" (Back, the maximum y). */
  datatype ReferenceX = Left | Right
  datatype ReferenceY = Front | Back

  datatype CutoutType =
    | Zlew | ZlewNarozny | ZlewPodwojny
    | PlytaIndukcyjna | PlytaIndukcyjnaMala | PlytaIndukcyjnaDuza | PlytaGazowa | PlytaMieszana
    | OtworBaterii | OtworDozownika | OtworFiltra | WycinekNarozny

  /** A rectangular opening; its centre is derived from the offsets and the
      reference corner, `position` is carried along but not used for geometry. */
  datatype Cutout = Cutout(
    id: string,
    name: string,
    kind: CutoutType,
    width: real,
    depth: real,
    position: Point,
    offsetX: real,
    offsetY: real,
    referenceX: ReferenceX,
    referenceY: ReferenceY)

  datatype DividerType = SzafkaStojaca | Przerwa | Kolumna | LodowkaZabudowana | Zmywarka

  /** A divider placed on a segment at a fraction `position` of its length. */
  datatype Divider = Divider(
    id: string,
    kind: DividerType,
    name: string,
    width: real,
    segmentId: string,
    position: real,
    price: real)

  datatype StyleKind = Texture | Color

  datatype Style = Style(
    kind: StyleKind,
    value: string,
    name: string,
    pricePerSqm: Option<real>,
    category: Option<string>)

  datatype SegmentStyle = SegmentStyle(segmentId: string, name: string, style: Style)

  datatype Design = Design(
    layout: Layout,
    orientation: Orientation,
    dimensions: Dimensions,
    style: Style,
    segmentStyles: Option<seq<SegmentStyle>>,
    cutouts: seq<Cutout>,
    dividers: Option<seq<Divider>>)

  datatype ErrorKind = EdgeDistance | Overlap | OutsideBounds | DimensionInvalid

  datatype ValidationError = ValidationError(
    id: string,
    kind: ErrorKind,
    message: string,
    position: Option<Point>)
}
