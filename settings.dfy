/** Unit conversion of the settings store: centimetres, millimetres and
    inches, each conversion multiplied by a fixed factor and then rounded to
    whole millimetres or to two decimals. The store's current unit is a
    parameter. */
module Settings {
  import opened Types

  datatype Unit = Cm | Mm | Inches

  const CM_TO_INCHES: real := 0.393701
  const INCHES_TO_CM: real := 2.54
  const CM_TO_MM: real := 10.0
  const MM_TO_CM: real := 0.1
  const INCHES_TO_MM: real := 25.4
  const MM_TO_INCHES: real := 1.0 / 25.4

  /** `Math.round(x * 100) / 100`. */
  function RoundCents(x: real): real {
    Round(x * 100.0) as real / 100.0
  }

  /** `Math.round(x)` as a number. */
  function RoundWhole(x: real): real {
    Round(x) as real
  }

  /** The factor a conversion multiplies by; 1 between equal units. */
  function Factor(from: Unit, to: Unit): real {
    match (from, to)
    case (Cm, Inches) => CM_TO_INCHES
    case (Inches, Cm) => INCHES_TO_CM
    case (Cm, Mm) => CM_TO_MM
    case (Mm, Cm) => MM_TO_CM
    case (Inches, Mm) => INCHES_TO_MM
    case (Mm, Inches) => MM_TO_INCHES
    case _ => 1.0
  }

  /** `convertValue`: an omitted unit is the current one; equal units return
      the value as it is; conversions to millimetres round to whole numbers,
      all others to two decimals. */
  function ConvertValue(value: real, fromUnit: Option<Unit>, toUnit: Option<Unit>, currentUnits: Unit): (r: real)
    ensures (if fromUnit.Some? then fromUnit.value else currentUnits) == (if toUnit.Some? then toUnit.value else currentUnits) ==> r == value
  {
    var from := if fromUnit.Some? then fromUnit.value else currentUnits;
    var to := if toUnit.Some? then toUnit.value else currentUnits;
    if from == to then value
    else match (from, to)
      case (Cm, Inches) => RoundCents(value * CM_TO_INCHES)
      case (Inches, Cm) => RoundCents(value * INCHES_TO_CM)
      case (Cm, Mm) => RoundWhole(value * CM_TO_MM)
      case (Mm, Cm) => RoundCents(value * MM_TO_CM)
      case (Inches, Mm) => RoundWhole(value * INCHES_TO_MM)
      case (Mm, Inches) => RoundCents(value * MM_TO_INCHES)
      case _ => value
  }

  /** An omitted unit means the current one, and converting between equal
      units returns the value unchanged. */
  lemma OmittedUnitIsCurrent(value: real, from: Option<Unit>, to: Option<Unit>, current: Unit)
    ensures ConvertValue(value, from, to, current) ==
      ConvertValue(value, Some(if from.Some? then from.value else current), Some(if to.Some? then to.value else current), current)
    ensures from.None? && to.None? ==> ConvertValue(value, from, to, current) == value
    ensures ConvertValue(value, Some(current), None, current) == value
  {
  }

  /** Conversions to millimetres give whole numbers, within half a millimetre
      of the exact product. */
  lemma ToMillimetresIsWhole(value: real, from: Unit, current: Unit)
    requires from != Mm
    ensures var r := ConvertValue(value, Some(from), Some(Mm), current);
      r == r.Floor as real && value * Factor(from, Mm) - 0.5 < r <= value * Factor(from, Mm) + 0.5
  {
  }

  /** Every other conversion between different units gives a number with at
      most two decimals, within 0.005 of the exact product. */
  lemma OtherConversionsHaveTwoDecimals(value: real, from: Unit, to: Unit, current: Unit)
    requires from != to && to != Mm
    ensures var r := ConvertValue(value, Some(from), Some(to), current);
      r * 100.0 == (r * 100.0).Floor as real && value * Factor(from, to) - 0.005 < r <= value * Factor(from, to) + 0.005
  {
    var x := value * Factor(from, to);
    var n := Round(x * 100.0);
    assert ConvertValue(value, Some(from), Some(to), current) == n as real / 100.0;
    assert n as real / 100.0 * 100.0 == n as real;
  }

  /** Centimetres to millimetres and back gives the value rounded to a
      millimetre, and so gives back every value with at most one decimal. */
  lemma CentimetreRoundTrip(value: real, current: Unit)
    ensures var mm := ConvertValue(value, Some(Cm), Some(Mm), current);
      ConvertValue(mm, Some(Mm), Some(Cm), current) == Round(value * 10.0) as real / 10.0
    ensures value * 10.0 == (value * 10.0).Floor as real ==>
      ConvertValue(ConvertValue(value, Some(Cm), Some(Mm), current), Some(Mm), Some(Cm), current) == value
  {
    var n := Round(value * 10.0);
    var mm := ConvertValue(value, Some(Cm), Some(Mm), current);
    assert mm == n as real;
    WholeMillimetresToCentimetres(n, current);
    if value * 10.0 == (value * 10.0).Floor as real {
      RoundOfWhole((value * 10.0).Floor);
    }
  }

  /** Rounding leaves a whole number as it is. */
  lemma RoundOfWhole(k: int)
    ensures Round(k as real) == k
  {
  }

  /** A whole number of millimetres converts to centimetres exactly. */
  lemma WholeMillimetresToCentimetres(n: int, current: Unit)
    ensures ConvertValue(n as real, Some(Mm), Some(Cm), current) == n as real / 10.0
  {
    var x := n as real * MM_TO_CM * 100.0;
    assert x == (n * 10) as real;
    RoundOfWhole(n * 10);
  }
}
