/** Constants of the configurator: grid, edge distance, pricing rates and the
    material and cutout catalogues. */
module Config {
  import opened Types

  const GRID_SIZE: real := 10.0
  /** Minimum distance of a cutout corner from the outline, in millimetres. */
  const MIN_EDGE_DISTANCE: real := 30.0
  /** The same threshold in centimetres, as validation compares it. */
  const MIN_EDGE_DISTANCE_CM: real := MIN_EDGE_DISTANCE / 10.0

  const LABOR_COST_PER_SQM: real := 50.0
  const EDGE_COST_PER_CM: real := 2.0
  const CUTTING_COST_PER_CUTOUT: real := 30.0
  const VAT_RATE: real := 0.23
  /** Price per square metre used when the style is not in the catalogue. */
  const DEFAULT_PRICE_PER_SQM: real := 120.0

  function Material(kind: StyleKind, value: string, name: string, price: real, category: string): Style {
    Style(kind, value, name, Some(price), Some(category))
  }

  /** The material catalogue, in catalogue order. */
  const MATERIALS: seq<Style> := [
    Material(Color, "#FFFFFF", "Biały", 90.0, "kolory"),
    Material(Color, "#F8F8FF", "Kość słoniowa", 95.0, "kolory"),
    Material(Color, "#F5F5DC", "Beżowy", 100.0, "kolory"),
    Material(Color, "#D2B48C", "Jasny brąz", 110.0, "kolory"),
    Material(Color, "#8B4513", "Brązowy", 120.0, "kolory"),
    Material(Color, "#F5F5F5", "Jasny szary", 105.0, "kolory"),
    Material(Color, "#D3D3D3", "Średni szary", 115.0, "kolory"),
    Material(Color, "#696969", "Szary", 130.0, "kolory"),
    Material(Color, "#2F4F4F", "Ciemny szary", 140.0, "kolory"),
    Material(Texture, "/texture/pebbled-counter-unity/pebbled-counter-unity/pebbled-counter-Base_Color.png",
             "Kamień – Pebbled Counter", 220.0, "kamien"),
    Material(Texture, "/texture/subtle-grained-wood-unity/subtle-grained-wood-unity/subtle-grained-wood_albedo.png",
             "Drewno – Subtle Grained", 180.0, "drewno"),
    Material(Texture, "/texture/oak-wood-bare-unity/oak-wood-bare_albedo.png",
             "Drewno – Dąb (surowy)", 190.0, "drewno"),
    Material(Texture, "/texture/bamboo-wood-semigloss-Unity/bamboo-wood-semigloss-albedo.png",
             "Drewno – Bambus (semi-gloss)", 170.0, "drewno"),
    Material(Texture, "/texture/procedural/marble-white.svg", "Marmur – biały", 240.0, "kamien"),
    Material(Texture, "/texture/procedural/granite-gray.svg", "Granit – szary", 230.0, "kamien"),
    Material(Texture, "/texture/procedural/concrete-light.svg", "Beton – jasny", 160.0, "nowoczesne"),
    Material(Texture, "/texture/procedural/stainless-brushed.svg", "Stal nierdzewna – szczotkowana", 280.0, "nowoczesne"),
    Material(Texture, "/texture/procedural/quartz-speckled.svg", "Kwarc – nakrapiany", 260.0, "kamien")
  ]

  /** Fixed catalogue price of each cutout type. */
  function CutoutTypePrice(t: CutoutType): (p: real)
    ensures 40.0 <= p <= 300.0
  {
    match t
    case Zlew => 150.0
    case ZlewNarozny => 200.0
    case ZlewPodwojny => 250.0
    case PlytaIndukcyjna => 200.0
    case PlytaIndukcyjnaMala => 180.0
    case PlytaIndukcyjnaDuza => 250.0
    case PlytaGazowa => 180.0
    case PlytaMieszana => 300.0
    case OtworBaterii => 50.0
    case OtworDozownika => 40.0
    case OtworFiltra => 60.0
    case WycinekNarozny => 80.0
  }
}
