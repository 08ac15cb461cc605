/** The constant tables of the widget: zone code to result group, water-level
    label to load case, and the soil parameters of each zone. */
module Tables {
  import opened Wrappers
  import opened JsNumbers

  /** The group codes that key the result data set and the image folders. */
  datatype Group = G1 | G2 | G3 {
    function Code(): string {
      match this
      case G1 => "G1"
      case G2 => "G2"
      case G3 => "G3"
    }
  }

  /** The load cases: water at the ground surface, no water level, rapid drawdown. */
  datatype Case = Wet | Dry | Rapid {
    function Code(): string {
      match this
      case Wet => "WET"
      case Dry => "DRY"
      case Rapid => "RAPID"
    }
  }

  /** The zone codes offered by the form. */
  function ZoneCode(g: Group): string {
    match g
    case G1 => "ABC"
    case G2 => "D"
    case G3 => "EF"
  }

  /** The water-level labels offered by the form (Thai): "ground surface",
      "water level not considered", "rapid drawdown". */
  function WaterLabel(c: Case): string {
    match c
    case Wet => "\U{E1C}\U{E34}\U{E27}\U{E14}\U{E34}\U{E19}"
    case Dry => "\U{E44}\U{E21}\U{E48}\U{E21}\U{E35}\U{E1E}\U{E34}\U{E08}\U{E32}\U{E23}\U{E13}\U{E32}\U{E23}\U{E30}\U{E14}\U{E31}\U{E1A}\U{E19}\U{E49}\U{E33}"
    case Rapid => "\U{E25}\U{E14}\U{E25}\U{E07}\U{E2D}\U{E22}\U{E48}\U{E32}\U{E07}\U{E23}\U{E27}\U{E14}\U{E40}\U{E23}\U{E47}\U{E27}"
  }

  /** ZONE_MAP[zone]: defined exactly on the three zone codes, each of which
      maps to its own group; None is `undefined`. */
  function ZoneGroup(zone: string): (g: Option<Group>)
    ensures g.Some? <==> zone == "ABC" || zone == "D" || zone == "EF"
    ensures g.Some? ==> ZoneCode(g.value) == zone
  {
    if zone == "ABC" then Some(G1)
    else if zone == "D" then Some(G2)
    else if zone == "EF" then Some(G3)
    else None
  }

  /** WATER_LEVEL_MAP[level]: defined exactly on the three labels, each of which
      maps to its own case; None is `undefined`. */
  function WaterCase(level: string): (c: Option<Case>)
    ensures c.Some? <==> level == WaterLabel(Wet) || level == WaterLabel(Dry) || level == WaterLabel(Rapid)
    ensures c.Some? ==> WaterLabel(c.value) == level
  {
    if level == WaterLabel(Wet) then Some(Wet)
    else if level == WaterLabel(Dry) then Some(Dry)
    else if level == WaterLabel(Rapid) then Some(Rapid)
    else None
  }

  /** Every group is reached from exactly its own zone code. */
  lemma ZoneGroupInverse(g: Group)
    ensures ZoneGroup(ZoneCode(g)) == Some(g)
  {
  }

  /** Every case is reached from exactly its own label. */
  lemma WaterCaseInverse(c: Case)
    ensures WaterCase(WaterLabel(c)) == Some(c)
  {
  }

  /** The parameters of one soil layer: unit weight, undrained shear strength,
      Young's modulus, cohesion, friction angle, Poisson's ratio, void ratio,
      earth-pressure coefficient at rest, horizontal and vertical permeability. */
  datatype SoilLayer = SoilLayer(gamma: Dec, su: Dec, e: Dec, c: Dec, phi: Dec, nu: Dec,
                                 voidRatio: Dec, ko: Dec, kx: Dec, ky: Dec)

  /** The soft clay, stiff clay and sand layers of a zone. */
  datatype ZoneSoil = ZoneSoil(soft: SoilLayer, stiff: SoilLayer, sand: SoilLayer)

  function Int(i: int): Dec {
    Dec(i, 0)
  }

  const KSoft := Dec(864, 9)   // 8.64e-7
  const KStiff := Dec(864, 8)  // 8.64e-6
  const KSand := Dec(864, 4)     // 8.64e-2

  /** SOIL_TABLE[zone]: the parameters of zones ABC, D and EF; None otherwise. */
  function SoilTable(zone: string): (t: Option<ZoneSoil>)
    ensures t.Some? <==> ZoneGroup(zone).Some?
  {
    if zone == "ABC" then Some(ZoneSoil(
      SoilLayer(Int(20), Int(25), Int(10000), Int(0), Int(21), Dec(2, 1), Dec(14, 1), Int(1), KSoft, KSoft),
      SoilLayer(Dec(189, 1), Int(30), Int(30000), Int(0), Int(22), Dec(2, 1), Dec(13, 1), Dec(7, 1), KStiff, KStiff),
      SoilLayer(Int(20), Int(0), Int(80000), Dec(164, 1), Dec(3282, 2), Dec(2, 1), Dec(7, 1), Dec(5, 1), KSand, KSand)))
    else if zone == "D" then Some(ZoneSoil(
      SoilLayer(Dec(162, 1), Int(16), Int(8000), Int(0), Int(21), Dec(2, 1), Dec(1776, 3), Int(1), KSoft, KSoft),
      SoilLayer(Dec(168, 1), Int(30), Int(25000), Int(0), Int(22), Dec(2, 1), Dec(1345, 3), Dec(7, 1), KStiff, KStiff),
      SoilLayer(Int(20), Int(0), Int(80000), Dec(164, 1), Dec(3214, 2), Dec(2, 1), Dec(7, 1), Dec(5, 1), KSand, KSand)))
    else if zone == "EF" then Some(ZoneSoil(
      SoilLayer(Int(15), Int(11), Int(6000), Int(0), Int(21), Dec(2, 1), Dec(2525, 3), Int(1), KSoft, KSoft),
      SoilLayer(Int(16), Int(25), Int(20000), Int(0), Int(22), Dec(2, 1), Dec(2065, 3), Dec(7, 1), KStiff, KStiff),
      SoilLayer(Int(20), Int(0), Int(80000), Dec(164, 1), Dec(3214, 2), Dec(2, 1), Dec(7, 1), Dec(5, 1), KSand, KSand)))
    else None
  }
}
