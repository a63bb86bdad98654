/**
 * The pure part of `Inky1608::new`: the board gate, the resolution table, the
 * rotation of the user-facing size and the colour string, plus the waveform
 * table (`get_lut`) and the two border-colour rules (`set_border` and the
 * border byte written by `update`).
 */
module Profile {
  import opened Base
  import Eeprom

  /** `Colour`: the panel's colour modes, also used for the border colour. */
  datatype Colour = White | Black | Red | Yellow | RedHt

  /** One row of the resolution table: the controller's layout for a physical resolution. */
  datatype Geometry = Geometry(cols: u16, rows: u16, rotation: int, offsetX: u16, offsetY: u16)

  /** The fixed configuration of one driver instance. */
  datatype Profile = Profile(
    width: u16, height: u16,   // the physical resolution that was resolved
    cols: u16, rows: u16,      // controller RAM layout
    rCols: u16, rRows: u16,    // the size seen by drawing code, after rotation
    rotation: int, offsetX: u16, offsetY: u16,
    colour: Colour)

  /** Construction failures; the two marked "panic" abort the process in the source. */
  datatype ConfigError =
    | IncompatibleBoard      // panic: the display variant is not one this driver supports
    | InvalidResolution      // error "invalid resolution"
    | ColourCodeOutOfRange   // panic: the EEPROM colour code is past the end of the colour table
    | InvalidColour          // error "invalid colour"

  /** Display variants accepted by the board gate: the three SSD1608 pHATs. */
  const SUPPORTED_VARIANTS: set<int> := {10, 11, 12}

  /** The resolution table; it has a single row. */
  function GeometryFor(width: u16, height: u16): (r: Option<Geometry>)
    ensures r.Some? <==> width == 250 && height == 122
  {
    if (width, height) == (250, 122) then Some(Geometry(136, 250, -90, 0, 6)) else None
  }

  predicate QuarterTurn(rotation: int) {
    rotation == 90 || rotation == -90
  }

  /** The user-facing (columns, rows): a quarter turn swaps the controller's. */
  function RotatedSize(g: Geometry): (r: (u16, u16))
    ensures QuarterTurn(g.rotation) ==> r == (g.rows, g.cols)
    ensures !QuarterTurn(g.rotation) ==> r == (g.cols, g.rows)
  {
    match g.rotation
    case 90 => (g.rows, g.cols)
    case -90 => (g.rows, g.cols)
    case _ => (g.cols, g.rows)
  }

  /**
   * What every instance's profile satisfies: a rotation of the table's kind,
   * the user-facing size its rotation gives, a controller layout that the
   * `u16` arithmetic of the driver handles without overflow, and a colour the
   * colour string can name.
   */
  predicate WellFormed(p: Profile) {
    && p.rotation in {0, 90, -90, 180}
    && (p.rCols, p.rRows) == RotatedSize(Geometry(p.cols, p.rows, p.rotation, p.offsetX, p.offsetY))
    && 1 <= p.rows && 8 <= p.cols
    && p.cols * p.rows < 0x1_0000
    && p.colour in {Black, Red, Yellow}
  }

  /** The name `ident` prints for a colour mode. */
  function ColourString(c: Colour): string {
    match c
    case Black => "black"
    case Red => "red"
    case Yellow => "yellow"
    case _ => "unknown!!"
  }

  /** The colour string accepted by `new`; anything else is "invalid colour". */
  function ParseColour(s: string): (r: Result<Colour, ConfigError>)
    ensures r.Ok? <==> s in {"red", "black", "yellow"}
    ensures r.Ok? ==> r.value in {Black, Red, Yellow} && ColourString(r.value) == s
    ensures r.Err? ==> r.error == InvalidColour
  {
    match s
    case "red" => Ok(Red)
    case "black" => Ok(Black)
    case "yellow" => Ok(Yellow)
    case _ => Err(InvalidColour)
  }

  lemma {:induction false} ColourStringRoundTrip(c: Colour)
    requires c in {Black, Red, Yellow}
    ensures ParseColour(ColourString(c)) == Ok(c)
  {
    match c
    case Black =>
    case Red =>
    case Yellow =>
  }

  /** The requested resolution, or the EEPROM's when none is requested. */
  function ResolutionOf(resolution: Option<(u16, u16)>, eep: Eeprom.EepType): (u16, u16) {
    if resolution.Some? then resolution.value else (eep.width, eep.height)
  }

  /** The requested colour string, or the EEPROM colour code's name (`None` when the lookup panics). */
  function ColourNameOf(colour: Option<string>, eep: Eeprom.EepType): Option<string> {
    if colour.Some? then Some(colour.value) else eep.ColourName()
  }

  /**
   * `Inky1608::new` without its I/O: the board gate first, then the
   * resolution, then the colour, each failure ending construction.
   */
  function Resolve(resolution: Option<(u16, u16)>, colour: Option<string>, eep: Eeprom.EepType)
    : (r: Result<Profile, ConfigError>)
    ensures r == Err(IncompatibleBoard) <==> eep.displayVariant !in SUPPORTED_VARIANTS
    ensures r == Err(InvalidResolution) <==>
      eep.displayVariant in SUPPORTED_VARIANTS && ResolutionOf(resolution, eep) != (250, 122)
    ensures r.Ok? <==>
      && eep.displayVariant in SUPPORTED_VARIANTS
      && ResolutionOf(resolution, eep) == (250, 122)
      && ColourNameOf(colour, eep) in {Some("red"), Some("black"), Some("yellow")}
    ensures r == Err(ColourCodeOutOfRange) <==>
      && eep.displayVariant in SUPPORTED_VARIANTS
      && ResolutionOf(resolution, eep) == (250, 122)
      && ColourNameOf(colour, eep).None?
    ensures r == Err(InvalidColour) <==>
      && eep.displayVariant in SUPPORTED_VARIANTS
      && ResolutionOf(resolution, eep) == (250, 122)
      && ColourNameOf(colour, eep).Some?
      && ColourNameOf(colour, eep).value !in {"red", "black", "yellow"}
    ensures r.Ok? ==>
      && WellFormed(r.value)
      && (r.value.width, r.value.height) == ResolutionOf(resolution, eep)
      && (r.value.cols, r.value.rows, r.value.rotation, r.value.offsetX, r.value.offsetY) == (136, 250, -90, 0, 6)
      && (r.value.rCols, r.value.rRows) == (r.value.rows, r.value.cols)
      && Some(ColourString(r.value.colour)) == ColourNameOf(colour, eep)
  {
    if eep.displayVariant !in SUPPORTED_VARIANTS then Err(IncompatibleBoard)
    else
      var (w, h) := ResolutionOf(resolution, eep);
      match GeometryFor(w, h)
      case None => Err(InvalidResolution)
      case Some(g) =>
        var (rCols, rRows) := RotatedSize(g);
        match ColourNameOf(colour, eep)
        case None => Err(ColourCodeOutOfRange)
        case Some(name) =>
          match ParseColour(name)
          case Err(e) => Err(e)
          case Ok(c) => Ok(Profile(w, h, g.cols, g.rows, rCols, rRows, g.rotation, g.offsetX, g.offsetY, c))
  }

  /**
   * With no colour requested, the EEPROM colour code decides: codes 1, 2 and
   * 3 give Black, Red and Yellow, codes 0, 4 and 5 ("unknown", "7colour") are
   * an invalid colour, and codes from 6 up panic in the table lookup.
   */
  lemma {:induction false} DetectedColour(eep: Eeprom.EepType)
    requires eep.displayVariant in SUPPORTED_VARIANTS
    ensures var r := Resolve(Some((250, 122)), None, eep);
      && (r.Ok? <==> eep.colour in {1, 2, 3})
      && (eep.colour == 1 ==> r.Ok? && r.value.colour == Black)
      && (eep.colour == 2 ==> r.Ok? && r.value.colour == Red)
      && (eep.colour == 3 ==> r.Ok? && r.value.colour == Yellow)
      && (r == Err(InvalidColour) <==> eep.colour in {0, 4, 5})
      && (r == Err(ColourCodeOutOfRange) <==> eep.colour >= 6)
  {
  }

  /** The board gate accepts exactly the display variants the EEPROM table names as SSD1608 boards. */
  lemma {:induction false} GateIsSsd1608(eep: Eeprom.EepType)
    ensures eep.displayVariant in SUPPORTED_VARIANTS <==> eep.DisplayName() in SSD1608_NAMES
  {
  }

  const SSD1608_NAMES: set<Option<string>> :=
    {Some("Black pHAT (SSD1608)"), Some("Red pHAT (SSD1608)"), Some("Yellow pHAT (SSD1608)")}

  /** The construction scenarios of the source's own tests, as the code decides them. */
  lemma {:induction false} ConstructionScenarios(eep: Eeprom.EepType)
    requires eep.displayVariant in SUPPORTED_VARIANTS
    ensures Resolve(Some((27, 10)), Some("black"), eep) == Err(InvalidResolution)
    ensures Resolve(Some((212, 104)), Some("purple"), eep) == Err(InvalidResolution)
    ensures Resolve(Some((212, 104)), Some("black"), eep) == Err(InvalidResolution)
    ensures Resolve(Some((250, 122)), Some("purple"), eep) == Err(InvalidColour)
    ensures Resolve(Some((250, 122)), Some("black"), eep)
         == Ok(Profile(250, 122, 136, 250, 250, 136, -90, 0, 6, Black))
  {
  }

  /** A board whose EEPROM reads as all zeros (the mock device) is refused by the gate. */
  lemma {:induction false} MockBoardRejected(overflowChecks: bool, resolution: Option<(u16, u16)>, colour: Option<string>)
    ensures var d := Eeprom.Decode(seq(Eeprom.BLOCK_LENGTH, _ => 0), overflowChecks);
      d.Ok? && d.value.width == 0 && Resolve(resolution, colour, d.value) == Err(IncompatibleBoard)
  {
    Eeprom.MockBlockDecodesToZero(overflowChecks);
  }

  /** The waveform table every colour mode uses. */
  const WAVEFORM: seq<byte> := [
    0x02, 0x02, 0x01, 0x11, 0x12, 0x12, 0x22, 0x22, 0x66, 0x69,
    0x69, 0x59, 0x58, 0x99, 0x99, 0x88, 0x00, 0x00, 0x00, 0x00,
    0xF8, 0xB4, 0x13, 0x51, 0x35, 0x51, 0x51, 0x19, 0x01, 0x00
  ]

  /** `get_lut`: one 30-byte table per colour mode, Black's for any other; today all four are equal. */
  function GetLut(c: Colour): (r: seq<byte>)
    ensures |r| == 30 && r == WAVEFORM
  {
    match c
    case Black => [
      0x02, 0x02, 0x01, 0x11, 0x12, 0x12, 0x22, 0x22, 0x66, 0x69,
      0x69, 0x59, 0x58, 0x99, 0x99, 0x88, 0x00, 0x00, 0x00, 0x00,
      0xF8, 0xB4, 0x13, 0x51, 0x35, 0x51, 0x51, 0x19, 0x01, 0x00]
    case Red => [
      0x02, 0x02, 0x01, 0x11, 0x12, 0x12, 0x22, 0x22, 0x66, 0x69,
      0x69, 0x59, 0x58, 0x99, 0x99, 0x88, 0x00, 0x00, 0x00, 0x00,
      0xF8, 0xB4, 0x13, 0x51, 0x35, 0x51, 0x51, 0x19, 0x01, 0x00]
    case Yellow => [
      0x02, 0x02, 0x01, 0x11, 0x12, 0x12, 0x22, 0x22, 0x66, 0x69,
      0x69, 0x59, 0x58, 0x99, 0x99, 0x88, 0x00, 0x00, 0x00, 0x00,
      0xF8, 0xB4, 0x13, 0x51, 0x35, 0x51, 0x51, 0x19, 0x01, 0x00]
    case _ => [
      0x02, 0x02, 0x01, 0x11, 0x12, 0x12, 0x22, 0x22, 0x66, 0x69,
      0x69, 0x59, 0x58, 0x99, 0x99, 0x88, 0x00, 0x00, 0x00, 0x00,
      0xF8, 0xB4, 0x13, 0x51, 0x35, 0x51, 0x51, 0x19, 0x01, 0x00]
  }

  /**
   * The byte `update` writes with the border command, or `None` when it
   * writes no border command: Black and White always have one, Red and
   * Yellow only on a panel of that colour, and RedHt never.
   */
  function BorderByte(border: Colour, colour: Colour): (r: Option<byte>)
    ensures r == Some(0x00) <==> border == Black
    ensures r == Some(0x01) <==> border == White
    ensures r == Some(0x06) <==> border == Red && colour == Red
    ensures r == Some(0x0F) <==> border == Yellow && colour == Yellow
    ensures r.None? <==> border == RedHt || (border == Red && colour != Red) || (border == Yellow && colour != Yellow)
  {
    match border
    case Black => Some(0x00)
    case Red => if colour == Red then Some(0x06) else None
    case Yellow => if colour == Yellow then Some(0x0F) else None
    case White => Some(0x01)
    case _ => None
  }

  /** `set_border`: the four plain colours are stored, RedHt leaves the border as it was. */
  function NextBorder(current: Colour, requested: Colour): (r: Colour)
    ensures requested != RedHt ==> r == requested
    ensures requested == RedHt ==> r == current
  {
    match requested
    case Black => Black
    case White => White
    case Red => Red
    case Yellow => Yellow
    case _ => current
  }
}
