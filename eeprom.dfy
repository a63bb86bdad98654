/**
 * The identification EEPROM of the panel: a fixed-layout block read over I2C
 * (`EEPType::new`), two name tables and the human-readable description
 * (`impl Display for EEPType`).  The I2C transfer itself is not modelled: the
 * block it returns is an input.
 */
module Eeprom {
  import opened Base

  /** The decoded block, without the I2C handle the source keeps beside it. */
  datatype EepType = EepType(width: u16, height: u16, colour: byte, pcbVariant: byte, displayVariant: byte)
  {
    /** `colour_name`: index the colour table; an index past its end is a panic (`None`). */
    function ColourName(): (r: Option<string>)
      ensures r.Some? <==> colour < |VALID_COLOURS|
      ensures r.Some? ==> r.value in VALID_COLOURS && NoNewline(r.value)
      ensures r == Some("unknown") <==> colour == 0 || colour == 4
    {
      if colour < |VALID_COLOURS| then Some(VALID_COLOURS[colour]) else None
    }

    /** `display_name`: index the variant table, an empty entry reads "unknown"; past its end is a panic (`None`). */
    function DisplayName(): (r: Option<string>)
      ensures r.Some? <==> displayVariant < |DISPLAY_VARIANT|
      ensures r.Some? ==> NoNewline(r.value)
      ensures r == Some("unknown") <==> displayVariant in {0, 9, 13, 15}
    {
      if displayVariant < |DISPLAY_VARIANT| then
        match DISPLAY_VARIANT[displayVariant]
        case Some(n) => Some(n)
        case None => Some("unknown")
      else None
    }
  }

  /** Number of bytes requested from the EEPROM by the block read. */
  const BLOCK_LENGTH: nat := 29

  const VALID_COLOURS: seq<string> := ["unknown", "black", "red", "yellow", "unknown", "7colour"]

  const DISPLAY_VARIANT: seq<Option<string>> := [
    None,
    Some("Red pHAT (High-Temp)"),
    Some("Yellow wHAT"),
    Some("Black wHAT"),
    Some("Black pHAT"),
    Some("Yellow pHAT"),
    Some("Red wHAT"),
    Some("Red wHAT (High-Temp)"),
    Some("Red wHAT"),
    None,
    Some("Black pHAT (SSD1608)"),
    Some("Red pHAT (SSD1608)"),
    Some("Yellow pHAT (SSD1608)"),
    None,
    Some("7-Colour (UC8159)"),
    None,
    Some("7-Colour 640x400 (UC8159)")
  ]

  predicate NoNewline(s: string) {
    '\n' !in s
  }

  /** Which of the two geometry fields an arithmetic overflow happened in. */
  datatype Dimension = Width | Height

  /** The ways decoding stops; in the source both are panics. */
  datatype DecodeError =
    | IndexOutOfBounds(index: nat)   // the block returned is shorter than the layout
    | AddOverflow(dimension: Dimension)  // `u8` addition overflowed while overflow checks are on

  /** `b << 1` on a `u8`: the top bit is shifted out. */
  function ShiftLeft1(b: byte): (r: byte)
    ensures r == (2 * b) % 0x100
  {
    if b < 0x80 then 2 * b else 2 * b - 0x100
  }

  /**
   * `a + b` on `u8`.  With overflow checks on (debug builds) a sum above 255
   * panics (`None`); with them off (release builds) it wraps.
   */
  function AddU8(a: byte, b: byte, overflowChecks: bool): (r: Option<byte>)
    ensures r.None? <==> overflowChecks && a + b > 0xFF
    ensures r.Some? ==> r.value == (a + b) % 0x100
  {
    if a + b <= 0xFF then Some(a + b)
    else if overflowChecks then None
    else Some(a + b - 0x100)
  }

  /** Whether `lo + (hi << 1)` leaves the `u8` range. */
  predicate Overflows(lo: byte, hi: byte) {
    lo + ShiftLeft1(hi) > 0xFF
  }

  /**
   * `EEPType::new` after the block read: width from bytes 0 and 1, height
   * from bytes 2 and 3, each as `data[i] + (data[i + 1] << 1)` in `u8`
   * arithmetic and only then widened to `u16`; colour, PCB variant and display
   * variant are bytes 4, 5 and 6.  Fields are evaluated in that order, so the
   * first failing index or overflow is the one reported.
   */
  function Decode(data: seq<byte>, overflowChecks: bool): (r: Result<EepType, DecodeError>)
    ensures r.Ok? <==>
      |data| >= 7 && (overflowChecks ==> !Overflows(data[0], data[1]) && !Overflows(data[2], data[3]))
    ensures r.Ok? ==>
      && r.value.width == (data[0] as int + 2 * data[1] as int) % 0x100
      && r.value.height == (data[2] as int + 2 * data[3] as int) % 0x100
      && r.value.colour == data[4]
      && r.value.pcbVariant == data[5]
      && r.value.displayVariant == data[6]
    ensures r.Ok? ==> r.value.width <= 0xFF && r.value.height <= 0xFF
    ensures r.Err? && r.error.IndexOutOfBounds? ==> r.error.index == |data| < 7
  {
    if |data| < 2 then Err(IndexOutOfBounds(|data|))
    else
      match AddU8(data[0], ShiftLeft1(data[1]), overflowChecks)
      case None => Err(AddOverflow(Width))
      case Some(w) =>
        if |data| < 4 then Err(IndexOutOfBounds(|data|))
        else
          match AddU8(data[2], ShiftLeft1(data[3]), overflowChecks)
          case None => Err(AddOverflow(Height))
          case Some(h) =>
            if |data| < 7 then Err(IndexOutOfBounds(|data|))
            else Ok(EepType(w, h, data[4], data[5], data[6]))
  }

  /** The widths are not a little-endian 16-bit decode: bytes [0, 1] give 2, not 256. */
  lemma {:induction false} WidthIsNotLittleEndian(overflowChecks: bool)
    ensures var block := [0, 1, 0, 0, 0, 0, 10] + seq(22, _ => 0);
            Decode(block, overflowChecks) == Ok(EepType(2, 0, 0, 0, 10))
            && block[0] as int + 0x100 * block[1] as int == 256
  {
  }

  /** A block of zeros, as the mock I2C device returns, decodes to width 0 in either build. */
  lemma {:induction false} MockBlockDecodesToZero(overflowChecks: bool)
    ensures Decode(seq(BLOCK_LENGTH, _ => 0), overflowChecks) == Ok(EepType(0, 0, 0, 0, 0))
  {
  }

  /** Decimal rendering of a number, as `{}` formats an integer. */
  function DecimalString(n: nat): (r: string)
    ensures |r| >= 1 && forall i :: 0 <= i < |r| ==> '0' <= r[i] <= '9'
    ensures r[0] == '0' ==> n == 0
  {
    if n < 10 then [Digit(n)] else DecimalString(n / 10) + [Digit(n % 10)]
  }

  function Digit(d: nat): (c: char)
    requires d < 10
    ensures '0' <= c <= '9' && c as int - '0' as int == d
  {
    ('0' as int + d) as char
  }

  /** The number a string of decimal digits denotes, read most significant digit first. */
  function DecimalValue(s: string): nat
    requires forall i :: 0 <= i < |s| ==> '0' <= s[i] <= '9'
  {
    if s == [] then 0 else 10 * DecimalValue(s[..|s| - 1]) + (s[|s| - 1] as int - '0' as int)
  }

  lemma {:induction false} DecimalRoundTrip(n: nat)
    ensures DecimalValue(DecimalString(n)) == n
  {
    if n >= 10 {
      var init := DecimalString(n / 10);
      DecimalRoundTrip(n / 10);
      DecimalValueSnoc(init, n % 10);
    } else {
      DecimalValueSnoc([], n);
    }
  }

  lemma {:induction false} DecimalValueSnoc(init: string, d: nat)
    requires d < 10 && forall i :: 0 <= i < |init| ==> '0' <= init[i] <= '9'
    ensures var s := init + [Digit(d)];
      (forall i :: 0 <= i < |s| ==> '0' <= s[i] <= '9') && DecimalValue(s) == 10 * DecimalValue(init) + d
  {
    var s := init + [Digit(d)];
    assert s[..|s| - 1] == init;
  }

  /**
   * `impl Display for EEPType`: three lines, the display name, the geometry
   * and the colour name.  Either table lookup can panic (`None`).
   */
  function Describe(e: EepType): (r: Option<string>)
    ensures r.Some? <==> e.DisplayName().Some? && e.ColourName().Some?
  {
    match (e.DisplayName(), e.ColourName())
    case (Some(d), Some(c)) =>
      var geometry := "Display: " + DecimalString(e.width) + "x" + DecimalString(e.height);
      Some(d + "\n" + (geometry + "\n" + ("Colour: " + c)))
    case _ => None
  }

  /** The lines of a text, split at each newline. */
  function Lines(s: string): (r: seq<string>)
    ensures |r| >= 1
  {
    if s == [] then [""]
    else
      var rest := Lines(s[1..]);
      if s[0] == '\n' then [""] + rest else [[s[0]] + rest[0]] + rest[1..]
  }

  lemma {:induction false} LinesOfLine(a: string)
    requires NoNewline(a)
    ensures Lines(a) == [a]
  {
    if a != [] {
      assert NoNewline(a[1..]) by {
        forall c | c in a[1..] ensures c != '\n' { assert c in a; }
      }
      LinesOfLine(a[1..]);
      assert a[0] in a && a[0] != '\n';
      assert [a[0]] + a[1..] == a;
    }
  }

  lemma {:induction false} LinesSplit(a: string, b: string)
    requires NoNewline(a)
    ensures Lines(a + "\n" + b) == [a] + Lines(b)
  {
    if a == [] {
      assert a + "\n" + b == "\n" + b;
    } else {
      assert NoNewline(a[1..]) by {
        forall c | c in a[1..] ensures c != '\n' { assert c in a; }
      }
      LinesSplit(a[1..], b);
      assert (a + "\n" + b)[1..] == a[1..] + "\n" + b;
      assert a[0] in a;
      var t := a + "\n" + b;
      assert t[0] == a[0] != '\n';
      assert Lines(t) == [[t[0]] + Lines(t[1..])[0]] + Lines(t[1..])[1..];
      assert [a[0]] + a[1..] == a;
    }
  }

  lemma {:induction false} DigitsHaveNoNewline(n: nat)
    ensures NoNewline(DecimalString(n))
  {
  }

  /**
   * The description has exactly three lines: the display name, then
   * "Display: <width>x<height>" whose numbers read back as the decoded
   * geometry, then "Colour: <colour name>".
   */
  lemma {:induction false} DescribeLines(e: EepType)
    requires Describe(e).Some?
    ensures var lines := Lines(Describe(e).value);
      && lines == [e.DisplayName().value,
                   "Display: " + DecimalString(e.width) + "x" + DecimalString(e.height),
                   "Colour: " + e.ColourName().value]
      && DecimalValue(DecimalString(e.width)) == e.width
      && DecimalValue(DecimalString(e.height)) == e.height
  {
    var d, c := e.DisplayName().value, e.ColourName().value;
    var w, h := DecimalString(e.width), DecimalString(e.height);
    var geometry := "Display: " + w + "x" + h;
    var colourLine := "Colour: " + c;
    DigitsHaveNoNewline(e.width);
    DigitsHaveNoNewline(e.height);
    assert NoNewline(geometry);
    assert NoNewline(colourLine);
    assert Describe(e).value == d + "\n" + (geometry + "\n" + colourLine);
    LinesSplit(d, geometry + "\n" + colourLine);
    LinesSplit(geometry, colourLine);
    LinesOfLine(colourLine);
    DecimalRoundTrip(e.width);
    DecimalRoundTrip(e.height);
  }
}
