/**
 * The refresh sequence as a script: `setup` (reset handshake and soft reset)
 * followed by the register configuration, the two RAM writes and the master
 * activation of `update`.  The driver class emits exactly the trace of this
 * script; the lemmas say what the controller receives from it.
 */
module Refresh {
  import opened Base
  import opened Profile
  import opened Transport
  import Framebuffer

  // Opcodes of the SSD1608 command set used by the driver.
  const DRIVER_CONTROL: byte := 0x01
  const DATA_MODE: byte := 0x11
  const SW_RESET: byte := 0x12
  const MASTER_ACTIVATE: byte := 0x20
  const WRITE_RAM: byte := 0x24
  const WRITE_ALTRAM: byte := 0x26
  const WRITE_VCOM: byte := 0x2C
  const WRITE_LUT: byte := 0x32
  const WRITE_DUMMY: byte := 0x3A
  const WRITE_GATELINE: byte := 0x3B
  const WRITE_BORDER: byte := 0x3C
  const SET_RAMXPOS: byte := 0x44
  const SET_RAMYPOS: byte := 0x45
  const SET_RAMXCOUNT: byte := 0x4E
  const SET_RAMYCOUNT: byte := 0x4F

  /** Hold times of the reset handshake, in microseconds. */
  const RESET_HOLD: nat := 500
  const SOFT_RESET_WAIT: nat := 1_000_000

  /**
   * `setup`: configure the three lines, command level on data/command, reset
   * high; pulse reset low then high with a hold after each edge; soft reset;
   * wait a second; wait for the busy line.
   */
  function SetupScript(): seq<Step> {
    ResetSteps() + [Send(Command(SW_RESET, None))] + SettleSteps()
  }

  /** The line configuration and the hardware reset pulse. */
  function ResetSteps(): seq<Step> {
    [ Signal(ConfigurePins), Signal(SetDc(0)), Signal(SetReset(1)),
      Signal(SetReset(0)), Signal(Sleep(RESET_HOLD)),
      Signal(SetReset(1)), Signal(Sleep(RESET_HOLD)) ]
  }

  /** The wait after the soft reset. */
  function SettleSteps(): seq<Step> {
    [ Signal(Sleep(SOFT_RESET_WAIT)), Signal(BusyWait) ]
  }

  /** `rows - 1` as two bytes, low byte first. */
  function PackedHeight(rows: u16): (r: seq<byte>)
    requires rows >= 1
    ensures |r| == 2 && r[0] as int + 0x100 * r[1] as int == rows - 1
  {
    [(rows - 1) % 0x100, (rows - 1) / 0x100]
  }

  /** The last RAM column address, `(cols / 8 - 1) as u8`: the cast keeps the low byte. */
  function RamXEnd(cols: u16): (r: byte)
    requires cols >= 8
    ensures cols < 0x808 ==> 8 * (r + 1) <= cols < 8 * (r + 2)
  {
    (cols / 8 - 1) % 0x100
  }

  /** The border command, present only when the border byte table has an entry. */
  function BorderSteps(border: Colour, colour: Colour): seq<Step> {
    match BorderByte(border, colour)
    case Some(b) => [Send(Command(WRITE_BORDER, Some([b])))]
    case None => []
  }

  /** The geometry, voltage and waveform registers `update` sets after the soft reset. */
  function RegisterSteps(p: Profile, lut: seq<byte>): seq<Step>
    requires WellFormed(p)
  {
    var height := PackedHeight(p.rows);
    [ Send(Command(DRIVER_CONTROL, Some(height + [0x00]))),
      Send(Command(WRITE_DUMMY, Some([0x1B]))),
      Send(Command(WRITE_GATELINE, Some([0x0B]))),
      Send(Command(DATA_MODE, Some([0x03]))),
      Send(Command(SET_RAMXPOS, Some([0x00, RamXEnd(p.cols)]))),
      Send(Command(SET_RAMYPOS, Some([0x00, 0x00] + height))),
      Send(Command(WRITE_VCOM, Some([0x70]))),
      Send(Command(WRITE_LUT, Some(lut))) ]
  }

  /** The RAM address counters, reset to the origin before the RAM writes. */
  function CounterSteps(): seq<Step> {
    [ Send(Command(SET_RAMXCOUNT, Some([0x00]))),
      Send(Command(SET_RAMYCOUNT, Some([0x00, 0x00]))) ]
  }

  /** The register configuration of `update`, between the soft reset and the RAM writes. */
  function ConfigureScript(p: Profile, lut: seq<byte>, border: Colour): seq<Step>
    requires WellFormed(p)
  {
    RegisterSteps(p, lut) + BorderSteps(border, p.colour) + CounterSteps()
  }

  /** The RAM writes and the activation of `update`. */
  function WriteScript(bufA: seq<byte>, bufB: seq<byte>, busyWait: bool): seq<Step> {
    [ Send(Command(WRITE_RAM, Some(bufA))), Send(Command(WRITE_ALTRAM, Some(bufB))) ]
    + (if busyWait then [Signal(BusyWait)] else [])
    + [ Send(Command(MASTER_ACTIVATE, None)) ]
  }

  /** `update(buf_a, buf_b, busy_wait)`. */
  function UpdateScript(p: Profile, lut: seq<byte>, border: Colour, bufA: seq<byte>, bufB: seq<byte>, busyWait: bool)
    : seq<Step>
    requires WellFormed(p)
  {
    SetupScript() + ConfigureScript(p, lut, border) + WriteScript(bufA, bufB, busyWait)
  }

  /** A trace that grows by the events of setup, configuration and write, in that order, grows by those of the update. */
  lemma {:induction false} UpdatePhases(
    t0: seq<Event>, ts: seq<Event>, tc: seq<Event>, tw: seq<Event>,
    p: Profile, lut: seq<byte>, border: Colour, bufA: seq<byte>, bufB: seq<byte>, busyWait: bool)
    requires WellFormed(p)
    requires ts == t0 + Lower(SetupScript())
    requires tc == ts + Lower(ConfigureScript(p, lut, border))
    requires tw == tc + Lower(WriteScript(bufA, bufB, busyWait))
    ensures tw == t0 + Lower(UpdateScript(p, lut, border, bufA, bufB, busyWait))
  {
    var setup, configure, write := SetupScript(), ConfigureScript(p, lut, border), WriteScript(bufA, bufB, busyWait);
    LowerAppend(setup, configure);
    LowerAppend(setup + configure, write);
    ConcatAssoc(t0, Lower(setup), Lower(configure));
    ConcatAssoc(t0, Lower(setup) + Lower(configure), Lower(write));
  }

  /** The border command as the controller latches it, if any. */
  function BorderReceived(border: Colour, colour: Colour): seq<Received> {
    match BorderByte(border, colour)
    case Some(b) => [Received(WRITE_BORDER, [b])]
    case None => []
  }

  lemma {:induction false} NoRawTransfersAppend(a: seq<Step>, b: seq<Step>)
    requires NoRawTransfers(a) && NoRawTransfers(b)
    ensures NoRawTransfers(a + b)
  {
    forall k | 0 <= k < |a + b| ensures !((a + b)[k].Signal? && (a + b)[k].event.SpiWrite?) {
      if k < |a| { assert (a + b)[k] == a[k]; } else { assert (a + b)[k] == b[k - |a|]; }
    }
  }

  /** A script of commands only is received command for command. */
  lemma {:induction false} CommandsOfSends(steps: seq<Step>)
    requires forall k :: 0 <= k < |steps| ==> steps[k].Send?
    ensures |Commands(steps)| == |steps|
    ensures forall k :: 0 <= k < |steps| ==> Commands(steps)[k] == ReceivedOf(steps[k].command)
    decreases |steps|
  {
    if steps != [] {
      var init := steps[..|steps| - 1];
      CommandsOfSends(init);
    }
  }

  /** A script of bare events only lowers to those events. */
  lemma {:induction false} LowerSignals(steps: seq<Step>)
    requires forall k :: 0 <= k < |steps| ==> steps[k].Signal?
    ensures Lower(steps) == seq(|steps|, k requires 0 <= k < |steps| => steps[k].event)
    ensures Commands(steps) == []
    decreases |steps|
  {
    if steps != [] {
      LowerSignals(steps[1..]);
      CommandsOfSignals(steps);
    }
  }

  lemma {:induction false} CommandsOfSignals(steps: seq<Step>)
    requires forall k :: 0 <= k < |steps| ==> steps[k].Signal?
    ensures Commands(steps) == []
    decreases |steps|
  {
    if steps != [] {
      CommandsOfSignals(steps[..|steps| - 1]);
    }
  }

  lemma {:induction false} SetupCommands()
    ensures Commands(SetupScript()) == [Received(SW_RESET, [])]
    ensures NoRawTransfers(SetupScript())
  {
    var before, reset, after := ResetSteps(), [Send(Command(SW_RESET, None))], SettleSteps();
    CommandsOfSignals(before);
    CommandsOfSignals(after);
    CommandsOfOne(Command(SW_RESET, None));
    CommandsAppend(before, reset);
    CommandsAppend(before + reset, after);
    assert NoRawTransfers(before) && NoRawTransfers(reset) && NoRawTransfers(after);
    NoRawTransfersAppend(before, reset);
    NoRawTransfersAppend(before + reset, after);
  }

  lemma {:induction false} CommandsOfOne(c: Command)
    ensures Commands([Send(c)]) == [ReceivedOf(c)]
  {
    assert [Send(c)][..0] == [];
  }

  lemma {:induction false} ConfigureCommands(p: Profile, lut: seq<byte>, border: Colour)
    requires WellFormed(p)
    ensures var height := PackedHeight(p.rows);
      Commands(ConfigureScript(p, lut, border))
      == [ Received(DRIVER_CONTROL, height + [0x00]),
           Received(WRITE_DUMMY, [0x1B]),
           Received(WRITE_GATELINE, [0x0B]),
           Received(DATA_MODE, [0x03]),
           Received(SET_RAMXPOS, [0x00, RamXEnd(p.cols)]),
           Received(SET_RAMYPOS, [0x00, 0x00] + height),
           Received(WRITE_VCOM, [0x70]),
           Received(WRITE_LUT, lut) ]
         + BorderReceived(border, p.colour)
         + [ Received(SET_RAMXCOUNT, [0x00]), Received(SET_RAMYCOUNT, [0x00, 0x00]) ]
    ensures NoRawTransfers(ConfigureScript(p, lut, border))
  {
    RegisterCommands(p, lut);
    BorderCommands(border, p.colour);
    CounterCommands();
    var registers, borderSteps := RegisterSteps(p, lut), BorderSteps(border, p.colour);
    CommandsAppend(registers, borderSteps);
    CommandsAppend(registers + borderSteps, CounterSteps());
    NoRawTransfersAppend(registers, borderSteps);
    NoRawTransfersAppend(registers + borderSteps, CounterSteps());
  }

  lemma {:induction false} RegisterCommands(p: Profile, lut: seq<byte>)
    requires WellFormed(p)
    ensures var height := PackedHeight(p.rows);
      Commands(RegisterSteps(p, lut))
      == [ Received(DRIVER_CONTROL, height + [0x00]),
           Received(WRITE_DUMMY, [0x1B]),
           Received(WRITE_GATELINE, [0x0B]),
           Received(DATA_MODE, [0x03]),
           Received(SET_RAMXPOS, [0x00, RamXEnd(p.cols)]),
           Received(SET_RAMYPOS, [0x00, 0x00] + height),
           Received(WRITE_VCOM, [0x70]),
           Received(WRITE_LUT, lut) ]
    ensures NoRawTransfers(RegisterSteps(p, lut))
  {
    CommandsOfSends(RegisterSteps(p, lut));
  }

  lemma {:induction false} BorderCommands(border: Colour, colour: Colour)
    ensures Commands(BorderSteps(border, colour)) == BorderReceived(border, colour)
    ensures NoRawTransfers(BorderSteps(border, colour))
  {
    match BorderByte(border, colour)
    case Some(b) => CommandsOfOne(Command(WRITE_BORDER, Some([b])));
    case None =>
  }

  lemma {:induction false} CounterCommands()
    ensures Commands(CounterSteps()) == [Received(SET_RAMXCOUNT, [0x00]), Received(SET_RAMYCOUNT, [0x00, 0x00])]
    ensures NoRawTransfers(CounterSteps())
  {
    CommandsOfSends(CounterSteps());
  }

  lemma {:induction false} WriteCommands(bufA: seq<byte>, bufB: seq<byte>, busyWait: bool)
    ensures Commands(WriteScript(bufA, bufB, busyWait))
      == [Received(WRITE_RAM, bufA), Received(WRITE_ALTRAM, bufB), Received(MASTER_ACTIVATE, [])]
    ensures NoRawTransfers(WriteScript(bufA, bufB, busyWait))
  {
    var rams := [ Send(Command(WRITE_RAM, Some(bufA))), Send(Command(WRITE_ALTRAM, Some(bufB))) ];
    var wait: seq<Step> := if busyWait then [Signal(BusyWait)] else [];
    var activate := [ Send(Command(MASTER_ACTIVATE, None)) ];
    assert WriteScript(bufA, bufB, busyWait) == rams + wait + activate;
    CommandsOfSends(rams);
    LowerSignals(wait);
    CommandsOfSends(activate);
    CommandsAppend(rams, wait);
    CommandsAppend(rams + wait, activate);
  }

  /**
   * The controller receives, from the trace of one `update`, exactly: soft
   * reset; gate setting with `rows - 1` low byte first and a zero; dummy line
   * period 0x1B; gate line width 0x0B; data entry mode 0x03; RAM X window
   * 0 to `cols / 8 - 1`; RAM Y window 0 to `rows - 1`; VCOM 0x70; the LUT;
   * the border command when the border table has one; RAM X and Y counters
   * at 0; plane A; plane B; master activation, with no parameters.
   */
  lemma {:induction false} UpdateReceived(p: Profile, lut: seq<byte>, border: Colour, bufA: seq<byte>, bufB: seq<byte>, busyWait: bool)
    requires WellFormed(p)
    ensures var height := PackedHeight(p.rows);
      Run(IDLE, Lower(UpdateScript(p, lut, border, bufA, bufB, busyWait))).received
      == [ Received(SW_RESET, []) ]
       + ( [ Received(DRIVER_CONTROL, height + [0x00]),
             Received(WRITE_DUMMY, [0x1B]),
             Received(WRITE_GATELINE, [0x0B]),
             Received(DATA_MODE, [0x03]),
             Received(SET_RAMXPOS, [0x00, RamXEnd(p.cols)]),
             Received(SET_RAMYPOS, [0x00, 0x00] + height),
             Received(WRITE_VCOM, [0x70]),
             Received(WRITE_LUT, lut) ]
         + BorderReceived(border, p.colour)
         + [ Received(SET_RAMXCOUNT, [0x00]), Received(SET_RAMYCOUNT, [0x00, 0x00]) ] )
       + [ Received(WRITE_RAM, bufA), Received(WRITE_ALTRAM, bufB), Received(MASTER_ACTIVATE, []) ]
  {
    var setup, configure, write := SetupScript(), ConfigureScript(p, lut, border), WriteScript(bufA, bufB, busyWait);
    SetupCommands();
    ConfigureCommands(p, lut, border);
    WriteCommands(bufA, bufB, busyWait);
    NoRawTransfersAppend(setup, configure);
    NoRawTransfersAppend(setup + configure, write);
    ScriptReceived(IDLE, setup + configure + write);
    CommandsAppend(setup, configure);
    CommandsAppend(setup + configure, write);
    assert IDLE.received == [];
  }

  /**
   * The trace of `update` opens with the reset handshake: reset is driven
   * low and then high, with a hold after each edge, before the first SPI
   * transfer, and that transfer is the soft-reset opcode at command level.
   */
  lemma {:induction false} UpdateStartsWithReset(p: Profile, lut: seq<byte>, border: Colour, bufA: seq<byte>, bufB: seq<byte>, busyWait: bool)
    requires WellFormed(p)
    ensures var trace := Lower(UpdateScript(p, lut, border, bufA, bufB, busyWait));
      |trace| >= 11
      && trace[..11] == [ConfigurePins, SetDc(0), SetReset(1), SetReset(0), Sleep(RESET_HOLD), SetReset(1), Sleep(RESET_HOLD)]
                         + [SetDc(SPI_COMMAND), SpiWrite([SW_RESET])]
                         + [Sleep(SOFT_RESET_WAIT), BusyWait]
  {
    var setup := SetupScript();
    var rest := ConfigureScript(p, lut, border) + WriteScript(bufA, bufB, busyWait);
    assert UpdateScript(p, lut, border, bufA, bufB, busyWait) == setup + rest;
    LowerAppend(setup, rest);
    SetupTrace();
  }

  lemma {:induction false} SetupTrace()
    ensures Lower(SetupScript())
         == [ConfigurePins, SetDc(0), SetReset(1), SetReset(0), Sleep(RESET_HOLD), SetReset(1), Sleep(RESET_HOLD)]
          + [SetDc(SPI_COMMAND), SpiWrite([SW_RESET])]
          + [Sleep(SOFT_RESET_WAIT), BusyWait]
  {
    var before, reset, after := ResetSteps(), [Send(Command(SW_RESET, None))], SettleSteps();
    ResetTrace();
    SettleTrace();
    SoftResetTrace();
    LowerAppend(before, reset);
    LowerAppend(before + reset, after);
  }

  lemma {:induction false} ResetTrace()
    ensures Lower(ResetSteps())
         == [ConfigurePins, SetDc(0), SetReset(1), SetReset(0), Sleep(RESET_HOLD), SetReset(1), Sleep(RESET_HOLD)]
  {
    LowerSignals(ResetSteps());
  }

  lemma {:induction false} SettleTrace()
    ensures Lower(SettleSteps()) == [Sleep(SOFT_RESET_WAIT), BusyWait]
  {
    LowerSignals(SettleSteps());
  }

  lemma {:induction false} SoftResetTrace()
    ensures Lower([Send(Command(SW_RESET, None))]) == [SetDc(SPI_COMMAND), SpiWrite([SW_RESET])]
  {
    var reset := [Send(Command(SW_RESET, None))];
    assert reset[1..] == [];
    var one: seq<byte> := [SW_RESET];
    assert one[..1] == one && one[1..] == [];
    assert ChunkWrites(one) == [SpiWrite(one)] + ChunkWrites([]);
  }

  /**
   * What `flush` hands to `update`: plane A is the packed framebuffer and
   * exactly fills the RAM window that the configuration opens (`cols / 8`
   * bytes per row, `rows` rows); plane B is `cols * rows` zero bytes, eight
   * times the window.
   */
  lemma {:induction false} FlushPlanes(p: Profile, fb: seq<bool>)
    requires WellFormed(p) && |fb| == Framebuffer.Length(p) && p.cols % 8 == 0 && p.cols < 0x808
    ensures |Framebuffer.Pack(fb)| == (RamXEnd(p.cols) + 1) * p.rows
    ensures |Framebuffer.Zeros(Framebuffer.Length(p))| == 8 * |Framebuffer.Pack(fb)|
  {
    var m := p.cols / 8;
    assert p.cols == 8 * m;
    assert RamXEnd(p.cols) + 1 == m;
    assert |fb| == 8 * (m * p.rows);
  }
}
