/**
 * The driver instance, `Inky1608`: a fixed profile and waveform table, a
 * border colour that `set_border` changes, a framebuffer that `draw_iter`
 * writes in place, and the trace of everything sent to the GPIO lines and
 * the SPI bus, which `update` and its helpers extend.
 */
module Driver {
  import opened Base
  import opened Profile
  import opened Framebuffer
  import opened Transport
  import opened Refresh
  import Eeprom

  class Inky1608 {
    const profile: Profile
    const lut: seq<byte>
    var borderColour: Colour
    const framebuffer: array<bool>
    /** Every GPIO and SPI operation performed so far, oldest first. */
    var trace: seq<Event>

    ghost predicate Valid()
      reads this
    {
      && WellFormed(profile)
      && framebuffer.Length == Length(profile)
      && lut == GetLut(profile.colour)
      && borderColour != RedHt
    }

    /** The instance `new` builds once the profile is resolved: White border, the colour's LUT, every pixel off. */
    constructor (p: Profile)
      requires WellFormed(p)
      ensures Valid() && fresh(framebuffer)
      ensures profile == p && lut == GetLut(p.colour) && borderColour == White && trace == []
      ensures framebuffer[..] == seq(Length(p), _ => false)
    {
      profile := p;
      lut := GetLut(p.colour);
      borderColour := White;
      framebuffer := new bool[p.cols * p.rows](_ => false);
      trace := [];
    }

    /**
     * `Inky1608::new` given the decoded EEPROM: fails exactly as the profile
     * resolution does, and otherwise returns a fresh instance in its initial
     * state.
     */
    static method New(resolution: Option<(u16, u16)>, colour: Option<string>, eep: Eeprom.EepType)
      returns (r: Result<Inky1608, ConfigError>)
      ensures r.Err? <==> Resolve(resolution, colour, eep).Err?
      ensures r.Err? ==> r.error == Resolve(resolution, colour, eep).error
      ensures r.Ok? ==>
        && fresh(r.value) && fresh(r.value.framebuffer) && r.value.Valid()
        && r.value.profile == Resolve(resolution, colour, eep).value
        && r.value.borderColour == White && r.value.trace == []
        && r.value.framebuffer[..] == seq(Length(r.value.profile), _ => false)
    {
      match Resolve(resolution, colour, eep)
      case Err(e) =>
        return Err(e);
      case Ok(p) =>
        var inky := new Inky1608(p);
        return Ok(inky);
    }

    /** `size`: the user-facing size, which covers the framebuffer exactly. */
    function Size(): (r: (u16, u16))
      requires Valid()
      reads this
      ensures r.0 * r.1 == framebuffer.Length
      ensures QuarterTurn(profile.rotation) ==> r == (profile.rows, profile.cols)
    {
      (profile.rCols, profile.rRows)
    }

    /** `draw_iter`: write the pixels in order, in place; out-of-bounds points are skipped. */
    method DrawIter(pixels: seq<Pixel>) returns (outcome: DrawOutcome)
      requires Valid()
      modifies framebuffer
      ensures (framebuffer[..], outcome) == Draw(profile, old(framebuffer[..]), pixels)
    {
      var i := 0;
      while i < |pixels|
        invariant 0 <= i <= |pixels|
        invariant Draw(profile, framebuffer[..], pixels[i..]) == Draw(profile, old(framebuffer[..]), pixels)
      {
        var px := pixels[i];
        assert pixels[i..][0] == px && pixels[i..][1..] == pixels[i + 1..];
        if 0 <= px.x < profile.rCols && 0 <= px.y < profile.rRows {
          var offset := Offset(profile, px.x, px.y);
          if offset >= framebuffer.Length {
            return IndexPanic(offset);
          }
          framebuffer[offset] := px.on;
        }
        i := i + 1;
      }
      return Drawn;
    }

    /** The packing loop of `flush`: eight pixels per byte, shifted in MSB first, then inverted. */
    method PackFramebuffer() returns (planeA: seq<byte>)
      ensures planeA == Pack(framebuffer[..])
    {
      ghost var fb := framebuffer[..];
      planeA := [];
      var n := framebuffer.Length;
      var start := 0;
      assert fb[start..] == fb;
      while start < n
        invariant 0 <= start <= n
        invariant planeA + Pack(fb[start..]) == Pack(fb)
      {
        var end := if n - start < 8 then n else start + 8;
        var dest := ShiftChunk(start, end);
        PackFrom(planeA, fb, start);
        planeA := planeA + [0xFF - dest];
        start := end;
      }
      assert fb[start..] == [];
    }

    method ShiftChunk(start: nat, end: nat) returns (dest: nat)
      requires start <= end <= framebuffer.Length
      ensures dest == ChunkValue(framebuffer[start..end])
    {
      dest := 0;
      var j := start;
      while j < end
        invariant start <= j <= end
        invariant dest == ChunkValue(framebuffer[start..j])
      {
        ChunkValueStep(framebuffer[..], start, j);
        dest := if framebuffer[j] then 2 * dest + 1 else 2 * dest;
        j := j + 1;
      }
    }

    /** Append one GPIO or timing operation to the trace. */
    method Emit(e: Event)
      modifies this`trace
      ensures trace == old(trace) + [e]
    {
      trace := trace + [e];
    }

    /** `spi_write` (the Linux branch): set the data/command line, then write the data in chunks. */
    method SpiWrite(dc: bit, data: seq<byte>)
      modifies this`trace
      ensures trace == old(trace) + WriteEvents(dc, data)
    {
      ghost var t0 := trace;
      trace := trace + [SetDc(dc)];
      var start := 0;
      assert data[start..] == data;
      while start < |data|
        invariant 0 <= start <= |data|
        invariant trace + ChunkWrites(data[start..]) == t0 + WriteEvents(dc, data)
      {
        var end := if |data| - start < SPI_CHUNK_SIZE then |data| else start + SPI_CHUNK_SIZE;
        ChunkWritesFrom(trace, data, start);
        trace := trace + [Event.SpiWrite(data[start..end])];
        start := end;
      }
      assert data[start..] == [];
    }

    /** `send_command`: the opcode at command level, then the data, if any, at data level. */
    method SendCommand(opcode: byte, data: Option<seq<byte>>)
      modifies this`trace
      ensures trace == old(trace) + CommandEvents(Command(opcode, data))
    {
      SpiWrite(SPI_COMMAND, [opcode]);
      if data.Some? {
        SpiWrite(SPI_DATA, data.value);
      }
    }

    /** `busy_wait`: poll the busy line until it reads idle. */
    method BusyWait()
      modifies this`trace
      ensures trace == old(trace) + [Event.BusyWait]
    {
      trace := trace + [Event.BusyWait];
    }

    /** `setup`: the reset handshake and soft reset that precede every refresh. */
    method Setup()
      modifies this`trace
      ensures trace == old(trace) + Lower(SetupScript())
    {
      Perform(SetupScript());
    }

    /** Carry out the steps in order: each command through `send_command`, each signal on its own. */
    method Perform(steps: seq<Step>)
      modifies this`trace
      ensures trace == old(trace) + Lower(steps)
    {
      ghost var t0 := trace;
      var i := 0;
      while i < |steps|
        invariant 0 <= i <= |steps|
        invariant trace == t0 + Lower(steps[..i])
      {
        match steps[i] {
          case Send(c) => SendCommand(c.opcode, c.data);
          case Signal(e) =>
            if e.BusyWait? {
              BusyWait();
            } else {
              Emit(e);
            }
        }
        LowerExtend(t0, steps[..i], steps[i]);
        assert steps[..i + 1] == steps[..i] + [steps[i]];
        i := i + 1;
      }
      assert steps[..i] == steps;
    }

    /**
     * `update`: set up, then issue the register configuration (geometry,
     * waveform, border, RAM counters), both RAM planes, the optional busy
     * wait and the master activation.
     */
    method Update(bufA: seq<byte>, bufB: seq<byte>, busyWait: bool)
      requires Valid()
      modifies this`trace
      ensures trace == old(trace) + Lower(UpdateScript(profile, lut, borderColour, bufA, bufB, busyWait))
    {
      var border := borderColour;
      var configure, write := ConfigureScript(profile, lut, border), WriteScript(bufA, bufB, busyWait);
      ghost var t0 := trace;
      Setup();
      ghost var ts := trace;
      Perform(configure);
      ghost var tc := trace;
      Perform(write);
      UpdatePhases(t0, ts, tc, trace, profile, lut, border, bufA, bufB, busyWait);
    }

    /** `flush`: pack the framebuffer into plane A and refresh with `cols * rows` zero bytes as plane B. */
    method Flush()
      requires Valid()
      modifies this`trace
      ensures trace
        == old(trace) + Lower(UpdateScript(profile, lut, borderColour, Pack(framebuffer[..]), Zeros(Length(profile)), true))
    {
      var destvec := PackFramebuffer();
      Update(destvec, Zeros(profile.cols * profile.rows), true);
    }

    /** `set_border`: Black, White, Red and Yellow are stored; RedHt is ignored. */
    method SetBorder(c: Colour)
      requires Valid()
      modifies this`borderColour
      ensures Valid() && borderColour == NextBorder(old(borderColour), c)
    {
      borderColour := match c
        case Black => Black
        case White => White
        case Red => Red
        case Yellow => Yellow
        case _ => borderColour;
    }
  }
}
