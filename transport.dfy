/**
 * The wire: every GPIO level change, sleep, busy wait and SPI transfer the
 * driver performs, as a trace of events.  `send_command` and `spi_write` are
 * given here as the events they produce; the class in module Driver appends
 * exactly these.  A model of the panel controller reads a trace back into
 * the commands it latches, which is how the framing is checked.
 */
module Transport {
  import opened Base

  /** Largest single SPI transfer `spi_write` issues. */
  const SPI_CHUNK_SIZE: nat := 4096

  /** Level of the data/command line for an opcode and for its parameters. */
  const SPI_COMMAND: bit := 0
  const SPI_DATA: bit := 1

  datatype Event =
    | ConfigurePins             // export and set the direction of the busy, data/command and reset lines
    | SetDc(level: bit)         // drive the data/command line
    | SetReset(level: bit)      // drive the reset line
    | Sleep(micros: nat)        // a timed hold
    | SpiWrite(bytes: seq<byte>)  // one SPI transfer
    | BusyWait                  // poll the busy line until it reads idle

  /**
   * The transfers of the chunk loop of `spi_write`: consecutive pieces of at
   * most `SPI_CHUNK_SIZE` bytes, none for empty data.
   */
  function ChunkWrites(data: seq<byte>): (r: seq<Event>)
    ensures forall i :: 0 <= i < |r| ==> r[i].SpiWrite? && 1 <= |r[i].bytes| <= SPI_CHUNK_SIZE
    ensures data == [] <==> r == []
    decreases |data|
  {
    if data == [] then []
    else
      var k := if |data| < SPI_CHUNK_SIZE then |data| else SPI_CHUNK_SIZE;
      [SpiWrite(data[..k])] + ChunkWrites(data[k..])
  }

  /** One step of the chunking loop: the chunk starting at `start` is followed by the chunks of the rest. */
  lemma {:induction false} ChunkWritesFrom(prefix: seq<Event>, data: seq<byte>, start: nat)
    requires start < |data|
    ensures var end := if |data| - start < SPI_CHUNK_SIZE then |data| else start + SPI_CHUNK_SIZE;
      (prefix + [SpiWrite(data[start..end])]) + ChunkWrites(data[end..]) == prefix + ChunkWrites(data[start..])
  {
    var end := if |data| - start < SPI_CHUNK_SIZE then |data| else start + SPI_CHUNK_SIZE;
    var rest := data[start..];
    assert rest[..end - start] == data[start..end] && rest[end - start..] == data[end..];
    assert ChunkWrites(rest) == [SpiWrite(data[start..end])] + ChunkWrites(data[end..]);
    ConcatAssoc(prefix, [SpiWrite(data[start..end])], ChunkWrites(data[end..]));
  }

  /** The bytes a trace puts on the SPI bus, in order. */
  function Payload(events: seq<Event>): seq<byte> {
    if events == [] then []
    else (if events[0].SpiWrite? then events[0].bytes else []) + Payload(events[1..])
  }

  lemma {:induction false} PayloadAppend(a: seq<Event>, b: seq<Event>)
    ensures Payload(a + b) == Payload(a) + Payload(b)
  {
    if a == [] {
      assert a + b == b;
    } else {
      assert (a + b)[0] == a[0];
      assert (a + b)[1..] == a[1..] + b;
      PayloadAppend(a[1..], b);
    }
  }

  /** The chunks, put back together, are the data. */
  lemma {:induction false} ChunkWritesPayload(data: seq<byte>)
    ensures Payload(ChunkWrites(data)) == data
    decreases |data|
  {
    if data != [] {
      var k := if |data| < SPI_CHUNK_SIZE then |data| else SPI_CHUNK_SIZE;
      PayloadAppend([SpiWrite(data[..k])], ChunkWrites(data[k..]));
      ChunkWritesPayload(data[k..]);
      assert data[..k] + data[k..] == data;
    }
  }

  /** `spi_write(dc, data)`: set the data/command line, then the chunked transfers. */
  function WriteEvents(dc: bit, data: seq<byte>): seq<Event> {
    [SetDc(dc)] + ChunkWrites(data)
  }

  /** A write first sets the data/command line, and its transfers carry exactly the data. */
  lemma {:induction false} WriteEventsFraming(dc: bit, data: seq<byte>)
    ensures var r := WriteEvents(dc, data); |r| > 0 && r[0] == SetDc(dc) && Payload(r) == data
  {
    ChunkWritesPayload(data);
    PayloadAppend([SetDc(dc)], ChunkWrites(data));
  }

  /** A command with its optional parameter bytes, as passed to `send_command`. */
  datatype Command = Command(opcode: byte, data: Option<seq<byte>>)

  /** `send_command`: the opcode as a command byte, then the parameters (if any) as data. */
  function CommandEvents(c: Command): seq<Event> {
    WriteEvents(SPI_COMMAND, [c.opcode]) + (if c.data.Some? then WriteEvents(SPI_DATA, c.data.value) else [])
  }

  /** A command starts at command level, and its transfers carry the opcode followed by the parameters. */
  lemma {:induction false} CommandEventsFraming(c: Command)
    ensures var r := CommandEvents(c); |r| > 0 && r[0] == SetDc(SPI_COMMAND) && Payload(r) == [c.opcode] + Params(c)
  {
    var opcode := WriteEvents(SPI_COMMAND, [c.opcode]);
    var params := if c.data.Some? then WriteEvents(SPI_DATA, c.data.value) else [];
    WriteEventsFraming(SPI_COMMAND, [c.opcode]);
    if c.data.Some? {
      WriteEventsFraming(SPI_DATA, c.data.value);
    }
    PayloadAppend(opcode, params);
  }

  /** A step of a refresh script: a command, or a GPIO/timing event on its own. */
  datatype Step = Send(command: Command) | Signal(event: Event)

  function StepEvents(s: Step): seq<Event> {
    match s
    case Send(c) => CommandEvents(c)
    case Signal(e) => [e]
  }

  /** The trace a script produces. */
  function Lower(steps: seq<Step>): seq<Event> {
    if steps == [] then [] else StepEvents(steps[0]) + Lower(steps[1..])
  }

  lemma {:induction false} LowerAppend(a: seq<Step>, b: seq<Step>)
    ensures Lower(a + b) == Lower(a) + Lower(b)
    decreases |a|
  {
    if a == [] {
      assert a + b == b;
    } else {
      assert (a + b)[0] == a[0];
      assert (a + b)[1..] == a[1..] + b;
      LowerAppend(a[1..], b);
    }
  }

  lemma {:induction false} LowerSnoc(steps: seq<Step>, s: Step)
    ensures Lower(steps + [s]) == Lower(steps) + StepEvents(s)
  {
    LowerAppend(steps, [s]);
    assert [s][1..] == [];
  }

  /** A trace that ends with the events of `done` goes on to end with those of `done + [s]` once `s` is performed. */
  lemma {:induction false} LowerExtend(t0: seq<Event>, done: seq<Step>, s: Step)
    ensures (t0 + Lower(done)) + StepEvents(s) == t0 + Lower(done + [s])
  {
    LowerSnoc(done, s);
    ConcatAssoc(t0, Lower(done), StepEvents(s));
  }

  // ---------------------------------------------------------------------------
  // The controller's side of the wire

  /** A command as the controller latches it: the opcode and the parameter bytes that followed it. */
  datatype Received = Received(opcode: byte, params: seq<byte>)

  /** The controller: the level it sees on the data/command line and the commands received so far. */
  datatype Controller = Controller(dc: bit, received: seq<Received>)

  const IDLE: Controller := Controller(SPI_COMMAND, [])

  /** A byte clocked in: with the line at command level it opens a new command, otherwise it extends the last. */
  function ClockByte(st: Controller, b: byte): Controller {
    if st.dc == SPI_COMMAND then st.(received := st.received + [Received(b, [])])
    else if st.received == [] then st
    else
      var last := st.received[|st.received| - 1];
      st.(received := st.received[..|st.received| - 1] + [last.(params := last.params + [b])])
  }

  function ClockIn(st: Controller, bytes: seq<byte>): Controller {
    if bytes == [] then st else ClockByte(ClockIn(st, bytes[..|bytes| - 1]), bytes[|bytes| - 1])
  }

  function Observe(st: Controller, e: Event): Controller {
    match e
    case SetDc(level) => st.(dc := level)
    case SpiWrite(bytes) => ClockIn(st, bytes)
    case _ => st
  }

  /** What the controller has received after a trace. */
  function Run(st: Controller, events: seq<Event>): Controller {
    if events == [] then st else Observe(Run(st, events[..|events| - 1]), events[|events| - 1])
  }

  lemma {:induction false} RunAppend(st: Controller, a: seq<Event>, b: seq<Event>)
    ensures Run(st, a + b) == Run(Run(st, a), b)
    decreases |b|
  {
    if b == [] {
      assert a + b == a;
    } else {
      var init := b[..|b| - 1];
      assert (a + b)[..|a + b| - 1] == a + init;
      RunAppend(st, a, init);
    }
  }

  lemma {:induction false} ClockInAppend(st: Controller, a: seq<byte>, b: seq<byte>)
    ensures ClockIn(st, a + b) == ClockIn(ClockIn(st, a), b)
    decreases |b|
  {
    if b == [] {
      assert a + b == a;
    } else {
      var init := b[..|b| - 1];
      assert (a + b)[..|a + b| - 1] == a + init;
      ClockInAppend(st, a, init);
    }
  }

  /** Data bytes extend the parameters of the last command and change nothing else. */
  lemma {:induction false} ClockInData(st: Controller, bytes: seq<byte>)
    requires st.dc == SPI_DATA && st.received != []
    ensures var n := |st.received|;
      ClockIn(st, bytes)
      == st.(received := st.received[..n - 1] + [st.received[n - 1].(params := st.received[n - 1].params + bytes)])
    decreases |bytes|
  {
    var n := |st.received|;
    var last := st.received[n - 1];
    if bytes == [] {
      assert last.params + bytes == last.params;
      assert st.received[..n - 1] + [last] == st.received;
    } else {
      var init, b := bytes[..|bytes| - 1], bytes[|bytes| - 1];
      ClockInData(st, init);
      var mid := ClockIn(st, init);
      assert mid.received[..n - 1] == st.received[..n - 1];
      assert mid.received[n - 1] == last.(params := last.params + init);
      assert last.params + init + [b] == last.params + bytes;
    }
  }

  /** The controller sees the chunk loop's transfers as the data itself. */
  lemma {:induction false} RunChunkWrites(st: Controller, data: seq<byte>)
    ensures Run(st, ChunkWrites(data)) == ClockIn(st, data)
    decreases |data|
  {
    if data != [] {
      var k := if |data| < SPI_CHUNK_SIZE then |data| else SPI_CHUNK_SIZE;
      var first := [SpiWrite(data[..k])];
      assert Run(st, first) == ClockIn(st, data[..k]) by {
        assert first[..0] == [];
      }
      RunAppend(st, first, ChunkWrites(data[k..]));
      RunChunkWrites(ClockIn(st, data[..k]), data[k..]);
      ClockInAppend(st, data[..k], data[k..]);
      assert data[..k] + data[k..] == data;
    }
  }

  lemma {:induction false} RunWrite(st: Controller, dc: bit, data: seq<byte>)
    ensures Run(st, WriteEvents(dc, data)) == ClockIn(st.(dc := dc), data)
  {
    var setDc := [SetDc(dc)];
    assert Run(st, setDc) == st.(dc := dc) by {
      assert setDc[..0] == [];
    }
    RunAppend(st, setDc, ChunkWrites(data));
    RunChunkWrites(st.(dc := dc), data);
  }

  /** The parameters the controller latches for a command: its data, or none. */
  function Params(c: Command): seq<byte> {
    if c.data.Some? then c.data.value else []
  }

  /** The command a `Send` step makes the controller latch. */
  function ReceivedOf(c: Command): Received {
    Received(c.opcode, Params(c))
  }

  /**
   * Whatever the line level before, `send_command` makes the controller
   * latch exactly one new command with the opcode and the whole payload,
   * however the payload was chunked.
   */
  lemma {:induction false} CommandReceived(st: Controller, c: Command)
    ensures Run(st, CommandEvents(c))
      == Controller(if c.data.Some? then SPI_DATA else SPI_COMMAND, st.received + [ReceivedOf(c)])
  {
    var head := WriteEvents(SPI_COMMAND, [c.opcode]);
    var afterOpcode := OpcodeReceived(st, c.opcode);
    if c.data.Some? {
      var tail := WriteEvents(SPI_DATA, c.data.value);
      assert CommandEvents(c) == head + tail;
      RunAppend(st, head, tail);
      RunWrite(afterOpcode, SPI_DATA, c.data.value);
      var dataPhase := afterOpcode.(dc := SPI_DATA);
      ClockInData(dataPhase, c.data.value);
      var n := |dataPhase.received|;
      assert dataPhase.received[..n - 1] == st.received;
      assert dataPhase.received[n - 1].params + c.data.value == c.data.value;
      assert Run(st, CommandEvents(c)) == ClockIn(dataPhase, c.data.value);
    } else {
      assert CommandEvents(c) == head;
    }
  }

  lemma {:induction false} OpcodeReceived(st: Controller, opcode: byte) returns (after: Controller)
    ensures after == Controller(SPI_COMMAND, st.received + [Received(opcode, [])])
    ensures Run(st, WriteEvents(SPI_COMMAND, [opcode])) == after
  {
    after := Controller(SPI_COMMAND, st.received + [Received(opcode, [])]);
    RunWrite(st, SPI_COMMAND, [opcode]);
    assert [opcode][..0] == [];
  }

  /** The commands of a script, in order, as the controller should latch them. */
  function Commands(steps: seq<Step>): seq<Received> {
    if steps == [] then []
    else
      var last := steps[|steps| - 1];
      Commands(steps[..|steps| - 1]) + (if last.Send? then [ReceivedOf(last.command)] else [])
  }

  lemma {:induction false} CommandsAppend(a: seq<Step>, b: seq<Step>)
    ensures Commands(a + b) == Commands(a) + Commands(b)
    decreases |b|
  {
    if b == [] {
      assert a + b == a;
    } else {
      assert (a + b)[..|a + b| - 1] == a + b[..|b| - 1];
      CommandsAppend(a, b[..|b| - 1]);
    }
  }

  /** A script whose bare events never transfer bytes themselves. */
  predicate NoRawTransfers(steps: seq<Step>) {
    forall k :: 0 <= k < |steps| ==> !(steps[k].Signal? && steps[k].event.SpiWrite?)
  }

  /** One step of a script adds exactly its own command, if it has one, to what the controller received. */
  lemma {:induction false} StepReceived(st: Controller, s: Step)
    requires !(s.Signal? && s.event.SpiWrite?)
    ensures Run(st, StepEvents(s)).received
      == st.received + (if s.Send? then [ReceivedOf(s.command)] else [])
  {
    match s
    case Send(c) =>
      CommandReceived(st, c);
    case Signal(e) =>
      assert Run(st, [e]) == Observe(Run(st, []), e) by { assert [e][..0] == []; }
  }

  /** The inductive step of `ScriptReceived`: what holds for a script carries over to it extended by one step. */
  lemma {:induction false} ScriptSnoc(st: Controller, init: seq<Step>, last: Step)
    requires !(last.Signal? && last.event.SpiWrite?)
    requires Run(st, Lower(init)).received == st.received + Commands(init)
    ensures Run(st, Lower(init + [last])).received == st.received + Commands(init + [last])
  {
    var own := if last.Send? then [ReceivedOf(last.command)] else [];
    LowerSnoc(init, last);
    RunAppend(st, Lower(init), StepEvents(last));
    StepReceived(Run(st, Lower(init)), last);
    assert (init + [last])[..|init + [last]| - 1] == init;
    assert Commands(init + [last]) == Commands(init) + own;
    ConcatAssoc(st.received, Commands(init), own);
  }

  /**
   * Framing is sound: from a trace produced by a script, the controller
   * recovers exactly the script's commands, in order, with their payloads.
   */
  lemma {:induction false} ScriptReceived(st: Controller, steps: seq<Step>)
    requires NoRawTransfers(steps)
    ensures Run(st, Lower(steps)).received == st.received + Commands(steps)
    decreases |steps|
  {
    if steps != [] {
      var init, last := steps[..|steps| - 1], steps[|steps| - 1];
      assert NoRawTransfers(init) by {
        forall k | 0 <= k < |init| ensures !(init[k].Signal? && init[k].event.SpiWrite?) {
          assert init[k] == steps[k];
        }
      }
      assert !(last.Signal? && last.event.SpiWrite?) by { assert steps[|steps| - 1] == last; }
      ScriptReceived(st, init);
      assert steps == init + [last];
      ScriptSnoc(st, init, last);
    }
  }
}
