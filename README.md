# inky_ssd1608 in Dafny

A model of the core of `inky_ssd1608`. This is a Rust driver for the Pimoroni Inky pHAT e-paper boards built on the SSD1608 controller. The model covers:

- decoding the board's EEPROM block (`src/eeprom.rs`);
- building a driver instance: the board gate, the resolution table, rotation, colour and waveform table;
- drawing into the in-memory framebuffer, in place, through the rotation-aware offset;
- packing the framebuffer into the controller's RAM plane;
- the refresh sequence `update` sends over GPIO and SPI.

Modules:

- `Base` holds machine types (`byte`, `u16`, `bit`) and `Option`/`Result`.
- `Eeprom` is the pure decoder, with the two name tables and the `Display` text.
- `Profile` is the pure part of `Inky1608::new`, plus `get_lut` and the two border rules.
- `Framebuffer` gives functions that specify drawing and packing, and proves what they guarantee.
- `Transport` models the wire as a trace of events. `spi_write` produces the SPI chunking and `send_command` produces the command framing. A model of the controller decodes a trace back into the commands it latches.
- `Refresh` describes `setup` and `update` as scripts of commands and signals. It proves exactly what the controller receives.
- `Driver` holds the class `Inky1608`. Its framebuffer is an `array<bool>` written in place, its border colour is a mutable field, and its trace field is extended by every operation. Each method is proved against the functions above.

The source can fail in three ways, and the model makes each of them a value:

- Rust panics: the board gate, table lookups past the end, a short EEPROM block, and the framebuffer index one past the end. These become `Err`, `None` or `IndexPanic` results.
- Errors returned with `?` for an invalid resolution or colour. These become `Err` values.
- `u8` arithmetic in the EEPROM decoder. It either panics or wraps depending on the build's overflow checks. That choice is the `overflowChecks` parameter of `Eeprom.Decode`.

## Model

| member | source | states |
|---|---|---|
| `Eeprom.EepType.ColourName` | src/eeprom.rs:46-48 | defined exactly for colour codes below 6; the name is one of the table's entries and contains no newline; it is "unknown" exactly for codes 0 and 4 |
| `Eeprom.EepType.DisplayName` | src/eeprom.rs:50-55 | defined exactly for variants below 17; it contains no newline; it is "unknown" exactly for the empty entries 0, 9, 13 and 15 |
| `Eeprom.ShiftLeft1` | src/eeprom.rs:36-37 | `b << 1` on a `u8` is `2b mod 256`; the top bit is lost |
| `Eeprom.AddU8` | src/eeprom.rs:36-37 | `u8` addition fails exactly when overflow checks are on and the sum exceeds 255; otherwise the result is the sum mod 256 |
| `Eeprom.Decode` | src/eeprom.rs:32-44 | succeeds exactly when the block has at least 7 bytes and, with overflow checks on, neither geometry sum overflows. Width and height are `(d[i] + 2 d[i+1]) mod 256`, so both are at most 255. Colour, PCB variant and display variant are bytes 4, 5 and 6. A short block reports the first index out of range |
| `Eeprom.WidthIsNotLittleEndian` | src/eeprom.rs:36 | bytes `[0, 1]` decode to width 2, not the little-endian 256 |
| `Eeprom.MockBlockDecodesToZero` | src/eeprom.rs:94-100 | the all-zero block of the mock device decodes to width 0, height 0 and all codes 0 |
| `Eeprom.DecimalString` | src/eeprom.rs:23 | `{}` of an integer is a non-empty string of decimal digits, with no leading zero except for 0 itself |
| `Eeprom.DecimalRoundTrip` | src/eeprom.rs:23 | reading the decimal string back gives the number |
| `Eeprom.Describe` | src/eeprom.rs:22-24 | the text exists exactly when both table lookups succeed |
| `Eeprom.DescribeLines` | src/eeprom.rs:22-24 | the text has exactly three lines: the display name, `Display: <w>x<h>` whose numbers read back as width and height, and `Colour: <name>` |
| `Profile.GeometryFor` | src/lib.rs:123-126 | the resolution table has a row exactly for (250, 122) |
| `Profile.RotatedSize` | src/lib.rs:128-131 | a ±90° rotation swaps columns and rows; any other rotation keeps them |
| `Profile.ParseColour` | src/lib.rs:138-143 | accepts exactly "red", "black" and "yellow", giving the colour whose name is that string; anything else is an invalid colour |
| `Profile.ColourStringRoundTrip` | src/lib.rs:138-143 | parsing the name of each of the three panel colours gives that colour back |
| `Profile.ResolutionOf` | src/lib.rs:118-121 | reference definition, no contract of its own: the requested resolution, else the EEPROM's. `Profile.Resolve` states the resolution outcome in its terms |
| `Profile.ColourNameOf` | src/lib.rs:133-136 | reference definition, no contract of its own: the requested colour name, else the EEPROM's table name, absent past the table. `Profile.Resolve` and `Profile.DetectedColour` characterise it |
| `Profile.Resolve` | src/lib.rs:113-143 | the board gate fails exactly for variants outside {10, 11, 12}. Past the gate, the resolution fails exactly when the requested resolution (or the EEPROM's, when none is requested) is not (250, 122). Past the resolution, an EEPROM colour code from 6 up (with no colour requested) is `ColourCodeOutOfRange`, and any colour name other than red, black or yellow is `InvalidColour`; both directions are stated. Success needs in addition a colour name of red, black or yellow. A successful profile is well formed: 136×250, rotation −90, offsets (0, 6), user-facing size 250×136, colour named by the string |
| `Profile.DetectedColour` | src/lib.rs:133-143 | with no colour requested, EEPROM codes 1, 2 and 3 give Black, Red and Yellow; codes 0, 4 and 5 are an invalid colour; codes from 6 up panic |
| `Profile.GateIsSsd1608` | src/lib.rs:113-116 | the gate accepts exactly the variants whose EEPROM table names are the three SSD1608 pHATs |
| `Profile.ConstructionScenarios` | src/lib.rs:390-409 | the constructions of the source's tests, decided as the code decides them: (27, 10) and (212, 104) are invalid resolutions, "purple" at (250, 122) is an invalid colour, and "black" at (250, 122) gives the full profile |
| `Profile.MockBoardRejected` | src/lib.rs:111-116 | an EEPROM that reads all zeros decodes, then fails the board gate whatever is requested |
| `Profile.GetLut` | src/lib.rs:334-357 | every colour mode gets the same 30-byte waveform table |
| `Profile.BorderByte` | src/lib.rs:235-241 | Black gives 0x00 and White gives 0x01, always. Red gives 0x06 only on a red panel, and Yellow gives 0x0F only on a yellow panel. No border byte otherwise: RedHt, or Red/Yellow on a panel of another colour |
| `Profile.NextBorder` | src/lib.rs:301-309 | the four plain colours are stored; RedHt keeps the current border |
| `Framebuffer.Offset` | src/lib.rs:369-372 | the cell of an in-bounds point never exceeds `cols*rows`, so the `u16` arithmetic cannot overflow. On a ±90° panel it lies in `[x*cols+1, x*cols+cols]` and equals `cols*rows` exactly at `(r_cols-1, 0)`. Otherwise it is below `cols*rows` |
| `Framebuffer.CorrectedOffset` | src/lib.rs:370 | the intended mapping `x*cols + (cols-1-y)` always lands inside the buffer |
| `Framebuffer.CorrectedOffsetInjective` | src/lib.rs:370 | the intended mapping sends distinct points to distinct cells |
| `Framebuffer.CorrectedOffsetSurjective` | src/lib.rs:370 | every cell is the image of some in-bounds point under the intended mapping |
| `Framebuffer.OffsetPastEnd` | src/lib.rs:370-373 | on the (250, 122) panel the in-bounds point (249, 0) maps to 34000, the buffer length; the intended mapping gives the last cell |
| `Framebuffer.DrawPixel` | src/lib.rs:368-374 | an out-of-bounds point changes nothing. A point that maps one past the end panics and changes nothing. Any other point sets exactly its own cell to the pixel's state, and every other cell is unchanged |
| `Framebuffer.Draw` | src/lib.rs:367-375 | the buffer keeps its length. It is the reference definition of the pixel loop, stopping at the first panic; `DrawPanicsIff`, `DrawOutsideUnchanged`, `DrawSnoc` and `DrawIsLastWrite` characterise it |
| `Framebuffer.DrawPanicsIff` | src/lib.rs:367-375 | drawing completes exactly when no pixel maps one past the end; a panic reports index `cols*rows` |
| `Framebuffer.DrawOutsideUnchanged` | src/lib.rs:368 | pixels that are all out of bounds leave the buffer as it was |
| `Framebuffer.DrawSnoc` | src/lib.rs:367-375 | the pixels are drawn in order: drawing one more pixel is one more `DrawPixel` step |
| `Framebuffer.DrawIsLastWrite` | src/lib.rs:367-375 | when drawing completes, every cell holds the state of the last in-bounds pixel mapped to it, or its old state if none was |
| `Framebuffer.ChunkValue` | src/lib.rs:265-272 | the shift loop's value for a chunk of `k` pixels is below `2^k`, so a chunk of eight fits a byte |
| `Framebuffer.Pack` | src/lib.rs:263-274 | the packed plane has `ceil(len/8)` bytes |
| `Framebuffer.PackBit` | src/lib.rs:264-273 | pixel `i` lands in byte `i/8`, most significant first within its chunk, inverted: an on pixel reads 0. In a short last chunk of `k` pixels they fill the low `k` bits |
| `Framebuffer.PackPadding` | src/lib.rs:264-273 | the bits of a short last chunk that no pixel fills read 1 |
| `Framebuffer.Unpack` | src/lib.rs:263-274 | reading a plane of `ceil(n/8)` bytes back gives `n` pixels |
| `Framebuffer.UnpackPack` | src/lib.rs:263-274 | packing loses nothing: the plane reads back as the framebuffer |
| `Framebuffer.DrawThenPack` | src/lib.rs:263-274 | after drawing one in-bounds pixel, its bit in the packed plane is the inverse of its state |
| `Framebuffer.Zeros` | src/lib.rs:275 | plane B is `n` zero bytes |
| `Transport.ChunkWrites` | src/lib.rs:324-326 | each transfer of the chunk loop holds between 1 and 4096 bytes; there are none exactly when the data is empty |
| `Transport.ChunkWritesPayload` | src/lib.rs:324-326 | the chunks concatenate back to the data |
| `Transport.WriteEvents` | src/lib.rs:321-331 | reference definition of the Linux branch of `spi_write`: the level event, then the chunk transfers. Characterised by `WriteEventsFraming` and `RunWrite` |
| `Transport.WriteEventsFraming` | src/lib.rs:321-331 | a write first sets the data/command line, and its transfers carry exactly the data |
| `Transport.RunChunkWrites` | src/lib.rs:324-326 | the controller sees the chunked transfers as the data itself |
| `Transport.RunWrite` | src/lib.rs:321-331 | `spi_write` sets the line level the controller then clocks the data at |
| `Transport.CommandEvents` | src/lib.rs:287-293 | reference definition of `send_command`: a command-level write of the opcode, then a data-level write of the data if present. Characterised by `CommandEventsFraming` and `CommandReceived` |
| `Transport.CommandEventsFraming` | src/lib.rs:287-293 | the command starts at command level, and its transfers carry the opcode followed by the data (nothing more when there is none) |
| `Transport.CommandReceived` | src/lib.rs:287-293 | whatever the line level before, `send_command` makes the controller latch exactly one new command: the opcode with the whole payload, or with none when there is no data |
| `Transport.ScriptReceived` | src/lib.rs:287-293 | from the trace of any sequence of commands and non-transfer signals, the controller recovers exactly those commands, in order, with their payloads |
| `Refresh.PackedHeight` | src/lib.rs:215 | `rows - 1` as two bytes, low byte first |
| `Refresh.RamXEnd` | src/lib.rs:225 | the last RAM column address `(cols/8 - 1) as u8` covers the row: `8(e+1) <= cols < 8(e+2)` whenever the cast keeps the value (`cols` below 0x808) |
| `Refresh.SetupScript` | src/lib.rs:185-209 | reference definition of `setup`: the reset steps, the soft reset, the settle steps. `SetupCommands` and `SetupTrace` characterise it |
| `Refresh.ResetSteps` | src/lib.rs:186-204 | reference definition of the line configuration and reset pulse; `ResetTrace` states its events |
| `Refresh.SettleSteps` | src/lib.rs:206-208 | reference definition of the one-second wait and busy wait after the soft reset; `SettleTrace` states its events |
| `Refresh.ResetTrace` | src/lib.rs:186-204 | the events are: configure the lines, data/command low, reset high, reset low, a 500 µs hold, reset high, a 500 µs hold |
| `Refresh.SettleTrace` | src/lib.rs:206-208 | the events are a one-second sleep and then a busy wait |
| `Refresh.SetupCommands` | src/lib.rs:185-209 | `setup` sends exactly one command, the soft reset 0x12 with no data |
| `Refresh.SetupTrace` | src/lib.rs:185-209 | the trace of `setup`: configure the lines; data/command low; reset high, low then high, with a hold after each edge; opcode 0x12; one-second wait; busy wait |
| `Refresh.RegisterSteps` | src/lib.rs:215-233 | reference definition of the eight register commands; `RegisterCommands` states what the controller latches from them |
| `Refresh.BorderSteps` | src/lib.rs:235-241 | reference definition of the optional border command; `BorderCommands` characterises it |
| `Refresh.CounterSteps` | src/lib.rs:243-245 | reference definition of the two counter commands; `CounterCommands` characterises it |
| `Refresh.ConfigureScript` | src/lib.rs:215-245 | reference definition: registers, border, counters in that order; `ConfigureCommands` characterises it |
| `Refresh.WriteScript` | src/lib.rs:247-255 | reference definition of the RAM writes, the optional busy wait and the activation; `WriteCommands` characterises it |
| `Refresh.UpdateScript` | src/lib.rs:212-257 | reference definition of `update`: setup, configuration, writes. `UpdateReceived` and `UpdateStartsWithReset` characterise it |
| `Refresh.UpdatePhases` | src/lib.rs:212-257 | a trace extended by the events of setup, then configuration, then the writes has been extended by exactly the events of `update` |
| `Refresh.RegisterCommands` | src/lib.rs:215-233 | the eight register commands and their payloads, in order |
| `Refresh.BorderCommands` | src/lib.rs:235-241 | the border command is sent exactly when the border byte table has an entry, with that byte |
| `Refresh.CounterCommands` | src/lib.rs:243-245 | the RAM X and Y counters are set to 0 |
| `Refresh.WriteCommands` | src/lib.rs:247-255 | plane A to 0x24, plane B to 0x26, then 0x20 with no data; the busy wait adds no command |
| `Refresh.ConfigureCommands` | src/lib.rs:215-245 | the configuration `update` sends between the soft reset and the RAM writes, command for command |
| `Refresh.UpdateReceived` | src/lib.rs:212-257 | the controller receives exactly, in order: soft reset, the eight register commands, the optional border command, the two counters, plane A, plane B, and master activation |
| `Refresh.UpdateStartsWithReset` | src/lib.rs:200-208 | every refresh trace opens with the reset handshake, and the first SPI transfer is the soft-reset opcode at command level |
| `Refresh.FlushPlanes` | src/lib.rs:263-275 | for a panel whose width is a multiple of 8, plane A exactly fills the RAM window (`cols/8` bytes × `rows`); plane B is eight times as long |
| `Driver.Inky1608.constructor` | src/lib.rs:159-181 | the initial instance: the given profile, the colour's LUT, a White border, an empty trace and `cols*rows` cells all off |
| `Driver.Inky1608.New` | src/lib.rs:92-183 | fails exactly when, and with the error that, profile resolution does; otherwise returns a fresh instance in its initial state |
| `Driver.Inky1608.Size` | src/lib.rs:381-383 | the user-facing size covers the framebuffer exactly; on a ±90° panel it is (rows, cols) |
| `Driver.Inky1608.DrawIter` | src/lib.rs:363-377 | the in-place loop leaves the buffer and outcome that `Draw` specifies for the old buffer |
| `Driver.Inky1608.PackFramebuffer` | src/lib.rs:263-274 | the nested loops build exactly `Pack` of the framebuffer; nothing is modified, so packing twice gives the same bytes |
| `Driver.Inky1608.ShiftChunk` | src/lib.rs:265-272 | the inner shift loop computes the chunk's value |
| `Driver.Inky1608.Emit` | src/lib.rs:193-207 | one GPIO level change or hold is appended to the trace |
| `Driver.Inky1608.SpiWrite` | src/lib.rs:321-331 | the trace is extended by the data/command level and then exactly the chunk transfers |
| `Driver.Inky1608.SendCommand` | src/lib.rs:287-293 | the trace is extended by the opcode at command level, then the data (if any) at data level |
| `Driver.Inky1608.BusyWait` | src/lib.rs:279-285 | one busy wait is appended |
| `Driver.Inky1608.Setup` | src/lib.rs:185-209 | the trace is extended by exactly the setup script's events |
| `Driver.Inky1608.Perform` | src/lib.rs:213-255 | performing a script in order extends the trace by exactly its events |
| `Driver.Inky1608.Update` | src/lib.rs:212-257 | the trace is extended by exactly the refresh script for this instance's profile, LUT and border; `Refresh.UpdateReceived` says what the controller takes from it |
| `Driver.Inky1608.Flush` | src/lib.rs:260-277 | `update` with the packed framebuffer as plane A, `cols*rows` zero bytes as plane B, and the busy wait |
| `Driver.Inky1608.SetBorder` | src/lib.rs:301-309 | the border becomes `NextBorder` of the old border, and the instance stays valid |

## Left out

- I/O is not modelled. This covers opening the I2C device and the SMBus block read (`Eeprom.Decode` takes the block as input), opening and configuring Spidev, and the GPIO export and direction calls. `ConfigurePins` stands for all the export and direction calls of src/lib.rs:186-197. The source interleaves them with the first two level changes (data/command low, reset high); the model places the single event before the first level change. The levels and SPI traffic the controller sees are the same.
- Timing is not modelled. Sleeps are trace events carrying their duration. `busy_wait` is one event; the model says nothing about how long it polls or whether it ends.
- Transport errors are not modelled: every GPIO and SPI call succeeds. So the `?` early returns of `setup`, `update` and `send_command` never fire.
- The non-Linux branch of `spi_write` depends on the build target. It writes the data in one transfer and is not modelled.
- `ident` only prints to the console. Only its colour names appear, as `Profile.ColourString`, the partner of `ParseColour`.
- `send_data` is not modelled; nothing in the core calls it.
- The `h_flip` and `v_flip` fields are stored but never read, and are not modelled. Nor are `cs_channel`, the pin numbers, or the stored `width`/`height` beyond the resolved resolution.
- The embedded_graphics traits are not modelled. `draw_iter` takes a sequence of `(x, y, on)` pixels, and `size` returns a pair.
- The `new` test at src/lib.rs:403-409 expects (212, 104) to resolve to 104×212. The resolution table has no such row, so the model follows the code: `ConstructionScenarios` states that this is an invalid resolution.
- The `bad_colour` test passes (212, 104), so it fails on the resolution before the colour is examined. `ConstructionScenarios` states the colour failure at (250, 122) instead.
- Plane B, which `flush` sends, is `cols*rows` bytes, eight times the length of plane A. The model keeps that length (`Refresh.FlushPlanes`).
- `Driver.Inky1608.Update` and `Setup` issue their commands by walking the script with `Perform`, rather than through one call per command as the source does. The trace they produce is the same.
- `Eeprom.EepType.DisplayName` and `ColourName` return `None` where the source's table index panics. `Profile.Resolve` reports that panic as `ColourCodeOutOfRange`, and the board gate's panic as `IncompatibleBoard`.

## Findings

| source | as written | input that shows it | evidently intended | confidence | as-written member | corrected member |
|---|---|---|---|---|---|---|
| src/lib.rs:370 | on a ±90° panel the cell is `x*cols + (cols - y)`, which ranges over `[x*cols+1, x*cols+cols]`; the index at src/lib.rs:373 then reaches `cols*rows` | the (250, 122) panel, point (249, 0): offset 34000 = `cols*rows`, one past the end, so `draw_iter` panics; and since every offset is at least 1, cell 0 is never written | `x*cols + (cols - 1 - y)`, a bijection from the user-facing points onto the cells | not executed | `Framebuffer.OffsetPastEnd` | `Framebuffer.CorrectedOffsetInjective` |

The driver class keeps the formula as written, so the panic stays visible as `IndexPanic` (`Framebuffer.DrawPanicsIff`). `Framebuffer.CorrectedOffset` is the intended mapping. It is proved to stay inside the buffer, to be injective (`CorrectedOffsetInjective`) and to be onto every cell (`CorrectedOffsetSurjective`).
