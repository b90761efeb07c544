# HD44780 over PCF8574: a verified model of the framing logic

This project models the part of `I2C_LCD.c` that turns LCD operations into
bytes on the I2C bus. The display is a 16x2 HD44780 character LCD. It sits
behind a PCF8574 8-bit I/O expander at address 0x27.
Expander bits 7..4 drive data lines D7..D4. Bits 3..0 are the control lines:
register select `0x01`, read/write `0x02`, enable `0x04` and backlight `0x08`.

The model has five modules:

- `Pcf8574` holds the control masks and the `Bus` class. The bus state
  is its trace, a `seq<Event>`: each write of one byte
  (`Write(b)`) and each sleep (`Delay(us)`), in order. `Bus.WriteByte` is
  the only operation that puts a byte on the bus. It is always followed by
  the 100 µs settle delay. `Written(trace)` is the byte view of the trace.
- `Hd44780` defines the 4-bit encoding of one transfer (`OpEvents`): the
  high nibble, then the low nibble, each sent as an enable-set byte followed
  by the same byte with enable cleared. It also defines the encoding's
  partner, the controller's side:
  - a byte stream is `Framed` when it is a run of well-formed enable pulses;
  - each pulse latches RS and a nibble (`Latches`);
  - pairs of latches are joined back into commands and characters
    (`Assemble`).
  The round-trip lemmas show that the controller reads back exactly the
  transfers the driver sent.
- `ColdStart` defines the driver's cold start as a trace: three 0x3 reset
  nibbles, one 0x2 mode nibble, then the commands 0x28, 0x0C, 0x01 and
  0x06. This is the driver's variant of the "initializing by instruction"
  procedure for a 4-bit interface in the Hitachi HD44780U datasheet: it
  sends display on (0x0C) where that procedure turns the display off. The
  model follows the driver.
- `LineRenderer` gives, as a whole rather than as a loop, the transfers
  that one line of text produces (`RenderOps`). Non-printable bytes become a
  space. After sixteen characters the renderer jumps to row two with
  command 0xC0. A space found at that boundary is skipped.
- `LcdDriver` has one method per C function (`SendCommand`, `SendChar`,
  `InitSequence`, `SendString`). Each is proved to append to the bus
  exactly the events its specification function names.

The text given to `SendString` is a `seq<bv8>` with no NUL byte.
`LineRenderer.CharAt` reads it the way the C pointer reads a
NUL-terminated string.

One input makes the C loop misbehave: seventeen characters whose last one
is a space. At `I2C_LCD.c:92-95` the loop skips the space, which leaves the
pointer on the terminator. It then writes the terminator as a blank, since
the terminator is not printable. At `I2C_LCD.c:112` it advances the pointer
past the terminator, and the next test of the loop reads memory beyond the
string. The model follows the code up to that blank write, then stops and
returns `overrun = true` (`LineRenderer.Overruns`). `LineRenderer.RenderOverrun`
states what was written up to that point. Every other input ends at the
terminator with `overrun = false`.

## Model

| member | source | states |
|---|---|---|
| `Pcf8574.Written` | I2C_LCD.c:13-17 | defines the bytes that reach the expander: the `Write` events of the trace, in order, with the sleeps dropped |
| `Hd44780.HighNibble` | I2C_LCD.c:22 | defines the high nibble sent first: `v & 0xF0` |
| `Hd44780.LowNibble` | I2C_LCD.c:23 | defines the low nibble sent second: `(v << 4) & 0xF0` |
| `Hd44780.PulseEvents` | I2C_LCD.c:26-27 | defines one enable pulse: the byte with enable set, then the same byte without it, each followed by the settle delay |
| `Hd44780.OpEvents` | I2C_LCD.c:20-32 | defines one transfer (a command, or a character as at I2C_LCD.c:68-80): the pulse of the high nibble, then that of the low nibble, both with the control bits of the transfer |
| `Hd44780.OpsEvents` | I2C_LCD.c:20-32 | defines a series of transfers: their events one after the other |
| `ColdStart.ResetEvents` | I2C_LCD.c:40-45 | defines the first k passes of the reset loop: each the 0x3 pulse, then the 5 ms wait |
| `ColdStart.InitEvents` | I2C_LCD.c:35-65 | defines the cold start: the 50 ms power-on wait, three reset passes, the 0x2 pulse and its 5 ms wait, the four set-up commands, then the 1 ms wait |
| `LineRenderer.IsPrintable` | I2C_LCD.c:99 | defines printable ASCII: 32..126 inclusive |
| `LineRenderer.Overruns` | I2C_LCD.c:92-95 | defines the input on which the loop steps past the terminator (I2C_LCD.c:112): seventeen bytes whose last one is a space |
| `LineRenderer.Skipped` | I2C_LCD.c:92-95 | counts the skipped space: 1 when the text is longer than sixteen and its seventeenth byte is a space, else 0 |
| `LineRenderer.Rest` | I2C_LCD.c:89-95 | defines what row two receives: the bytes after the first sixteen, less a leading space; when that space is the last byte, the terminator read in its place |
| `LineRenderer.RenderOps` | I2C_LCD.c:83-114 | defines the transfers of one line: for at most sixteen bytes one character write each; for longer text, the first sixteen, then 0xC0, then the writes of `Rest` |
| `LineRenderer.Visible` | I2C_LCD.c:85-113 | defines the text that ends up written: the input less the one skipped boundary space; on the overrun input the blank written for the terminator takes the space's place, so it is the input itself |
| `Pcf8574.Bus.WriteByte` | I2C_LCD.c:13-17 | appends exactly one byte write followed by the 100 µs settle delay, and nothing else |
| `Pcf8574.Bus.Sleep` | I2C_LCD.c:37-64 | each sleep of the cold start (I2C_LCD.c:37, 44, 50 and 64) adds one delay event and writes nothing |
| `Pcf8574.WrittenAppend` | I2C_LCD.c:13-17 | the bytes put on the bus by two runs of events in a row are the bytes of the first run, then those of the second |
| `Hd44780.ControlBits` | I2C_LCD.c:7-10 | the control bits of a transfer leave the data nibble, enable and read/write at 0 and set the backlight; register select is set exactly for character data |
| `Hd44780.CommandBytes` | I2C_LCD.c:20-32 | a command appends exactly `h\|0x0C, h\|0x08, l\|0x0C, l\|0x08`, with `h = cmd & 0xF0` and `l = (cmd << 4) & 0xF0` |
| `Hd44780.CharBytes` | I2C_LCD.c:68-80 | a character appends exactly `h\|0x0D, h\|0x09, l\|0x0D, l\|0x09`, high nibble first |
| `Hd44780.NibbleRoundTrip` | I2C_LCD.c:22-23 | the four bytes of value v give back `(b0 & 0xF0) \| (b2 >> 4) == v`, and bit 0 of every byte is set exactly for characters |
| `Hd44780.OpWritten` | I2C_LCD.c:70-79 | the four bytes of any transfer are its high nibble with and without enable, then its low nibble with and without enable, each with the control bits |
| `Hd44780.OpRoundTrip` | I2C_LCD.c:20-32 | the four bytes of one transfer are two well-formed pulses latching `code >> 4` and then `code & 0x0F` with the transfer's RS, and the controller assembles exactly that transfer |
| `Hd44780.OpsRoundTrip` | I2C_LCD.c:20-32 | for every series of commands and characters, the controller decodes the bytes on the bus as exactly that series |
| `Hd44780.LatchesAppend` | I2C_LCD.c:26-31 | decoder: two framed byte streams in a row are framed, and the controller latches those of the first, then those of the second |
| `Hd44780.PairedAppend` | I2C_LCD.c:26-31 | decoder: two series of latch pairs in a row assemble into the transfers of the first, then those of the second |
| `Hd44780.FramedBytes` | I2C_LCD.c:7-10 | decoder: every byte of a framed stream has the backlight set and read/write clear; bytes come in pairs, an enable-set byte and then the same byte with only enable cleared |
| `Hd44780.OpsBytes` | I2C_LCD.c:26-31 | the backlight, read/write and pairing facts hold for the bytes of every series of commands and characters |
| `Hd44780.OpsSettled` | I2C_LCD.c:16 | every byte of every transfer is followed at once by the settle delay |
| `ColdStart.InitOpsEvents` | I2C_LCD.c:52-62 | the set-up commands are sent as function set, display on, clear and entry mode, in that order |
| `ColdStart.ResetWritten` | I2C_LCD.c:40-45 | the reset loop writes `0x3C, 0x38` three times |
| `ColdStart.InitOpsWritten` | I2C_LCD.c:52-62 | the four set-up commands are the 16 bytes `2C 28 8C 88 0C 08 CC C8 0C 08 1C 18 0C 08 6C 68` |
| `ColdStart.InitBytes` | I2C_LCD.c:35-65 | the cold start writes exactly 24 bytes: `0x3C, 0x38` three times, `0x2C, 0x28`, then 0x28, 0x0C, 0x01 and 0x06 at four bytes each |
| `ColdStart.InitDecodes` | I2C_LCD.c:39-62 | the controller latches 0x3 three times and then 0x2, all with RS clear, and reads the remaining 16 bytes, in 4-bit mode, as exactly the four set-up commands |
| `ColdStart.InitFramedBytes` | I2C_LCD.c:42-49 | every byte of the cold start has the backlight set and read/write clear, and the bytes come in enable-set / enable-cleared pairs |
| `ColdStart.InitSettled` | I2C_LCD.c:37-64 | every byte of the cold start is followed at once by the settle delay |
| `LineRenderer.Shown` | I2C_LCD.c:98-106 | the written character is always printable; it is the source byte when that lies in 32..126, and a space otherwise |
| `LineRenderer.CharAt` | I2C_LCD.c:87 | the pointer reads the terminator exactly at the end of the text, and the text's bytes before it |
| `LineRenderer.CharOps` | I2C_LCD.c:99-106 | one character write per byte, in order, each carrying the shown character |
| `LineRenderer.RenderAt` | I2C_LCD.c:85-113 | position by position: row-one characters, the jump at position 16, then the characters after the boundary |
| `LineRenderer.RenderShort` | I2C_LCD.c:85-113 | text of at most sixteen characters produces only character writes, one per byte |
| `LineRenderer.RenderWrap` | I2C_LCD.c:85-97 | a transfer is a command exactly when the text is longer than sixteen and it is the seventeenth transfer; that command is 0xC0 and a character write follows it, so the jump happens at most once |
| `LineRenderer.RenderPrintable` | I2C_LCD.c:99-106 | every character written is printable ASCII |
| `LineRenderer.RenderVisible` | I2C_LCD.c:85-113 | the characters written are the visible text (the input less the one skipped boundary space, or on the overrun input the whole input, the terminator's blank standing for the space): sixteen on row one, the rest after the jump, one write per iteration |
| `LineRenderer.RenderSpaceSkip` | I2C_LCD.c:89-95 | a boundary space with more text after it is not written: the jump is followed at once by the byte after the space, and only that one space is dropped |
| `LineRenderer.RenderOverrun` | I2C_LCD.c:92-95 | on the overrun input the last write is the blank for the terminator; the display shows what it would show if the space had been written; the visible text is the whole input, eighteen transfers in all |
| `LineRenderer.NoSpaceAtBoundary` | I2C_LCD.c:85-113 | for any text longer than sixteen whose seventeenth byte is not a space: every byte is written, with the jump right after the sixteenth, one transfer more than the text has bytes |
| `LineRenderer.SpaceThenLast` | I2C_LCD.c:89-95 | for any eighteen-byte text whose seventeenth byte is a space: sixteen writes, the jump, then only the (shown) last byte |
| `LineRenderer.TwoSpacesAtBoundary` | I2C_LCD.c:89-95 | for any text with spaces at the seventeenth and eighteenth bytes: only the first is dropped, and row two starts with a written space |
| `LcdDriver.SendCommand` | I2C_LCD.c:20-32 | appends exactly the events of one command transfer and nothing else |
| `LcdDriver.SendChar` | I2C_LCD.c:68-80 | appends exactly the events of one character transfer and nothing else |
| `LcdDriver.InitSequence` | I2C_LCD.c:35-65 | appends exactly the cold-start events: the power-on wait, three reset pulses each with its wait, the mode pulse and its wait, the four commands and the final wait |
| `LcdDriver.SendString` | I2C_LCD.c:83-114 | appends exactly the transfers of `RenderOps` for the text, and reports the overrun exactly on the overrun input |
| `LcdDriver.RenderStep` | I2C_LCD.c:89-112 | an iteration that stays inside the text appends the jump (only when the counter is 16) and then exactly one character write |
| `LcdDriver.StepTrace` | I2C_LCD.c:99-112 | the trace after such an iteration is the encoding of what has been emitted so far, and the loop state is kept |
| `LcdDriver.OverrunTrace` | I2C_LCD.c:92-112 | the iteration that steps past the terminator happens only on the overrun input, and the trace is then complete |
| `LcdDriver.RenderDone` | I2C_LCD.c:87 | when the loop stops at the terminator, there was no overrun and everything has been emitted |

## Left out

- `main` (I2C_LCD.c:116-143) is I/O glue: GPIO and I2C set-up, USB serial, the `fgets`/`getchar` loop and `printf`. Its newline stripping relies on `fgets`.
- The bus scan utility `I2C_LCD_Scan_Code.c` is not part of this model. It only probes addresses and prints.
- `i2c_write_blocking` is modelled only as the byte it sends. The model has no bus errors because the source discards the return value (I2C_LCD.c:15). The fixed address 0x27 is implied by every `Write` event.
- `sleep_us` and `sleep_ms` appear only as `Delay` events in microseconds. No clock is modelled.
- Device-side state is not modelled: DDRAM contents, cursor position and controller mode. The code never tracks them, so no property about what the display ends up showing after a clear is stated. The controller's side is used only to read the byte stream back.
- `LcdDriver.SendString`: says nothing about what happens after the pointer has passed the terminator on the overrun input. The C code reads memory beyond the string there, and the model stops and reports it.
- The C `int` counter of `lcd_send_string` is modelled as an unbounded `nat`. It could only wrap after 2^31 characters.
- C `char` is modelled as an unsigned byte. The nibble masks and the 32..126 test give the same result either way.
