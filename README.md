# I2C seminar host library — Dafny model

This project models the host-side C code of the I2C seminar. A PC drives an
I2C bus through a USB adapter (the "USB-ITS" device). The PC sends two-byte
commands over a serial line, and the adapter echoes each one, usually
followed by its bus status register. The model covers three parts of that
code:

- **The adapter protocol** (`i2cusb/i2cusb.c`, `i2cusb.h`):
  - the opcode table of the two-byte commands: start, repeated start, stop,
    byte write, byte read with or without acknowledge, port write/read,
    relay, LED, reset and clock selection;
  - the seven flags of the status register and the four clock codes;
  - every host function: how it checks the echo, and what it returns.
  - An adapter is a `class Adapter` with these fields:
    - `sent`: the frames transmitted so far;
    - `seen`: each reply buffer as the code inspected it;
    - `replies`: the bytes the device has still to answer with;
    - `initialized`: the library's global flag;
    - `failed`: `err_quit`, which ends the program.
  - A read from the serial line that returns fewer bytes than asked for
    overwrites only that many bytes of the buffer (`Frames.Overlay`), as
    `read` does in the serial layer.
- **The u-blox GPS access** (`ublox.c`):
  - `initRead`, the register-pointer preamble;
  - `randomReadUblox`, a random read with one dummy read, the data reads
    and a stop;
  - `writeUblox`.

  Each is proved against a plan function listing the frames a fully
  acknowledged exchange sends. The proof shows that the trace is always a
  prefix of that plan. It shows that every frame but the last was
  acknowledged, and that the result is 0 exactly when the whole plan went
  out.
- **The HD44780 character-LCD driver over a PCF8574-style expander**
  (`LCD_I2C.c`, `LCD_I2C.h`):
  - The driver's static variables are the fields of `class Lcd`.
  - Every public and internal function is a method. Each states the exact
    expander words it emits (`Words`, `SendWords`, `Nibble`, `Pulse`) and
    the settings it leaves behind (`Setup()`).
  - Each states the adapter frames those words become (`Emitted`, built on
    `ExpanderFrames` and `ShadowAfter`).
  - The partner of the emitting side is the display's receiving side:
    - `Receive` latches each pair of falling enable edges back into an
      instruction or a data byte;
    - `LcdCodes.Decode` reads an instruction byte back as an HD44780
      instruction.
  - The lemmas then show the following:
    - on a well-wired backpack, everything the driver sends is received as
      exactly the commands and data it meant;
    - the R/W line is never raised;
    - the wake-up sequence of `begin` puts the controller into 4-bit mode;
    - `setCursor` addresses distinct cells for distinct positions.

Inputs and outside effects are handled as follows:

- The serial port, and the replies of the device, are the `replies` input
  sequence of the adapter. Delays and the `fprintf` diagnostics are left
  out.
- `LCD_BACKLIGHT` and `LCD_NOBACKLIGHT` are not defined in the files
  modelled. They are the constructor parameters `lightOn` and `lightOff` of
  `Lcd`.

## Model

| member | source | states |
|---|---|---|
| BusStatus.Decode | i2cusb.h:123-129 | each status flag is exactly the register bit its mask selects (PIN 7, STS 5, BER 4, AD0LRB 3, AAS 2, LAB 1, BB 0) |
| BusStatus.Encode | i2cusb.h:123-129 | building a register from flags leaves the unassigned bit 6 clear and decodes back to the same flags |
| BusStatus.EncodeDecode | i2cusb.h:123-129 | decoding loses exactly bit 6: re-encoding a decoded register gives the register with bit 6 cleared |
| BusStatus.MasksAreSingleBits | i2cusb.h:123-129 | each mask constant is the single bit documented for its flag |
| BusStatus.MasksPartitionRegister | i2cusb.h:123-129 | the seven masks are pairwise disjoint, avoid bit 6 and together cover every other bit |
| BusStatus.UpperFlagsIndependent | i2cusb/i2cusb.c:38-48 | flipping the PIN, STS, BER or AD0LRB bit changes that decoded flag alone |
| BusStatus.LowerFlagsIndependent | i2cusb/i2cusb.c:38-48 | flipping AAS, LAB or BB changes that flag alone; flipping bit 6 changes nothing |
| BusStatus.DecodeExamples | i2cusb/i2cusb.c:38-48 | a lone acknowledge bit decodes to only AD0LRB; 0xFF decodes to every flag set |
| BusStatus.AcknowledgedIsBit3 | ublox.c:43-46 | the acknowledge test `rueck & AD0LRB` depends on bit 3 alone |
| BusStatus.ClockCodes | i2cusb.h:32-35 | the four clock codes are distinct and are exactly the bytes 'A' to 'D' |
| Frames.AsciiCodes | i2cusb/i2cusb.c:134-430 | each opcode constant is the ASCII letter or digit the functions send or expect |
| Frames.ParseEncode | i2cusb/i2cusb.c:134-430 | every adapter command's two-byte frame parses back to that command |
| Frames.EncodeInjective | i2cusb/i2cusb.c:134-430 | no two adapter commands share a frame |
| Frames.StartRestartDistinct | i2cusb/i2cusb.c:266-280 | start and repeated-start opcodes never coincide; each tells the three access kinds apart |
| Frames.Overlay | seriell_linux.c:157-170 | a short read overwrites only the received prefix of the buffer and keeps the rest |
| I2cUsb.Adapter.constructor | i2cusb/i2cusb.c:28 | the library starts uninitialized, with nothing sent |
| I2cUsb.Adapter.Exchange | seriell_linux.c:133-170 | one command frame is sent and its reply read into the buffer, consuming at most the reply length from the device |
| I2cUsb.Adapter.Init | i2cusb/i2cusb.c:62-88 | reset, then clock selection only if the reset echo was "XX"; the program ends unless both echoes match; initialized otherwise; a device that falls silent after "XX" still counts as initialized |
| I2cUsb.Adapter.StartIic | i2cusb/i2cusb.c:134-167 | only for modes 'r'/'w': sends the start for the chosen access; ends the program on a wrong echo; returns the status byte |
| I2cUsb.Adapter.RestartIic | i2cusb/i2cusb.c:266-298 | as StartIic, with the repeated-start opcodes |
| I2cUsb.Adapter.StopIic | i2cusb/i2cusb.c:177-190 | sends stop, never ends the program, always returns 0 |
| I2cUsb.Adapter.WrByteIic | i2cusb/i2cusb.c:198-219 | sends the byte, never ends the program, and returns the second reply byte (equal to the byte sent whenever the echo matched) |
| I2cUsb.Adapter.RdByteIic | i2cusb/i2cusb.c:230-256 | sends a read with or without acknowledge; reads three bytes; ends the program unless the echo is 'R'; returns the data byte and the status |
| I2cUsb.Adapter.Confirmed | i2cusb/i2cusb.c:304-318 | a two-byte exchange that ends the program exactly when the reply is not the command's own echo |
| I2cUsb.Adapter.WrBytePort | i2cusb/i2cusb.c:304-318 | a port write ends the program unless the reply is 'W' followed by the byte |
| I2cUsb.Adapter.RdBytePort | i2cusb/i2cusb.c:324-341 | a port read ends the program unless the echo is 'D', and returns the second reply byte |
| I2cUsb.Adapter.RelaisOn | i2cusb/i2cusb.c:355-370 | ends the program unless the reply is "P1" |
| I2cUsb.Adapter.RelaisOff | i2cusb/i2cusb.c:375-390 | ends the program unless the reply is "P0" |
| I2cUsb.Adapter.LedOn | i2cusb/i2cusb.c:395-410 | ends the program unless the reply is "L1" |
| I2cUsb.Adapter.LedOff | i2cusb/i2cusb.c:415-430 | ends the program unless the reply is "L0" |
| I2cUsb.Adapter.IsInitialized | i2cusb/i2cusb.c:347-350 | returns the initialized flag |
| Ublox.DataPlan | ublox.c:99-111 | the data reads ask for an acknowledge on every byte except the last |
| Ublox.DataWrites | ublox.c:151-157 | the data writes send the buffer's bytes in order |
| Ublox.InitRead | ublox.c:35-67 | the preamble is a prefix of start-write, register byte, repeated start-read; it stops at the first missing acknowledge and returns 0 exactly when all three were acknowledged |
| Ublox.ReadInto | ublox.c:97-104 | one byte read lands in its buffer cell, and no other cell changes |
| Ublox.ReadData | ublox.c:99-111 | reads until a byte is not acknowledged; returns 0 exactly when all were read; each read byte is in its buffer cell |
| Ublox.ReadAfterPreamble | ublox.c:96-116 | the dummy read, then the data reads, then a stop only when all data was acknowledged |
| Ublox.RandomReadUblox | ublox.c:82-117 | length 0 is rejected without bus traffic; otherwise the trace is a prefix of the full read plan; 0 exactly when it completed; every earlier step acknowledged; the buffer holds the bytes read |
| Ublox.WriteData | ublox.c:151-157 | writes bytes until one is not acknowledged; 0 exactly when all were written and acknowledged |
| Ublox.WriteUblox | ublox.c:132-160 | lengths below 2 are rejected without bus traffic; otherwise the trace is a prefix of start plus data, with no stop condition; 0 exactly when the last step was acknowledged |
| LcdCodes.BV | LCD_I2C.h:29 | `_BV(bit)` is the single bit at that position |
| LcdCodes.CommandsAreSingleBits | LCD_I2C.h:41-48 | the eight instruction codes are the eight single bits, all distinct |
| LcdCodes.FlagsBelowCommands | LCD_I2C.h:52-80 | each instruction's flags are disjoint and lie below its code; the "off" flags are zero |
| LcdCodes.SendModesDistinct | LCD_I2C.h:85-87 | COMMAND, LCD_DATA and FOUR_BITS are distinct |
| LcdCodes.CursorShiftCodes | LCD_I2C.c:157-191 | the four scroll/move commands encode the intended cursor-shift instructions |
| LcdCodes.DecodeEncode | LCD_I2C.h:41-80 | every well-formed instruction decodes back from its code |
| LcdCodes.EncodeDecode | LCD_I2C.h:41-80 | every non-zero byte decodes to an instruction whose code is contained in the byte; zero decodes to none |
| LcdCodes.DisplayControlFlags | LCD_I2C.h:59-64 | a display-control byte reads back its display, cursor and blink flags |
| LcdCodes.DisplayControlSetters | LCD_I2C.c:119-154 | setting or clearing one display-control flag changes that flag alone in the instruction sent |
| LcdCodes.EntryModeFlags | LCD_I2C.h:52-55 | an entry-mode byte reads back its direction and shift flags |
| LcdCodes.EntryModeSetters | LCD_I2C.c:168-206 | setting or clearing one entry-mode flag changes that flag alone |
| LcdCodes.CursorShiftFlags | LCD_I2C.h:68-71 | a cursor-shift byte reads back its display/cursor and direction flags |
| LcdCodes.FunctionSetFlags | LCD_I2C.h:75-80 | a function-set byte reads back its bus width, lines and font flags |
| LcdWiring.PinMasks | LCD_I2C.c:376-384 | pin numbers 0-7 give single-bit masks, which are disjoint exactly when the pins differ |
| LcdWiring.MapBitsNext | LCD_I2C.c:409-416 | one step of the mapping loop adds data pin i exactly when bit i of the nibble is set |
| LcdWiring.SendWordsSplit | LCD_I2C.c:387-401 | FOUR_BITS sends the low nibble alone as a command; other modes send the high and then the low nibble |
| LcdWiring.PulseShape | LCD_I2C.c:429-433 | each nibble goes out as the word with EN high, then the same word with EN low |
| LcdWiring.NeverReads | LCD_I2C.c:403-433 | the R/W line is low in every word the driver sends |
| LcdWiring.WordLatch | LCD_I2C.c:403-427 | on the falling edge the data lines carry the nibble, and RS is high exactly for data |
| LcdWiring.WakeUpReads | LCD_I2C.c:256-278 | the wake-up sequence is four enable pulses, latched by an 8-bit controller as function set 8-bit three times, then 4-bit |
| LcdWiring.WakeUpNibble | LCD_I2C.c:263-276 | a lone nibble latches onto the upper four data lines |
| LcdWiring.WordsOne | LCD_I2C.c:26-34 | `command` and `write` send the value in COMMAND and LCD_DATA mode |
| LcdWiring.LatchWords | LCD_I2C.c:387-427 | the two falling edges of a byte transfer latch back that byte and its mode |
| LcdWiring.ReceiveWords | LCD_I2C.c:387-401 | what `sendLCD` emits is received as exactly one transfer of that value and mode |
| LcdWiring.SendReceive | LCD_I2C.c:26-34 | any one command or data transfer is received as itself |
| LcdWiring.WordsReceive | LCD_I2C.c:26-34 | any sequence of transfers is received back as that same sequence |
| LcdWiring.WordsAppend | LCD_I2C.c:68-80 | the words for two runs of transfers are the words of each, one after the other |
| LcdWiring.WordsDataNext | LCD_I2C.c:75-79 | sending one more glyph row appends exactly its data transfer |
| LcdWiring.DrivenPins | LCD_I2C.c:443 | the shadow keeps every output bit of the value and drives no input pin |
| LcdWiring.ExpanderFrames | LCD_I2C.c:435-450 | each expander word costs exactly three adapter frames |
| LcdWiring.ExpanderFramesCarry | LCD_I2C.c:443-447 | the i-th word goes out as a write start to the expander, the shadowed byte and a stop |
| LcdWiring.ShadowAfterLast | LCD_I2C.c:443 | after a run of writes, the shadow is the last word driven |
| LcdWiring.AsWrittenFramesIntended | LCD_I2C.c:445 | start_iic sends the intended frames exactly when the mode is 'w'; modes other than 'r' and 'w' lose the start condition |
| LcdI2c.ClampRow | LCD_I2C.c:100-103 | a row beyond the display is clamped to the last row (numlines - 1, which wraps to 0xFF when no line count is set); rows on the display are kept |
| LcdI2c.CursorAddressSum | LCD_I2C.c:95-116 | the DDRAM address is the column plus the row offset of the display's layout, below 0x80 |
| LcdI2c.OffsetsApart | LCD_I2C.c:97-98 | any two row offsets are at least a display width apart |
| LcdI2c.CursorInRange | LCD_I2C.c:95-116 | the address fits the set-DDRAM instruction and decodes back to it |
| LcdI2c.CursorCells | LCD_I2C.c:95-116 | two positions on the display give the same address exactly when they are the same cell |
| LcdI2c.GlyphAddress | LCD_I2C.c:70-72 | the CGRAM address of a glyph slot fits the instruction; two locations share an address exactly when their low three bits agree |
| LcdI2c.BacklightFollowsRequest | LCD_I2C.c:339-347 | under either polarity the light shines exactly when a non-zero value was requested |
| LcdI2c.BacklightAsWritten | LCD_I2C.c:339-340 | with a signed `char`, `backlight()` leaves a positive-polarity backlight dark; the signed and unsigned tests differ exactly for values of 0x80 and more under positive polarity |
| LcdI2c.BacklightMaskLevels | LCD_I2C.c:339-347 | the backlight status is the pin mask when the pin is driven high, 0 otherwise |
| LcdI2c.BeginFunctionSet | LCD_I2C.c:232-245 | `begin` always selects 4-bit mode; two lines when lines > 1; the 5x10 font only on a one-line display |
| LcdI2c.BeginModes | LCD_I2C.c:303-312 | the defaults are display on, cursor off, blink off, and left-to-right entry without shift |
| LcdI2c.BeginWordsRun | LCD_I2C.c:299-312 | the words of `begin`'s instructions are the words of its four commands |
| LcdI2c.BeginReads | LCD_I2C.c:299-312 | the display receives function set, display control, clear and entry mode, as commands, in that order |
| LcdI2c.DistinctPinsWired | LCD_I2C.c:367-385 | distinct pin numbers below 8, with a backlight apart from them, give a well-wired backpack |
| LcdI2c.MasksWired | LCD_I2C.c:376-384 | disjoint single-bit masks form a well-wired backpack |
| LcdI2c.PinsApart | LCD_I2C.c:376-384 | two different pin numbers give disjoint masks |
| LcdI2c.Lcd.constructor | LCD_I2C.c:6-20 | the static variables start at zero, with all pins inputs (dirMask 0xFF) and an empty shadow |
| LcdI2c.Lcd.Transmit | LCD_I2C.c:445-447 | the intended start-write, data byte and stop, returning stop's 0 |
| LcdI2c.Lcd.TransmitAsWritten | LCD_I2C.c:445-447 | the three calls as written, for any mode byte the string argument produces |
| LcdI2c.Lcd.I2cWrite | LCD_I2C.c:435-450 | once initialized, the shadow becomes the driven value and its three frames are sent; otherwise nothing changes; always reports success |
| LcdI2c.Lcd.PulseEnable | LCD_I2C.c:429-433 | emits the word with EN high, then with EN low |
| LcdI2c.Lcd.MapPins | LCD_I2C.c:405-416 | the loop computes the pin mapping of the nibble |
| LcdI2c.Lcd.Write4Bits | LCD_I2C.c:403-427 | emits one enable pulse of the mapped nibble, the mode bits and the backlight |
| LcdI2c.Lcd.SendLcd | LCD_I2C.c:387-401 | emits the nibble pulses of one transfer |
| LcdI2c.Lcd.Command | LCD_I2C.c:26-29 | emits the value as a command, changing no setting |
| LcdI2c.Lcd.Write | LCD_I2C.c:31-34 | emits the value as data, changing no setting |
| LcdI2c.Lcd.Clear | LCD_I2C.c:83-87 | emits the clear-display instruction |
| LcdI2c.Lcd.Home | LCD_I2C.c:89-93 | emits the return-home instruction |
| LcdI2c.Lcd.NoDisplay | LCD_I2C.c:119-123 | clears the display-on flag alone and sends the new display control |
| LcdI2c.Lcd.Display | LCD_I2C.c:125-129 | sets the display-on flag alone and sends the new display control |
| LcdI2c.Lcd.NoCursor | LCD_I2C.c:132-136 | clears the cursor flag alone and sends the display control |
| LcdI2c.Lcd.Cursor | LCD_I2C.c:137-141 | sets the cursor flag alone and sends the display control |
| LcdI2c.Lcd.NoBlink | LCD_I2C.c:144-148 | clears the blink flag alone and sends the display control |
| LcdI2c.Lcd.Blink | LCD_I2C.c:150-154 | sets the blink flag alone and sends the display control |
| LcdI2c.Lcd.ScrollDisplayLeft | LCD_I2C.c:157-160 | emits the display-shift-left instruction |
| LcdI2c.Lcd.ScrollDisplayRight | LCD_I2C.c:162-165 | emits the display-shift-right instruction |
| LcdI2c.Lcd.LeftToRight | LCD_I2C.c:168-172 | sets the entry-left flag alone and sends the entry mode |
| LcdI2c.Lcd.RightToLeft | LCD_I2C.c:175-179 | clears the entry-left flag alone and sends the entry mode |
| LcdI2c.Lcd.MoveCursorRight | LCD_I2C.c:182-185 | emits the cursor-move-right instruction |
| LcdI2c.Lcd.MoveCursorLeft | LCD_I2C.c:188-191 | emits the cursor-move-left instruction |
| LcdI2c.Lcd.Autoscroll | LCD_I2C.c:195-199 | sets the shift-increment flag alone and sends the entry mode |
| LcdI2c.Lcd.NoAutoscroll | LCD_I2C.c:202-206 | clears the shift-increment flag alone and sends the entry mode |
| LcdI2c.Lcd.SetCursor | LCD_I2C.c:95-116 | emits set-DDRAM-address with the clamped row's offset plus the column |
| LcdI2c.Lcd.SetBacklight | LCD_I2C.c:331-351 | without a backlight pin nothing happens; otherwise the status mask follows value and polarity and is written to the expander |
| LcdI2c.Lcd.Backlight | LCD_I2C.c:38-41 | switches the backlight on under the configured polarity |
| LcdI2c.Lcd.NoBacklight | LCD_I2C.c:45-48 | switches the backlight off under the configured polarity |
| LcdI2c.Lcd.On | LCD_I2C.c:52-56 | display control with display on, then backlight on |
| LcdI2c.Lcd.Off | LCD_I2C.c:60-64 | backlight off, then display control with display off |
| LcdI2c.Lcd.WriteRows | LCD_I2C.c:75-79 | the loop sends the eight glyph rows as data, in order |
| LcdI2c.Lcd.CreateChar | LCD_I2C.c:68-80 | sets the CGRAM address of slot location&7, then the eight rows as data |
| LcdI2c.Lcd.Init | LCD_I2C.c:353-365 | makes every expander pin an output; resets the function flags to 4-bit, 1 line, 5x8; drives the port low; returns 1 |
| LcdI2c.Lcd.Config | LCD_I2C.c:367-385 | stores the address, the pin masks, no backlight pin, the "off" status and positive polarity |
| LcdI2c.Lcd.SetBacklightPin | LCD_I2C.c:324-329 | stores the pin mask and polarity, then switches the backlight off |
| LcdI2c.Lcd.InitLcd | LCD_I2C.c:318-322 | config followed by setBacklightPin, with the combined settings and words |
| LcdI2c.Lcd.BeginSetup | LCD_I2C.c:232-245 | `init` plus the geometry and function flags chosen by `begin` |
| LcdI2c.Lcd.Geometry | LCD_I2C.c:233-245 | records lines and columns and sets the line and font flags |
| LcdI2c.Lcd.SendNibbles | LCD_I2C.c:263-268 | two lone nibbles, one after the other |
| LcdI2c.Lcd.WakeUp | LCD_I2C.c:256-278 | emits the wake-up words: 0x03 three times, then 0x02 |
| LcdI2c.Lcd.BeginStart | LCD_I2C.c:232-296 | `init`, geometry and the 4-bit wake-up; the 8-bit branch is never taken |
| LcdI2c.Lcd.BeginDisplay | LCD_I2C.c:299-304 | function set with the chosen flags, then display on with cursor and blink off |
| LcdI2c.Lcd.DisplayDefaults | LCD_I2C.c:303-304 | stores and sends the default display control |
| LcdI2c.Lcd.BeginEntry | LCD_I2C.c:307-312 | clear, then the default entry mode |
| LcdI2c.Lcd.BeginInstructions | LCD_I2C.c:299-312 | `begin`'s four instructions, with the resulting display control and mode |
| LcdI2c.Lcd.BeginFinish | LCD_I2C.c:299-314 | the four instructions, then the backlight switched on |
| LcdI2c.Lcd.Begin | LCD_I2C.c:230-316 | the whole of `begin`: final settings, and every word sent to the expander, in order |

## Left out

- The serial port itself (opening, configuring, closing, Windows and Unix variants) and `DeInit`: the device's answers are an input sequence, and port errors are not modelled.
- The `fprintf` diagnostics, including the flag printout of `decodeStatus`: only the flag extraction is modelled (`BusStatus.Decode`).
- `delay` and the other timing: the model is untimed.
- The firmware of the adapter and of the u-blox receiver: they are seen only through their replies.
- I2cUsb.Adapter.Exchange: a serial `read` that fails outright (returns -1) is not modelled; it is treated as a read of zero bytes.
- Signedness: the C file keeps bytes in plain `char`, while `LCD_I2C.h` declares the same parameters `uint8_t` (`begin` at LCD_I2C.h:154, `setCursor` at 375, `setBacklight` at 432). The model follows the header and compares unsigned. On a host where `char` is signed, `backlight()` would leave a positive-polarity backlight off (see Findings, `LcdI2c.BacklightAsWritten`). Rows in `setCursor` and line counts in `begin` of 128 or more would also compare as negative numbers; that reading is not modelled.
- LcdWiring.PinMask: `1 << n` for a pin number of 8 or more is 0 in the model. In C the shifted int is truncated to `char` (and is undefined from 32 on).
- LcdI2c.Lcd.SetCursor: requires the clamped row to be below 4. `setCursor` indexes a four-entry offset table, and a larger row reads outside it.
- LcdI2c.Lcd.BeginStart: the 8-bit initialization branch of `begin` is kept as an impossible branch. `init` always clears the 8-bit flag just before (`LcdI2c.BeginFunctionSet`).
- LcdWiring.Latch8: the controller's 8-bit latch during the wake-up sequence follows the HD44780 data sheet. It is not code of the repository.
- `start_iic` is declared with a `short` destination in `i2cusb.h` and defined with a `char` one. The model uses a byte for both.
- The LCD methods return the words they emit as ghost out-parameters. The frames on the adapter are stated through `Emitted`.
- Update in place of the `_data_pins` array is modelled as a four-element sequence field.

## Findings

| source | as written | input that shows it | evidently intended | confidence | as-written member | corrected member |
|---|---|---|---|---|---|---|
| LCD_I2C.c:445 | `i2cwrite` calls `start_iic(true, _Addr, "w")` with a string. The parameter is a `char`, so the mode becomes the low byte of the string's address. | Any string address whose low byte is neither 'r' (0x72) nor 'w' (0x77). Then no start condition is sent, only the byte and the stop. An address ending in 0x72 starts a read instead. | `start_iic(true, _Addr, 'w')`: a write start to the expander before each byte | not executed | LcdI2c.Lcd.TransmitAsWritten (with LcdWiring.AsWrittenFramesIntended) | LcdI2c.Lcd.Transmit (with LcdWiring.ExpanderFramesCarry) |
| LCD_I2C.c:339 | `setBacklight(char value)` tests `value > 0`. `backlight()` passes `BACKLIGHT_ON` (255), which is -1 in a signed plain `char`. | `backlight()` under POSITIVE polarity, on an x86 host (signed `char`): the pin is set to the `LCD_NOBACKLIGHT` level and the light stays off. | a `uint8_t` parameter, as `LCD_I2C.h:432` declares, so any nonzero value switches the light on | not executed | LcdI2c.BacklightAsWritten (with LcdI2c.PinHighAsWritten) | LcdI2c.BacklightFollowsRequest (with LcdI2c.PinHigh, used by LcdI2c.Lcd.SetBacklight) |
