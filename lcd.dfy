/** The HD44780 driver behind an I2C port expander: one display, whose
    configuration and output state live in the driver's module-level
    variables, written to through the USB adapter one expander word at a
    time. */
module LcdI2c {
  import opened Bytes
  import F = Frames
  import opened LcdCodes
  import opened LcdWiring
  import I2cUsb
  import Seqs

  /** The driver's variables apart from the output shadow. */
  datatype Settings = Settings(addr: byte, backlightPinMask: byte, backlightStsMask: byte,
                               en: byte, rw: byte, rs: byte, dataPins: seq<byte>, dirMask: byte,
                               numlines: byte, cols: byte,
                               displaycontrol: byte, displaymode: byte, displayfunction: byte,
                               polarity: Polarity)

  /** `row_offsetsDef`: where each row of a regular display starts in
      display RAM. */
  const RowOffsets: seq<byte> := [0x00, 0x40, 0x14, 0x54]

  /** `row_offsetsLarge`: the same for a 16x4 display. */
  const RowOffsetsLarge: seq<byte> := [0x00, 0x40, 0x10, 0x50]

  /** The row `setCursor` addresses: a row past the last is the last row.
      With no line count set the subtraction wraps to 0xFF. */
  function ClampRow(row: byte, numlines: byte): (r: byte)
    ensures 0 < numlines ==> r < numlines
    ensures 0 < numlines <= row ==> r == numlines - 1
    ensures numlines == 0 ==> r == 0xFF
    ensures row < numlines ==> r == row
  {
    if row >= numlines then numlines - 1 else row
  }

  /** The display RAM address of a cell; the sum wraps as the `char`
      argument of `command` does. */
  function CursorAddress(col: byte, row: byte, cols: byte, numlines: byte): byte
    requires ClampRow(row, numlines) < 4
  {
    var offsets := if cols == 16 && numlines == 4 then RowOffsetsLarge else RowOffsets;
    col + offsets[ClampRow(row, numlines)]
  }

  /** The row offsets of a layout as numbers. */
  function Offset(cols: byte, numlines: byte, r: nat): int
    requires r < 4
  {
    (if cols == 16 && numlines == 4 then RowOffsetsLarge else RowOffsets)[r] as int
  }

  /** Within a display of at most 20 columns the address of a cell is the
      column plus the row's offset, with no wrap-around, below 0x80. */
  lemma CursorAddressSum(cols: byte, numlines: byte, col: byte, row: byte)
    requires 1 <= numlines <= 4 && cols <= 20 && col < cols && row < numlines
    ensures CursorAddress(col, row, cols, numlines) as int == col as int + Offset(cols, numlines, row as nat)
    ensures CursorAddress(col, row, cols, numlines) < 0x80
  {
    assert ClampRow(row, numlines) == row;
    assert Offset(cols, numlines, row as nat) <= 0x54;
  }

  /** Two rows start at least a row's width apart: 20 columns in the
      regular layout, 16 in the 16x4 one. */
  lemma OffsetsApart(cols: byte, numlines: byte, r1: nat, r2: nat)
    requires r1 < 4 && r2 < 4 && r1 != r2 && cols <= 20
    ensures Offset(cols, numlines, r1) - Offset(cols, numlines, r2) >= cols as int
         || Offset(cols, numlines, r2) - Offset(cols, numlines, r1) >= cols as int
  {
  }

  /** On a display of one to four lines and at most 20 columns, the
      address of a cell fits the 7-bit address field, so the controller
      reads the command as that address. */
  lemma CursorInRange(cols: byte, numlines: byte, col: byte, row: byte)
    requires 1 <= numlines <= 4 && cols <= 20 && col < cols && row < numlines
    ensures CursorAddress(col, row, cols, numlines) < 0x80
    ensures Decode(Encode(SetDdramAddress(CursorAddress(col, row, cols, numlines))))
         == Some(SetDdramAddress(CursorAddress(col, row, cols, numlines)))
  {
    CursorAddressSum(cols, numlines, col, row);
    DecodeEncode(SetDdramAddress(CursorAddress(col, row, cols, numlines)));
  }

  /** On such a display every cell has an address of its own. */
  lemma CursorCells(cols: byte, numlines: byte, c1: byte, r1: byte, c2: byte, r2: byte)
    requires 1 <= numlines <= 4 && cols <= 20
    requires c1 < cols && r1 < numlines && c2 < cols && r2 < numlines
    ensures CursorAddress(c1, r1, cols, numlines) == CursorAddress(c2, r2, cols, numlines) <==> c1 == c2 && r1 == r2
  {
    if r1 == r2 {
      SameRow(cols, numlines, c1, c2, r1);
    } else {
      RowsApart(cols, numlines, c1, r1, c2, r2);
    }
  }

  /** Within one row the address follows the column. */
  lemma SameRow(cols: byte, numlines: byte, c1: byte, c2: byte, row: byte)
    requires 1 <= numlines <= 4 && cols <= 20
    requires c1 < cols && c2 < cols && row < numlines
    ensures CursorAddress(c1, row, cols, numlines) == CursorAddress(c2, row, cols, numlines) <==> c1 == c2
  {
    CursorAddressSum(cols, numlines, c1, row);
    CursorAddressSum(cols, numlines, c2, row);
    Bytes.Numbers(c1, c2);
    Bytes.Numbers(CursorAddress(c1, row, cols, numlines), CursorAddress(c2, row, cols, numlines));
  }

  /** Cells on different rows have different addresses. */
  lemma RowsApart(cols: byte, numlines: byte, c1: byte, r1: byte, c2: byte, r2: byte)
    requires 1 <= numlines <= 4 && cols <= 20
    requires c1 < cols && r1 < numlines && c2 < cols && r2 < numlines && r1 != r2
    ensures CursorAddress(c1, r1, cols, numlines) != CursorAddress(c2, r2, cols, numlines)
  {
    CursorAddressSum(cols, numlines, c1, r1);
    CursorAddressSum(cols, numlines, c2, r2);
    OffsetsApart(cols, numlines, r1 as nat, r2 as nat);
    Bytes.Numbers(CursorAddress(c1, r1, cols, numlines), CursorAddress(c2, r2, cols, numlines));
  }

  /** `createChar` keeps the low three bits of the location: glyph `n` of
      the eight lives at character generator address `8 * n`, which the
      controller reads as that address, and two locations share a glyph
      exactly when they agree in those bits. */
  lemma GlyphAddress(l1: byte, l2: byte)
    ensures (l1 & 7) << 3 < 0x40
    ensures Decode(Encode(SetCgramAddress((l1 & 7) << 3))) == Some(SetCgramAddress((l1 & 7) << 3))
    ensures (l1 & 7) << 3 == (l2 & 7) << 3 <==> l1 & 7 == l2 & 7
  {
    DecodeEncode(SetCgramAddress((l1 & 7) << 3));
  }

  /** Whether `setBacklight` drives the backlight pin to the `LCD_BACKLIGHT`
      level rather than the `LCD_NOBACKLIGHT` level. */
  predicate PinHigh(pol: Polarity, value: byte)
  {
    (pol == Positive && value > 0) || (pol == Negative && value == 0)
  }

  /** Whether the backlight shines with its pin at the `LCD_BACKLIGHT` level
      (`high`) or the other: a positive transistor conducts on the high
      level, a negative one on the low. */
  predicate Shines(pol: Polarity, high: bool)
  {
    high == (pol == Positive)
  }

  /** Whatever the polarity, the backlight shines exactly when a nonzero
      value asked for it. */
  lemma BacklightFollowsRequest(pol: Polarity, value: byte)
    ensures Shines(pol, PinHigh(pol, value)) <==> value != 0
  {
  }

  /** The test in `setBacklight` as the C file compiles it where plain `char`
      is signed, as on the x86 hosts the library targets: a value of 0x80 or
      more is negative there, so `value > 0` fails for it. */
  predicate PinHighAsWritten(pol: Polarity, value: byte)
  {
    (pol == Positive && 0 < value < 0x80) || (pol == Negative && value == 0)
  }

  /** With a signed `char`, `backlight()` (value `BACKLIGHT_ON`, 255) leaves a
      positive-polarity backlight dark, where the unsigned reading lights it;
      the two readings differ exactly for values of 0x80 and more under
      positive polarity. */
  lemma BacklightAsWritten(pol: Polarity, value: byte)
    ensures !Shines(Positive, PinHighAsWritten(Positive, BACKLIGHT_ON))
    ensures Shines(Positive, PinHigh(Positive, BACKLIGHT_ON))
    ensures PinHighAsWritten(pol, value) != PinHigh(pol, value) <==> pol == Positive && value >= 0x80
  {
  }

  /** The backlight status mask `setBacklight` computes. */
  function BacklightMask(pinMask: byte, pol: Polarity, value: byte, lightOn: byte, lightOff: byte): byte
  {
    pinMask & (if PinHigh(pol, value) then lightOn else lightOff)
  }

  /** With the levels `0xFF` for on and `0` for off, the status mask raises
      the backlight pin alone, exactly when the pin is to be high. */
  lemma BacklightMaskLevels(pinMask: byte, pol: Polarity, value: byte)
    ensures BacklightMask(pinMask, pol, value, 0xFF, 0) == if PinHigh(pol, value) then pinMask else 0
  {
  }

  /** The function set flags `begin` settles on, starting from the 4-bit,
      one-line, 5x8 flags of `init`: two lines for more than one line, the
      tall font only for a single line and a font other than 5x8. */
  function BeginFunction(lines: byte, dotsize: byte): byte
  {
    var base := FOURBITMODE | ONELINE | DOTS5x8;
    var sized := if lines > 1 then base | TWOLINE else base;
    if dotsize != DOTS5x8 && lines == 1 then sized | DOTS5x10 else sized
  }

  /** `begin` always stays in 4-bit mode, and the function set instruction
      it sends carries the line count and font it was asked for. */
  lemma BeginFunctionSet(lines: byte, dotsize: byte)
    ensures BeginFunction(lines, dotsize) & EIGHTBITMODE == 0
    ensures Decode(FUNCTIONSET | BeginFunction(lines, dotsize))
         == Some(FunctionSet(false, lines > 1, dotsize != DOTS5x8 && lines == 1))
  {
    FunctionSetFlags(BeginFunction(lines, dotsize));
  }

  /** The display control and entry mode instructions `begin` ends with: the
      display on with neither cursor nor blinking, and text flowing left to
      right without shifting the display. */
  lemma BeginModes()
    ensures Decode(DISPLAYCONTROL | (DISPLAYON | CURSOROFF | BLINKOFF)) == Some(DisplayControl(true, false, false))
    ensures Decode(ENTRYMODESET | (ENTRYLEFT | ENTRYSHIFTDECREMENT)) == Some(EntryModeSet(true, false))
  {
    DisplayControlFlags(DISPLAYON | CURSOROFF | BLINKOFF);
    EntryModeFlags(ENTRYLEFT | ENTRYSHIFTDECREMENT);
  }

  /** The instructions `begin` sends once the controller is in 4-bit mode:
      the function set with the flags `flags`, the display switched on
      without cursor or blinking, clear, and the entry mode for left-to-right
      text without shifting. */
  function BeginCommands(flags: byte): seq<Transfer>
  {
    [Cmd(FUNCTIONSET | flags), Cmd(DISPLAYCONTROL | (DISPLAYON | CURSOROFF | BLINKOFF)),
     Cmd(CLEARDISPLAY), Cmd(ENTRYMODESET | (ENTRYLEFT | ENTRYSHIFTDECREMENT))]
  }

  /** The expander words of `begin`'s instructions, instruction by
      instruction. */
  function BeginWords(w: Wiring, flags: byte): seq<byte>
    requires |w.pins| == 4
  {
    DisplayWords(w, flags) + EntryWords(w)
  }

  /** The function set and the display control instructions. */
  function DisplayWords(w: Wiring, flags: byte): seq<byte>
    requires |w.pins| == 4
  {
    Words(w, [Cmd(FUNCTIONSET | flags)]) + Words(w, [Cmd(DISPLAYCONTROL | (DISPLAYON | CURSOROFF | BLINKOFF))])
  }

  /** The words of the function set and display control commands, written
      out, are the display group of `begin`. */
  lemma DisplayWordsSplit(w: Wiring, flags: byte, words: seq<byte>)
    requires |w.pins| == 4
    requires words == Words(w, [Cmd(FUNCTIONSET | flags)]) + Words(w, [Cmd(DISPLAYCONTROL | (DISPLAYON | CURSOROFF | BLINKOFF))])
    ensures words == DisplayWords(w, flags)
  {
  }

  /** The words of the clear and entry mode commands, written out, are the
      entry group of `begin`. */
  lemma EntryWordsSplit(w: Wiring, words: seq<byte>)
    requires |w.pins| == 4
    requires words == Words(w, [Cmd(CLEARDISPLAY)]) + Words(w, [Cmd(ENTRYMODESET | (ENTRYLEFT | ENTRYSHIFTDECREMENT))])
    ensures words == EntryWords(w)
  {
  }

  /** The clear and the entry mode instructions. */
  function EntryWords(w: Wiring): seq<byte>
    requires |w.pins| == 4
  {
    Words(w, [Cmd(CLEARDISPLAY)]) + Words(w, [Cmd(ENTRYMODESET | (ENTRYLEFT | ENTRYSHIFTDECREMENT))])
  }

  /** They are the words of the run of all four. */
  lemma BeginWordsRun(w: Wiring, flags: byte)
    requires |w.pins| == 4
    ensures BeginWords(w, flags) == Words(w, BeginCommands(flags))
  {
    var c := BeginCommands(flags);
    assert c == ([c[0]] + [c[1]]) + ([c[2]] + [c[3]]);
    WordsAppend(w, [c[0]], [c[1]]);
    WordsAppend(w, [c[2]], [c[3]]);
    WordsAppend(w, [c[0]] + [c[1]], [c[2]] + [c[3]]);
  }

  /** A well-wired controller in 4-bit mode reads back `begin`'s
      instructions, all for the instruction register, as 4-bit mode with
      the lines and the font asked for, display on with cursor and blinking
      off, clear, and left-to-right entry without shifting. */
  lemma BeginReads(w: Wiring, lines: byte, dotsize: byte)
    requires WellWired(w)
    ensures var ts := BeginCommands(BeginFunction(lines, dotsize));
      && Receive(w, BeginWords(w, BeginFunction(lines, dotsize))) == ts
      && !ts[0].data && !ts[1].data && !ts[2].data && !ts[3].data
      && Decode(ts[0].value) == Some(FunctionSet(false, lines > 1, dotsize != DOTS5x8 && lines == 1))
      && Decode(ts[1].value) == Some(DisplayControl(true, false, false))
      && Decode(ts[2].value) == Some(ClearDisplay)
      && Decode(ts[3].value) == Some(EntryModeSet(true, false))
  {
    WordsReceive(w, BeginCommands(BeginFunction(lines, dotsize)));
    BeginWordsRun(w, BeginFunction(lines, dotsize));
    BeginFunctionSet(lines, dotsize);
    BeginModes();
  }

  /** Seven pin numbers of the expander, all different. */
  predicate DistinctPins(en: byte, rw: byte, rs: byte, d4: byte, d5: byte, d6: byte, d7: byte)
  {
    && en < 8 && rw < 8 && rs < 8 && d4 < 8 && d5 < 8 && d6 < 8 && d7 < 8
    && d4 != d5 && d4 != d6 && d4 != d7 && d4 != en && d4 != rw && d4 != rs
    && d5 != d6 && d5 != d7 && d5 != en && d5 != rw && d5 != rs
    && d6 != d7 && d6 != en && d6 != rw && d6 != rs
    && d7 != en && d7 != rw && d7 != rs
    && en != rw && en != rs && rw != rs
  }

  /** The pins `config` assigns, as pin numbers, are wired apart when the
      seven numbers are distinct pins of the expander and the backlight
      level touches none of them. */
  lemma DistinctPinsWired(en: byte, rw: byte, rs: byte, d4: byte, d5: byte, d6: byte, d7: byte, backlight: byte)
    requires DistinctPins(en, rw, rs, d4, d5, d6, d7)
    requires backlight & (PinMask(en) | PinMask(rw) | PinMask(rs) | PinMask(d4) | PinMask(d5) | PinMask(d6) | PinMask(d7)) == 0
    ensures WellWired(LcdWiring.Wiring(PinMask(en), PinMask(rw), PinMask(rs),
                                       [PinMask(d4), PinMask(d5), PinMask(d6), PinMask(d7)], backlight))
  {
    PinMasks(en, en); PinMasks(rw, rw); PinMasks(rs, rs);
    PinMasks(d4, d4); PinMasks(d5, d5); PinMasks(d6, d6); PinMasks(d7, d7);
    PinsApart(d4, d5); PinsApart(d4, d6); PinsApart(d4, d7); PinsApart(d4, en); PinsApart(d4, rw); PinsApart(d4, rs);
    PinsApart(d5, d6); PinsApart(d5, d7); PinsApart(d5, en); PinsApart(d5, rw); PinsApart(d5, rs);
    PinsApart(d6, d7); PinsApart(d6, en); PinsApart(d6, rw); PinsApart(d6, rs);
    PinsApart(d7, en); PinsApart(d7, rw); PinsApart(d7, rs);
    PinsApart(en, rw); PinsApart(en, rs); PinsApart(rw, rs);
    MasksWired(PinMask(en), PinMask(rw), PinMask(rs), PinMask(d4), PinMask(d5), PinMask(d6), PinMask(d7), backlight);
  }

  /** Seven single-bit masks, pairwise disjoint, with a backlight level that
      touches none of them, are wired apart. */
  lemma MasksWired(e: byte, r: byte, s: byte, p0: byte, p1: byte, p2: byte, p3: byte, backlight: byte)
    requires SingleBit(e) && SingleBit(r) && SingleBit(s)
    requires SingleBit(p0) && SingleBit(p1) && SingleBit(p2) && SingleBit(p3)
    requires p0 & p1 == 0 && p0 & p2 == 0 && p0 & p3 == 0 && p0 & e == 0 && p0 & r == 0 && p0 & s == 0
    requires p1 & p2 == 0 && p1 & p3 == 0 && p1 & e == 0 && p1 & r == 0 && p1 & s == 0
    requires p2 & p3 == 0 && p2 & e == 0 && p2 & r == 0 && p2 & s == 0
    requires p3 & e == 0 && p3 & r == 0 && p3 & s == 0
    requires e & r == 0 && e & s == 0 && r & s == 0
    requires backlight & (e | r | s | p0 | p1 | p2 | p3) == 0
    ensures WellWired(LcdWiring.Wiring(e, r, s, [p0, p1, p2, p3], backlight))
  {
    BelowNone(backlight, e, r, s, p0, p1, p2, p3);
    Swap(p0, p1); Swap(p0, p2); Swap(p0, p3); Swap(p0, e); Swap(p0, r); Swap(p0, s);
    Swap(p1, p2); Swap(p1, p3); Swap(p1, e); Swap(p1, r); Swap(p1, s);
    Swap(p2, p3); Swap(p2, e); Swap(p2, r); Swap(p2, s);
    Swap(p3, e); Swap(p3, r); Swap(p3, s);
    Swap(e, r); Swap(e, s); Swap(r, s);
    ApartFromAll(p0, p1, p2, p3, e, r, s, backlight);
    ApartFromAll(p1, p0, p2, p3, e, r, s, backlight);
    ApartFromAll(p2, p0, p1, p3, e, r, s, backlight);
    ApartFromAll(p3, p0, p1, p2, e, r, s, backlight);
    ApartFromAll(e, p0, p1, p2, p3, r, s, backlight);
    ApartFromAll(r, p0, p1, p2, p3, e, s, backlight);
    ApartFromAll(s, p0, p1, p2, p3, e, r, backlight);
  }

  lemma Swap(a: byte, b: byte)
    requires a & b == 0
    ensures b & a == 0
  {
  }

  /** Two distinct pins of the expander have disjoint masks. */
  lemma PinsApart(a: byte, b: byte)
    requires a < 8 && b < 8 && a != b
    ensures PinMask(a) & PinMask(b) == 0 && PinMask(b) & PinMask(a) == 0
  {
    PinMasks(a, b);
  }

  /** A mask that shares no bit with an OR shares none with its parts. */
  lemma BelowNone(y: byte, a: byte, b: byte, c: byte, d: byte, e: byte, f: byte, g: byte)
    requires y & (a | b | c | d | e | f | g) == 0
    ensures a & y == 0 && b & y == 0 && c & y == 0 && d & y == 0 && e & y == 0 && f & y == 0 && g & y == 0
  {
  }

  /** A mask that shares no bit with any of seven masks shares none with
      their OR. */
  lemma ApartFromAll(x: byte, a: byte, b: byte, c: byte, d: byte, e: byte, f: byte, g: byte)
    requires x & a == 0 && x & b == 0 && x & c == 0 && x & d == 0 && x & e == 0 && x & f == 0 && x & g == 0
    ensures x & (a | b | c | d | e | f | g) == 0
  {
  }

  /** The expander words `setBacklight` writes: the status mask, unless
      there is no backlight pin. */
  function BacklightWords(pinMask: byte, stsMask: byte): seq<byte>
  {
    if pinMask == 0 then [] else [stsMask]
  }

  class Lcd {
    /** The adapter the expander hangs off. */
    const bus: I2cUsb.Adapter
    /** The backlight levels `LCD_BACKLIGHT` and `LCD_NOBACKLIGHT`. */
    const lightOn: byte
    const lightOff: byte

    var addr: byte
    /** `_data_pins`: the expander masks of D4 to D7. */
    var dataPins: seq<byte>
    var backlightPinMask: byte
    var backlightStsMask: byte
    var en: byte
    var rw: byte
    var rs: byte
    var dirMask: byte
    var shadow: byte
    var numlines: byte
    var cols: byte
    var displaycontrol: byte
    var displaymode: byte
    var displayfunction: byte
    var polarity: Polarity

    ghost predicate Valid()
      reads this`dataPins, bus
    {
      bus.Valid() && |dataPins| == 4
    }

    function Setup(): Settings
      reads this
    {
      Settings(addr, backlightPinMask, backlightStsMask, en, rw, rs, dataPins, dirMask, numlines, cols,
               displaycontrol, displaymode, displayfunction, polarity)
    }

    /** The expander pins as configured, with the backlight level driven now. */
    function Wiring(): Wiring
      reads this`en, this`rw, this`rs, this`dataPins, this`backlightStsMask
    {
      LcdWiring.Wiring(en, rw, rs, dataPins, backlightStsMask)
    }

    /** The bus trace and the shadow are what the expander words `values`
        leave behind, since the trace `sent0` and shadow `shadow0` of an
        adapter whose initialized flag was `init`. */
    ghost predicate Emitted(init: bool, sent0: seq<F.Frame>, shadow0: byte, values: seq<byte>)
      reads this`shadow, this`addr, this`dirMask, bus
    {
      Outcome(bus.failed, bus.sent, shadow, init, addr, dirMask, sent0, shadow0, values)
    }

    /** The static variables at program start, before `initLCD`. */
    constructor (bus: I2cUsb.Adapter, lightOn: byte, lightOff: byte)
      requires bus.Valid()
      ensures Valid() && this.bus == bus && this.lightOn == lightOn && this.lightOff == lightOff
      ensures Setup() == Settings(0, 0, 0, 0, 0, 0, [0, 0, 0, 0], 0xFF, 0, 0, 0, 0, 0, Positive) && shadow == 0
    {
      this.bus := bus;
      this.lightOn := lightOn;
      this.lightOff := lightOff;
      dataPins := [0, 0, 0, 0];
      addr, backlightPinMask, backlightStsMask := 0, 0, 0;
      en, rw, rs := 0, 0, 0;
      dirMask, shadow := 0xFF, 0;
      numlines, cols := 0, 0;
      displaycontrol, displaymode, displayfunction := 0, 0, 0;
      polarity := Positive;
    }

    /** The transaction of `i2cwrite`: start with write access to the
        expander, the word, stop; its frames follow the trace unless the
        program ended on the way. Stop always reports 0. */
    method Transmit(word: byte) returns (status: byte)
      requires bus.Valid() && bus.initialized
      modifies bus
      ensures bus.Valid() && bus.initialized && (old(bus.failed) ==> bus.failed)
      ensures status == 0
      ensures bus.failed || bus.sent == old(bus.sent) + WriteFrames(addr, word)
    {
      var s := bus.StartIic(true, addr, F.ASCII_w);
      label started:
      var d := bus.WrByteIic(word);
      label written:
      status := bus.StopIic();
      if !bus.failed {
        WriteTrace(old(bus.sent), old@started(bus.sent), old@written(bus.sent), bus.sent, addr, word);
      }
    }

    /** The transaction of `i2cwrite` as written, with the low byte `mode`
        of the string's address in place of the mode character. */
    method TransmitAsWritten(word: byte, mode: byte) returns (status: byte)
      requires bus.Valid() && bus.initialized
      modifies bus
      ensures bus.Valid() && bus.initialized && (old(bus.failed) ==> bus.failed)
      ensures status == 0
      ensures bus.failed || bus.sent == old(bus.sent) + AsWrittenFrames(addr, mode, word)
    {
      var s := bus.StartIic(true, addr, mode);
      var d := bus.WrByteIic(word);
      status := bus.StopIic();
    }

    /** `i2cwrite`: only on an initialized adapter, the word with the input
        pins masked off becomes the shadow and goes out as start, byte,
        stop. The stop status is always 0, so the result always reports
        success. */
    method I2cWrite(value: byte) returns (ok: bool)
      requires Valid()
      modifies this, bus
      ensures Valid() && Setup() == old(Setup()) && ok
      ensures bus.initialized == old(bus.initialized) && (old(bus.failed) ==> bus.failed)
      ensures Emitted(old(bus.initialized), old(bus.sent), old(shadow), [value])
    {
      var status: byte := 0;
      var init := bus.IsInitialized();
      if init {
        shadow := value & !dirMask;
        status := Transmit(shadow);
      }
      ok := status == 0;
      OutcomeOne(bus.failed, bus.sent, shadow, init, addr, dirMask, old(bus.sent), old(shadow), value);
    }

    /** `pulseEnable`: the word with En raised, then with En lowered. */
    method PulseEnable(data: byte) returns (ghost words: seq<byte>)
      requires Valid()
      modifies this, bus
      ensures Valid() && Setup() == old(Setup())
      ensures bus.initialized == old(bus.initialized) && (old(bus.failed) ==> bus.failed)
      ensures words == Pulse(old(Wiring()), data)
      ensures Emitted(old(bus.initialized), old(bus.sent), old(shadow), words)
    {
      var high, low := data | en, data & !en;
      PulseWords(Wiring(), data, high, low);
      words := [high] + [low];
      var r1 := I2cWrite(high);
      label mid:
      var r2 := I2cWrite(low);
      OutcomeThen(old@mid(bus.failed), old@mid(bus.sent), old@mid(shadow), bus.failed, bus.sent, shadow,
                  old(bus.initialized), addr, dirMask, old(bus.sent), old(shadow), [high], [low]);
    }

    /** The loop of `write4bits`: data pin `i` is raised for every set bit
        `i` of the nibble. */
    method MapPins(value: byte) returns (pinMapValue: byte)
      requires |dataPins| == 4
      ensures pinMapValue == PinMap(value, dataPins)
    {
      pinMapValue := 0;
      var v := value;
      for i := 0 to 4
        invariant v == value >> i
        invariant pinMapValue == MapBits(value, dataPins, i)
      {
        MapBitsNext(value, dataPins, i, v, pinMapValue);
        if v & 1 == 1 {
          pinMapValue := pinMapValue | dataPins[i];
        }
        v := v >> 1;
      }
    }

    /** `write4bits`: the data pins of the nibble; RS joins for data, and
        the backlight level always; the word is then pulsed. */
    method Write4Bits(value: byte, mode: byte) returns (ghost words: seq<byte>)
      requires Valid()
      modifies this, bus
      ensures Valid() && Setup() == old(Setup())
      ensures bus.initialized == old(bus.initialized) && (old(bus.failed) ==> bus.failed)
      ensures words == Nibble(old(Wiring()), value, mode)
      ensures Emitted(old(bus.initialized), old(bus.sent), old(shadow), words)
    {
      var pinMapValue := MapPins(value);
      var m := mode;
      if m == LCD_DATA {
        m := rs;
      }
      pinMapValue := pinMapValue | m | backlightStsMask;
      NibbleWord(Wiring(), value, mode, pinMapValue);
      words := PulseEnable(pinMapValue);
    }

    /** `sendLCD`: in FOUR_BITS mode the low nibble alone, as a command;
        otherwise the high nibble, then the low nibble, in `mode`. */
    method SendLcd(value: byte, mode: byte) returns (ghost words: seq<byte>)
      requires Valid()
      modifies this, bus
      ensures Valid() && Setup() == old(Setup())
      ensures bus.initialized == old(bus.initialized) && (old(bus.failed) ==> bus.failed)
      ensures words == SendWords(old(Wiring()), value, mode)
      ensures Emitted(old(bus.initialized), old(bus.sent), old(shadow), words)
    {
      var high, low := value >> 4, value & 0x0F;
      SendWordsSplit(Wiring(), value, mode, high, low);
      if mode == FOUR_BITS {
        words := Write4Bits(low, COMMAND);
      } else {
        words := Write4Bits(high, mode);
        label mid:
        ghost var second := Write4Bits(low, mode);
        OutcomeThen(old@mid(bus.failed), old@mid(bus.sent), old@mid(shadow), bus.failed, bus.sent, shadow,
                    old(bus.initialized), addr, dirMask, old(bus.sent), old(shadow), words, second);
        words := words + second;
      }
    }

    /** `command`: one byte for the instruction register. */
    method Command(value: byte) returns (ghost words: seq<byte>)
      requires Valid()
      modifies this, bus
      ensures Wiring() == old(Wiring())
      ensures Valid() && Setup() == old(Setup())
      ensures bus.initialized == old(bus.initialized) && (old(bus.failed) ==> bus.failed)
      ensures words == Words(old(Wiring()), [Cmd(value)])
      ensures Emitted(old(bus.initialized), old(bus.sent), old(shadow), words)
    {
      WordsOne(Wiring(), value);
      words := SendLcd(value, COMMAND);
    }

    /** `write`: one byte for the data register. */
    method Write(value: byte) returns (ghost words: seq<byte>)
      requires Valid()
      modifies this, bus
      ensures Valid() && Setup() == old(Setup())
      ensures bus.initialized == old(bus.initialized) && (old(bus.failed) ==> bus.failed)
      ensures words == Words(old(Wiring()), [Data(value)])
      ensures Emitted(old(bus.initialized), old(bus.sent), old(shadow), words)
    {
      WordsOne(Wiring(), value);
      words := SendLcd(value, LCD_DATA);
    }

    /** `clear`: the clear display instruction. */
    method Clear() returns (ghost words: seq<byte>)
      requires Valid()
      modifies this, bus
      ensures Valid() && Setup() == old(Setup())
      ensures bus.initialized == old(bus.initialized) && (old(bus.failed) ==> bus.failed)
      ensures words == Words(old(Wiring()), [Cmd(Encode(ClearDisplay))])
      ensures Emitted(old(bus.initialized), old(bus.sent), old(shadow), words)
    {
      words := Command(CLEARDISPLAY);
    }

    /** `home`: the return home instruction. */
    method Home() returns (ghost words: seq<byte>)
      requires Valid()
      modifies this, bus
      ensures Valid() && Setup() == old(Setup())
      ensures bus.initialized == old(bus.initialized) && (old(bus.failed) ==> bus.failed)
      ensures words == Words(old(Wiring()), [Cmd(Encode(ReturnHome))])
      ensures Emitted(old(bus.initialized), old(bus.sent), old(shadow), words)
    {
      words := Command(RETURNHOME);
    }

    /** `display`: the display control flags with the display switched on,
        sent as a display control instruction. */
    method Display() returns (ghost words: seq<byte>)
      requires Valid()
      modifies this, bus
      ensures Wiring() == old(Wiring())
      ensures Valid() && displaycontrol == old(displaycontrol) | DISPLAYON && Setup() == old(Setup()).(displaycontrol := displaycontrol)
      ensures bus.initialized == old(bus.initialized) && (old(bus.failed) ==> bus.failed)
      ensures words == Words(old(Wiring()), [Cmd(DISPLAYCONTROL | displaycontrol)])
      ensures Emitted(old(bus.initialized), old(bus.sent), old(shadow), words)
    {
      displaycontrol := displaycontrol | DISPLAYON;
      words := Command(DISPLAYCONTROL | displaycontrol);
    }

    /** `noDisplay`: the display control flags with the display switched off. */
    method NoDisplay() returns (ghost words: seq<byte>)
      requires Valid()
      modifies this, bus
      ensures Wiring() == old(Wiring())
      ensures Valid() && displaycontrol == Without(old(displaycontrol), DISPLAYON) && Setup() == old(Setup()).(displaycontrol := displaycontrol)
      ensures bus.initialized == old(bus.initialized) && (old(bus.failed) ==> bus.failed)
      ensures words == Words(old(Wiring()), [Cmd(DISPLAYCONTROL | displaycontrol)])
      ensures Emitted(old(bus.initialized), old(bus.sent), old(shadow), words)
    {
      displaycontrol := Without(displaycontrol, DISPLAYON);
      words := Command(DISPLAYCONTROL | displaycontrol);
    }

    /** `noCursor`: the underline cursor switched off. */
    method NoCursor() returns (ghost words: seq<byte>)
      requires Valid()
      modifies this, bus
      ensures Valid() && displaycontrol == Without(old(displaycontrol), CURSORON) && Setup() == old(Setup()).(displaycontrol := displaycontrol)
      ensures bus.initialized == old(bus.initialized) && (old(bus.failed) ==> bus.failed)
      ensures words == Words(old(Wiring()), [Cmd(DISPLAYCONTROL | displaycontrol)])
      ensures Emitted(old(bus.initialized), old(bus.sent), old(shadow), words)
    {
      displaycontrol := Without(displaycontrol, CURSORON);
      words := Command(DISPLAYCONTROL | displaycontrol);
    }

    /** `cursor`: the underline cursor switched on. */
    method Cursor() returns (ghost words: seq<byte>)
      requires Valid()
      modifies this, bus
      ensures Valid() && displaycontrol == old(displaycontrol) | CURSORON && Setup() == old(Setup()).(displaycontrol := displaycontrol)
      ensures bus.initialized == old(bus.initialized) && (old(bus.failed) ==> bus.failed)
      ensures words == Words(old(Wiring()), [Cmd(DISPLAYCONTROL | displaycontrol)])
      ensures Emitted(old(bus.initialized), old(bus.sent), old(shadow), words)
    {
      displaycontrol := displaycontrol | CURSORON;
      words := Command(DISPLAYCONTROL | displaycontrol);
    }

    /** `noBlink`: the blinking cursor switched off. */
    method NoBlink() returns (ghost words: seq<byte>)
      requires Valid()
      modifies this, bus
      ensures Valid() && displaycontrol == Without(old(displaycontrol), BLINKON) && Setup() == old(Setup()).(displaycontrol := displaycontrol)
      ensures bus.initialized == old(bus.initialized) && (old(bus.failed) ==> bus.failed)
      ensures words == Words(old(Wiring()), [Cmd(DISPLAYCONTROL | displaycontrol)])
      ensures Emitted(old(bus.initialized), old(bus.sent), old(shadow), words)
    {
      displaycontrol := Without(displaycontrol, BLINKON);
      words := Command(DISPLAYCONTROL | displaycontrol);
    }

    /** `blink`: the blinking cursor switched on. */
    method Blink() returns (ghost words: seq<byte>)
      requires Valid()
      modifies this, bus
      ensures Valid() && displaycontrol == old(displaycontrol) | BLINKON && Setup() == old(Setup()).(displaycontrol := displaycontrol)
      ensures bus.initialized == old(bus.initialized) && (old(bus.failed) ==> bus.failed)
      ensures words == Words(old(Wiring()), [Cmd(DISPLAYCONTROL | displaycontrol)])
      ensures Emitted(old(bus.initialized), old(bus.sent), old(shadow), words)
    {
      displaycontrol := displaycontrol | BLINKON;
      words := Command(DISPLAYCONTROL | displaycontrol);
    }

    /** `scrollDisplayLeft`: the display moves one place left; the display RAM stays as it is. */
    method ScrollDisplayLeft() returns (ghost words: seq<byte>)
      requires Valid()
      modifies this, bus
      ensures Valid() && Setup() == old(Setup())
      ensures bus.initialized == old(bus.initialized) && (old(bus.failed) ==> bus.failed)
      ensures words == Words(old(Wiring()), [Cmd(Encode(CursorShift(true, false)))])
      ensures Emitted(old(bus.initialized), old(bus.sent), old(shadow), words)
    {
      CursorShiftCodes();
      words := Command(CURSORSHIFT | DISPLAYMOVE | MOVELEFT);
    }

    /** `scrollDisplayRight`: the display moves one place right. */
    method ScrollDisplayRight() returns (ghost words: seq<byte>)
      requires Valid()
      modifies this, bus
      ensures Valid() && Setup() == old(Setup())
      ensures bus.initialized == old(bus.initialized) && (old(bus.failed) ==> bus.failed)
      ensures words == Words(old(Wiring()), [Cmd(Encode(CursorShift(true, true)))])
      ensures Emitted(old(bus.initialized), old(bus.sent), old(shadow), words)
    {
      CursorShiftCodes();
      words := Command(CURSORSHIFT | DISPLAYMOVE | MOVERIGHT);
    }

    /** `leftToRight`: text flows from left to right: the address increments. */
    method LeftToRight() returns (ghost words: seq<byte>)
      requires Valid()
      modifies this, bus
      ensures Valid() && displaymode == old(displaymode) | ENTRYLEFT && Setup() == old(Setup()).(displaymode := displaymode)
      ensures bus.initialized == old(bus.initialized) && (old(bus.failed) ==> bus.failed)
      ensures words == Words(old(Wiring()), [Cmd(ENTRYMODESET | displaymode)])
      ensures Emitted(old(bus.initialized), old(bus.sent), old(shadow), words)
    {
      displaymode := displaymode | ENTRYLEFT;
      words := Command(ENTRYMODESET | displaymode);
    }

    /** `rightToLeft`: text flows from right to left: the address decrements. */
    method RightToLeft() returns (ghost words: seq<byte>)
      requires Valid()
      modifies this, bus
      ensures Valid() && displaymode == Without(old(displaymode), ENTRYLEFT) && Setup() == old(Setup()).(displaymode := displaymode)
      ensures bus.initialized == old(bus.initialized) && (old(bus.failed) ==> bus.failed)
      ensures words == Words(old(Wiring()), [Cmd(ENTRYMODESET | displaymode)])
      ensures Emitted(old(bus.initialized), old(bus.sent), old(shadow), words)
    {
      displaymode := Without(displaymode, ENTRYLEFT);
      words := Command(ENTRYMODESET | displaymode);
    }

    /** `moveCursorRight`: the cursor moves one place right. */
    method MoveCursorRight() returns (ghost words: seq<byte>)
      requires Valid()
      modifies this, bus
      ensures Valid() && Setup() == old(Setup())
      ensures bus.initialized == old(bus.initialized) && (old(bus.failed) ==> bus.failed)
      ensures words == Words(old(Wiring()), [Cmd(Encode(CursorShift(false, true)))])
      ensures Emitted(old(bus.initialized), old(bus.sent), old(shadow), words)
    {
      CursorShiftCodes();
      words := Command(CURSORSHIFT | CURSORMOVE | MOVERIGHT);
    }

    /** `moveCursorLeft`: the cursor moves one place left. */
    method MoveCursorLeft() returns (ghost words: seq<byte>)
      requires Valid()
      modifies this, bus
      ensures Valid() && Setup() == old(Setup())
      ensures bus.initialized == old(bus.initialized) && (old(bus.failed) ==> bus.failed)
      ensures words == Words(old(Wiring()), [Cmd(Encode(CursorShift(false, false)))])
      ensures Emitted(old(bus.initialized), old(bus.sent), old(shadow), words)
    {
      CursorShiftCodes();
      words := Command(CURSORSHIFT | CURSORMOVE | MOVELEFT);
    }

    /** `autoscroll`: each new character shifts the display, right-justifying text at the cursor. */
    method Autoscroll() returns (ghost words: seq<byte>)
      requires Valid()
      modifies this, bus
      ensures Valid() && displaymode == old(displaymode) | ENTRYSHIFTINCREMENT && Setup() == old(Setup()).(displaymode := displaymode)
      ensures bus.initialized == old(bus.initialized) && (old(bus.failed) ==> bus.failed)
      ensures words == Words(old(Wiring()), [Cmd(ENTRYMODESET | displaymode)])
      ensures Emitted(old(bus.initialized), old(bus.sent), old(shadow), words)
    {
      displaymode := displaymode | ENTRYSHIFTINCREMENT;
      words := Command(ENTRYMODESET | displaymode);
    }

    /** `noAutoscroll`: the display stays put, left-justifying text at the cursor. */
    method NoAutoscroll() returns (ghost words: seq<byte>)
      requires Valid()
      modifies this, bus
      ensures Valid() && displaymode == Without(old(displaymode), ENTRYSHIFTINCREMENT) && Setup() == old(Setup()).(displaymode := displaymode)
      ensures bus.initialized == old(bus.initialized) && (old(bus.failed) ==> bus.failed)
      ensures words == Words(old(Wiring()), [Cmd(ENTRYMODESET | displaymode)])
      ensures Emitted(old(bus.initialized), old(bus.sent), old(shadow), words)
    {
      displaymode := Without(displaymode, ENTRYSHIFTINCREMENT);
      words := Command(ENTRYMODESET | displaymode);
    }

    /** `setCursor`: the set address instruction for the cell, the row
        clamped to the last line. The clamped row must index the offset
        table. */
    method SetCursor(col: byte, row: byte) returns (ghost words: seq<byte>)
      requires Valid() && ClampRow(row, numlines) < 4
      modifies this, bus
      ensures Valid() && Setup() == old(Setup())
      ensures bus.initialized == old(bus.initialized) && (old(bus.failed) ==> bus.failed)
      ensures words == Words(old(Wiring()), [Cmd(Encode(SetDdramAddress(CursorAddress(col, row, cols, numlines))))])
      ensures Emitted(old(bus.initialized), old(bus.sent), old(shadow), words)
    {
      var r := row;
      if r >= numlines {
        r := numlines - 1;
      }
      var offsets := if cols == 16 && numlines == 4 then RowOffsetsLarge else RowOffsets;
      var address := col + offsets[r];
      assert SETDDRAMADDR | address == Encode(SetDdramAddress(CursorAddress(col, row, cols, numlines)));
      words := Command(SETDDRAMADDR | address);
    }

    /** `setBacklight`: without a backlight pin nothing happens; otherwise
        the status mask becomes the pin at the level the polarity and the
        value call for, and is written to the expander. */
    method SetBacklight(value: byte) returns (ghost words: seq<byte>)
      requires Valid()
      modifies this, bus
      ensures Valid()
      ensures backlightStsMask == (if backlightPinMask == 0 then old(backlightStsMask)
                                   else BacklightMask(backlightPinMask, polarity, value, lightOn, lightOff))
      ensures Setup() == old(Setup()).(backlightStsMask := backlightStsMask)
      ensures bus.initialized == old(bus.initialized) && (old(bus.failed) ==> bus.failed)
      ensures words == BacklightWords(backlightPinMask, backlightStsMask)
      ensures Emitted(old(bus.initialized), old(bus.sent), old(shadow), words)
    {
      if backlightPinMask != 0 {
        var mask := BacklightMask(backlightPinMask, polarity, value, lightOn, lightOff);
        backlightStsMask := mask;
        var ok := I2cWrite(mask);
        words := [mask];
      } else {
        words := [];
      }
    }

    /** `backlight`: `setBacklight(BACKLIGHT_ON)`. */
    method Backlight() returns (ghost words: seq<byte>)
      requires Valid()
      modifies this, bus
      ensures Valid()
      ensures backlightStsMask == (if backlightPinMask == 0 then old(backlightStsMask)
                                   else BacklightMask(backlightPinMask, polarity, BACKLIGHT_ON, lightOn, lightOff))
      ensures Setup() == old(Setup()).(backlightStsMask := backlightStsMask)
      ensures bus.initialized == old(bus.initialized) && (old(bus.failed) ==> bus.failed)
      ensures words == BacklightWords(backlightPinMask, backlightStsMask)
      ensures Emitted(old(bus.initialized), old(bus.sent), old(shadow), words)
    {
      words := SetBacklight(BACKLIGHT_ON);
    }

    /** `noBacklight`: `setBacklight(BACKLIGHT_OFF)`. */
    method NoBacklight() returns (ghost words: seq<byte>)
      requires Valid()
      modifies this, bus
      ensures Valid()
      ensures backlightStsMask == (if backlightPinMask == 0 then old(backlightStsMask)
                                   else BacklightMask(backlightPinMask, polarity, BACKLIGHT_OFF, lightOn, lightOff))
      ensures Setup() == old(Setup()).(backlightStsMask := backlightStsMask)
      ensures bus.initialized == old(bus.initialized) && (old(bus.failed) ==> bus.failed)
      ensures words == BacklightWords(backlightPinMask, backlightStsMask)
      ensures Emitted(old(bus.initialized), old(bus.sent), old(shadow), words)
    {
      words := SetBacklight(BACKLIGHT_OFF);
    }

    /** `on`: the display, then the backlight, switched on. */
    method On() returns (ghost words: seq<byte>)
      requires Valid()
      modifies this, bus
      ensures Valid() && displaycontrol == old(displaycontrol) | DISPLAYON
      ensures backlightStsMask == (if backlightPinMask == 0 then old(backlightStsMask)
                                   else BacklightMask(backlightPinMask, polarity, BACKLIGHT_ON, lightOn, lightOff))
      ensures Setup() == old(Setup()).(displaycontrol := displaycontrol, backlightStsMask := backlightStsMask)
      ensures bus.initialized == old(bus.initialized) && (old(bus.failed) ==> bus.failed)
      ensures words == Words(old(Wiring()), [Cmd(DISPLAYCONTROL | displaycontrol)])
                       + BacklightWords(backlightPinMask, backlightStsMask)
      ensures Emitted(old(bus.initialized), old(bus.sent), old(shadow), words)
    {
      words := Display();
      label mid:
      ghost var second := Backlight();
      OutcomeThen(old@mid(bus.failed), old@mid(bus.sent), old@mid(shadow), bus.failed, bus.sent, shadow,
                  old(bus.initialized), addr, dirMask, old(bus.sent), old(shadow), words, second);
      words := words + second;
    }

    /** `off`: the backlight, then the display, switched off. */
    method Off() returns (ghost words: seq<byte>)
      requires Valid()
      modifies this, bus
      ensures Valid() && displaycontrol == Without(old(displaycontrol), DISPLAYON)
      ensures backlightStsMask == (if backlightPinMask == 0 then old(backlightStsMask)
                                   else BacklightMask(backlightPinMask, polarity, BACKLIGHT_OFF, lightOn, lightOff))
      ensures Setup() == old(Setup()).(displaycontrol := displaycontrol, backlightStsMask := backlightStsMask)
      ensures bus.initialized == old(bus.initialized) && (old(bus.failed) ==> bus.failed)
      ensures words == BacklightWords(backlightPinMask, backlightStsMask)
                       + Words(Wiring(), [Cmd(DISPLAYCONTROL | displaycontrol)])
      ensures Emitted(old(bus.initialized), old(bus.sent), old(shadow), words)
    {
      words := NoBacklight();
      label mid:
      ghost var second := NoDisplay();
      OutcomeThen(old@mid(bus.failed), old@mid(bus.sent), old@mid(shadow), bus.failed, bus.sent, shadow,
                  old(bus.initialized), addr, dirMask, old(bus.sent), old(shadow), words, second);
      words := words + second;
    }

    /** The loop of `createChar`: the eight rows of a glyph, in order, as
        data. */
    method WriteRows(charmap: array<byte>) returns (ghost words: seq<byte>)
      requires Valid() && charmap.Length >= 8
      modifies this, bus
      ensures Valid() && Setup() == old(Setup())
      ensures bus.initialized == old(bus.initialized) && (old(bus.failed) ==> bus.failed)
      ensures words == Words(old(Wiring()), DataRun(charmap[..8]))
      ensures Emitted(old(bus.initialized), old(bus.sent), old(shadow), words)
    {
      ghost var glyph := charmap[..8];
      words := [];
      for i := 0 to 8
        invariant Valid() && Setup() == old(Setup())
        invariant bus.initialized == old(bus.initialized) && (old(bus.failed) ==> bus.failed)
        invariant words == Words(old(Wiring()), DataRun(glyph[..i]))
        invariant Emitted(old(bus.initialized), old(bus.sent), old(shadow), words)
      {
        label step:
        ghost var row := Write(charmap[i]);
        OutcomeThen(old@step(bus.failed), old@step(bus.sent), old@step(shadow), bus.failed, bus.sent, shadow,
                    old(bus.initialized), addr, dirMask, old(bus.sent), old(shadow), words, row);
        WordsDataNext(old(Wiring()), glyph, i);
        words := words + row;
      }
      assert glyph[..8] == glyph;
    }

    /** `createChar`: the location is cut to the eight glyphs; the set
        character generator address instruction for the glyph is followed
        by its eight rows of pixels, as data. */
    method CreateChar(location: byte, charmap: array<byte>) returns (ghost words: seq<byte>)
      requires Valid() && charmap.Length >= 8
      modifies this, bus
      ensures Valid() && Setup() == old(Setup())
      ensures bus.initialized == old(bus.initialized) && (old(bus.failed) ==> bus.failed)
      ensures words == Words(old(Wiring()), [Cmd(Encode(SetCgramAddress((location & 7) << 3)))] + DataRun(charmap[..8]))
      ensures Emitted(old(bus.initialized), old(bus.sent), old(shadow), words)
    {
      var loc := location & 0x7;
      assert SETCGRAMADDR | (loc << 3) == Encode(SetCgramAddress((location & 7) << 3));
      words := Command(SETCGRAMADDR | (loc << 3));
      label mid:
      ghost var rows := WriteRows(charmap);
      OutcomeThen(old@mid(bus.failed), old@mid(bus.sent), old@mid(shadow), bus.failed, bus.sent, shadow,
                  old(bus.initialized), addr, dirMask, old(bus.sent), old(shadow), words, rows);
      WordsAppend(Wiring(), [Cmd(SETCGRAMADDR | (loc << 3))], DataRun(charmap[..8]));
      words := words + rows;
    }

    /** `init`: every expander pin becomes an output, the function flags
        start from 4-bit mode, one line and the small font, and the whole
        port is driven low. Always reports 1. */
    method Init() returns (status: int, ghost words: seq<byte>)
      requires Valid()
      modifies this, bus
      ensures Valid() && status == 1
      ensures Setup() == old(Setup()).(dirMask := 0, displayfunction := FOURBITMODE | ONELINE | DOTS5x8)
      ensures bus.initialized == old(bus.initialized) && (old(bus.failed) ==> bus.failed)
      ensures words == [0] && (bus.initialized ==> shadow == 0)
      ensures Emitted(old(bus.initialized), old(bus.sent), old(shadow), words)
    {
      dirMask := 0x00;
      displayfunction := FOURBITMODE | ONELINE | DOTS5x8;
      status := 1;
      var ok := I2cWrite(0);
      words := [0];
    }

    /** `config`: the expander address and the masks of the pins, no
        backlight pin yet, the backlight status at the "off" level and
        positive polarity. Nothing is written. */
    method Config(lcdAddr: byte, enPin: byte, rwPin: byte, rsPin: byte, d4: byte, d5: byte, d6: byte, d7: byte)
      requires Valid()
      modifies this`addr, this`backlightPinMask, this`backlightStsMask, this`polarity
      modifies this`en, this`rw, this`rs, this`dataPins
      ensures Valid()
      ensures addr == lcdAddr && backlightPinMask == 0 && backlightStsMask == lightOff && polarity == Positive
      ensures en == PinMask(enPin) && rw == PinMask(rwPin) && rs == PinMask(rsPin)
      ensures dataPins == [PinMask(d4), PinMask(d5), PinMask(d6), PinMask(d7)]
    {
      addr := lcdAddr;
      backlightPinMask := 0;
      backlightStsMask := lightOff;
      polarity := Positive;
      en := PinMask(enPin);
      rw := PinMask(rwPin);
      rs := PinMask(rsPin);
      dataPins := [PinMask(d4), PinMask(d5), PinMask(d6), PinMask(d7)];
    }

    /** `setBacklightPin`: the backlight pin and its polarity, then the
        backlight switched off. */
    method SetBacklightPin(value: byte, pol: Polarity) returns (ghost words: seq<byte>)
      requires Valid()
      modifies this, bus
      ensures Valid() && backlightPinMask == PinMask(value) && polarity == pol
      ensures backlightStsMask == (if backlightPinMask == 0 then old(backlightStsMask)
                                   else BacklightMask(backlightPinMask, pol, BACKLIGHT_OFF, lightOn, lightOff))
      ensures Setup() == old(Setup()).(backlightPinMask := backlightPinMask, polarity := pol, backlightStsMask := backlightStsMask)
      ensures bus.initialized == old(bus.initialized) && (old(bus.failed) ==> bus.failed)
      ensures words == BacklightWords(backlightPinMask, backlightStsMask)
      ensures Emitted(old(bus.initialized), old(bus.sent), old(shadow), words)
    {
      backlightPinMask := PinMask(value);
      polarity := pol;
      words := SetBacklight(BACKLIGHT_OFF);
    }

    /** `initLCD`: `config`, then `setBacklightPin`. */
    method InitLcd(lcdAddr: byte, enPin: byte, rwPin: byte, rsPin: byte, d4: byte, d5: byte, d6: byte, d7: byte,
                   backlightPin: byte, pol: Polarity) returns (ghost words: seq<byte>)
      requires Valid()
      modifies this, bus
      ensures Valid()
      ensures backlightStsMask == (if PinMask(backlightPin) == 0 then lightOff
                                   else BacklightMask(PinMask(backlightPin), pol, BACKLIGHT_OFF, lightOn, lightOff))
      ensures Setup() == old(Setup()).(addr := lcdAddr, backlightPinMask := PinMask(backlightPin), backlightStsMask := backlightStsMask,
                                       polarity := pol, en := PinMask(enPin), rw := PinMask(rwPin), rs := PinMask(rsPin),
                                       dataPins := [PinMask(d4), PinMask(d5), PinMask(d6), PinMask(d7)])
      ensures bus.initialized == old(bus.initialized) && (old(bus.failed) ==> bus.failed)
      ensures words == BacklightWords(PinMask(backlightPin), backlightStsMask)
      ensures Emitted(old(bus.initialized), old(bus.sent), old(shadow), words)
    {
      Config(lcdAddr, enPin, rwPin, rsPin, d4, d5, d6, d7);
      words := SetBacklightPin(backlightPin, pol);
    }

    /** The start of `begin`: `init`, then the line count, the columns and
        the function flags for them. */
    method BeginSetup(cols: byte, lines: byte, dotsize: byte) returns (ghost words: seq<byte>)
      requires Valid()
      modifies this, bus
      ensures Valid()
      ensures Setup() == old(Setup()).(dirMask := 0, displayfunction := BeginFunction(lines, dotsize), numlines := lines, cols := cols)
      ensures bus.initialized == old(bus.initialized) && (old(bus.failed) ==> bus.failed)
      ensures words == [0]
      ensures Emitted(old(bus.initialized), old(bus.sent), old(shadow), words)
    {
      var status;
      status, words := Init();
      Geometry(cols, lines, dotsize);
    }

    /** The settings `begin` makes after `init`: two lines when more than
        one is asked for, the tall font for a single line when a font other
        than the small one is asked for, and the line count and columns. */
    method Geometry(cols: byte, lines: byte, dotsize: byte)
      requires displayfunction == FOURBITMODE | ONELINE | DOTS5x8
      modifies this
      ensures shadow == old(shadow)
      ensures Setup() == old(Setup()).(displayfunction := BeginFunction(lines, dotsize), numlines := lines, cols := cols)
    {
      if lines > 1 {
        displayfunction := displayfunction | TWOLINE;
      }
      numlines := lines;
      this.cols := cols;
      if dotsize != DOTS5x8 && lines == 1 {
        displayfunction := displayfunction | DOTS5x10;
      }
    }

    /** Two lone nibbles in FOUR_BITS mode. */
    method SendNibbles(a: byte, b: byte) returns (ghost words: seq<byte>)
      requires Valid()
      modifies this, bus
      ensures Valid() && Setup() == old(Setup())
      ensures bus.initialized == old(bus.initialized) && (old(bus.failed) ==> bus.failed)
      ensures words == SendWords(old(Wiring()), a, FOUR_BITS) + SendWords(old(Wiring()), b, FOUR_BITS)
      ensures Emitted(old(bus.initialized), old(bus.sent), old(shadow), words)
    {
      words := SendLcd(a, FOUR_BITS);
      label mid:
      ghost var second := SendLcd(b, FOUR_BITS);
      OutcomeThen(old@mid(bus.failed), old@mid(bus.sent), old@mid(shadow), bus.failed, bus.sent, shadow,
                  old(bus.initialized), addr, dirMask, old(bus.sent), old(shadow), words, second);
      words := words + second;
    }

    /** The 4-bit branch of `begin`: the nibbles 3, 3, 3 and 2 that bring
        the controller from 8-bit to 4-bit mode. */
    method WakeUp() returns (ghost words: seq<byte>)
      requires Valid()
      modifies this, bus
      ensures Valid() && Setup() == old(Setup())
      ensures bus.initialized == old(bus.initialized) && (old(bus.failed) ==> bus.failed)
      ensures words == WakeUpWords(old(Wiring()))
      ensures Emitted(old(bus.initialized), old(bus.sent), old(shadow), words)
    {
      words := SendNibbles(3, 3);
      label mid:
      ghost var second := SendNibbles(3, 2);
      OutcomeThen(old@mid(bus.failed), old@mid(bus.sent), old@mid(shadow), bus.failed, bus.sent, shadow,
                  old(bus.initialized), addr, dirMask, old(bus.sent), old(shadow), words, second);
      Seqs.Assoc(SendWords(Wiring(), 3, FOUR_BITS) + SendWords(Wiring(), 3, FOUR_BITS),
                 SendWords(Wiring(), 3, FOUR_BITS), SendWords(Wiring(), 2, FOUR_BITS));
      words := words + second;
    }

    /** The opening of `begin`: the setup, then the wake-up for 4-bit mode.
        The flags `begin` settles on never ask for 8-bit mode, so its 8-bit
        branch cannot be taken. */
    method BeginStart(cols: byte, lines: byte, dotsize: byte) returns (ghost words: seq<byte>)
      requires Valid()
      modifies this, bus
      ensures Valid()
      ensures Setup() == old(Setup()).(dirMask := 0, displayfunction := BeginFunction(lines, dotsize), numlines := lines, cols := cols)
      ensures bus.initialized == old(bus.initialized) && (old(bus.failed) ==> bus.failed)
      ensures words == [0] + WakeUpWords(old(Wiring()))
      ensures Emitted(old(bus.initialized), old(bus.sent), old(shadow), words)
    {
      words := BeginSetup(cols, lines, dotsize);
      BeginFunctionSet(lines, dotsize);
      if displayfunction & EIGHTBITMODE == 0 {
        label mid:
        ghost var second := WakeUp();
        OutcomeThen(old@mid(bus.failed), old@mid(bus.sent), old@mid(shadow), bus.failed, bus.sent, shadow,
                    old(bus.initialized), addr, dirMask, old(bus.sent), old(shadow), words, second);
        words := words + second;
      } else {
        assert false;
      }
    }

    /** The middle of `begin`: the function set with the flags settled on,
        then the display switched on with cursor and blinking off. */
    method BeginDisplay() returns (ghost words: seq<byte>)
      requires Valid()
      modifies this, bus
      ensures Valid() && displaycontrol == DISPLAYON | CURSOROFF | BLINKOFF
      ensures Setup() == old(Setup()).(displaycontrol := displaycontrol)
      ensures bus.initialized == old(bus.initialized) && (old(bus.failed) ==> bus.failed)
      ensures words == Words(old(Wiring()), [Cmd(FUNCTIONSET | old(displayfunction))])
                       + Words(old(Wiring()), [Cmd(DISPLAYCONTROL | (DISPLAYON | CURSOROFF | BLINKOFF))])
      ensures Emitted(old(bus.initialized), old(bus.sent), old(shadow), words)
    {
      words := Command(FUNCTIONSET | displayfunction);
      label mid:
      ghost var second := DisplayDefaults();
      OutcomeThen(old@mid(bus.failed), old@mid(bus.sent), old@mid(shadow), bus.failed, bus.sent, shadow,
                  old(bus.initialized), addr, dirMask, old(bus.sent), old(shadow), words, second);
      words := words + second;
    }

    /** The display control flags `begin` starts from, display on with
        cursor and blinking off, sent through `display`. */
    method DisplayDefaults() returns (ghost words: seq<byte>)
      requires Valid()
      modifies this, bus
      ensures Wiring() == old(Wiring())
      ensures Valid() && displaycontrol == DISPLAYON | CURSOROFF | BLINKOFF
      ensures Setup() == old(Setup()).(displaycontrol := displaycontrol)
      ensures bus.initialized == old(bus.initialized) && (old(bus.failed) ==> bus.failed)
      ensures words == Words(old(Wiring()), [Cmd(DISPLAYCONTROL | (DISPLAYON | CURSOROFF | BLINKOFF))])
      ensures Emitted(old(bus.initialized), old(bus.sent), old(shadow), words)
    {
      displaycontrol := DISPLAYON | CURSOROFF | BLINKOFF;
      words := Display();
    }

    /** The end of `begin` before the backlight: clear, then the entry mode
        for left-to-right text without shifting. */
    method BeginEntry() returns (ghost words: seq<byte>)
      requires Valid()
      modifies this, bus
      ensures Valid() && displaymode == ENTRYLEFT | ENTRYSHIFTDECREMENT
      ensures Setup() == old(Setup()).(displaymode := displaymode)
      ensures bus.initialized == old(bus.initialized) && (old(bus.failed) ==> bus.failed)
      ensures words == Words(old(Wiring()), [Cmd(CLEARDISPLAY)])
                       + Words(old(Wiring()), [Cmd(ENTRYMODESET | (ENTRYLEFT | ENTRYSHIFTDECREMENT))])
      ensures Emitted(old(bus.initialized), old(bus.sent), old(shadow), words)
    {
      words := Clear();
      label mid:
      displaymode := ENTRYLEFT | ENTRYSHIFTDECREMENT;
      ghost var second := Command(ENTRYMODESET | displaymode);
      OutcomeThen(old@mid(bus.failed), old@mid(bus.sent), old@mid(shadow), bus.failed, bus.sent, shadow,
                  old(bus.initialized), addr, dirMask, old(bus.sent), old(shadow), words, second);
      words := words + second;
    }

    /** `begin`'s instructions once the controller is in 4-bit mode. */
    method BeginInstructions() returns (ghost words: seq<byte>)
      requires Valid()
      modifies this, bus
      ensures Valid() && displaycontrol == DISPLAYON | CURSOROFF | BLINKOFF && displaymode == ENTRYLEFT | ENTRYSHIFTDECREMENT
      ensures Setup() == old(Setup()).(displaycontrol := displaycontrol, displaymode := displaymode)
      ensures bus.initialized == old(bus.initialized) && (old(bus.failed) ==> bus.failed)
      ensures words == BeginWords(old(Wiring()), displayfunction)
      ensures Emitted(old(bus.initialized), old(bus.sent), old(shadow), words)
    {
      words := BeginDisplay();
      DisplayWordsSplit(Wiring(), displayfunction, words);
      label mid:
      ghost var second := BeginEntry();
      EntryWordsSplit(Wiring(), second);
      OutcomeThen(old@mid(bus.failed), old@mid(bus.sent), old@mid(shadow), bus.failed, bus.sent, shadow,
                  old(bus.initialized), addr, dirMask, old(bus.sent), old(shadow), words, second);
      words := words + second;
    }

    /** The end of `begin`: its instructions in 4-bit mode, then the
        backlight switched on. */
    method BeginFinish() returns (ghost words: seq<byte>)
      requires Valid()
      modifies this, bus
      ensures Valid() && displaycontrol == DISPLAYON | CURSOROFF | BLINKOFF && displaymode == ENTRYLEFT | ENTRYSHIFTDECREMENT
      ensures backlightStsMask == (if backlightPinMask == 0 then old(backlightStsMask)
                                   else BacklightMask(backlightPinMask, polarity, BACKLIGHT_ON, lightOn, lightOff))
      ensures Setup() == old(Setup()).(displaycontrol := displaycontrol, displaymode := displaymode, backlightStsMask := backlightStsMask)
      ensures bus.initialized == old(bus.initialized) && (old(bus.failed) ==> bus.failed)
      ensures words == BeginWords(old(Wiring()), displayfunction) + BacklightWords(backlightPinMask, backlightStsMask)
      ensures Emitted(old(bus.initialized), old(bus.sent), old(shadow), words)
    {
      words := BeginInstructions();
      label mid:
      ghost var second := Backlight();
      OutcomeThen(old@mid(bus.failed), old@mid(bus.sent), old@mid(shadow), bus.failed, bus.sent, shadow,
                  old(bus.initialized), addr, dirMask, old(bus.sent), old(shadow), words, second);
      words := words + second;
    }

    /** `begin`: `init` and the settings for the lines and the font, the
        wake-up into 4-bit mode, the function set, display on, clear, the
        entry mode, and the backlight switched on. */
    method Begin(cols: byte, lines: byte, dotsize: byte) returns (ghost words: seq<byte>)
      requires Valid()
      modifies this, bus
      ensures Valid()
      ensures backlightStsMask == (if backlightPinMask == 0 then old(backlightStsMask)
                                   else BacklightMask(backlightPinMask, polarity, BACKLIGHT_ON, lightOn, lightOff))
      ensures Setup() == old(Setup()).(dirMask := 0, displayfunction := BeginFunction(lines, dotsize), numlines := lines, cols := cols,
                                       displaycontrol := DISPLAYON | CURSOROFF | BLINKOFF,
                                       displaymode := ENTRYLEFT | ENTRYSHIFTDECREMENT, backlightStsMask := backlightStsMask)
      ensures bus.initialized == old(bus.initialized) && (old(bus.failed) ==> bus.failed)
      ensures words == ([0] + WakeUpWords(old(Wiring())))
                       + (BeginWords(old(Wiring()), BeginFunction(lines, dotsize)) + BacklightWords(backlightPinMask, backlightStsMask))
      ensures Emitted(old(bus.initialized), old(bus.sent), old(shadow), words)
    {
      words := BeginStart(cols, lines, dotsize);
      label started:
      ghost var rest := BeginFinish();
      OutcomeThen(old@started(bus.failed), old@started(bus.sent), old@started(shadow), bus.failed, bus.sent, shadow,
                  old(bus.initialized), addr, dirMask, old(bus.sent), old(shadow), words, rest);
      words := words + rest;
    }
  }
}
