/** The HD44780 instruction set as the LCD driver names it: command codes,
    their flag groups, the send modes, and the controller's reading of an
    instruction byte. */
module LcdCodes {
  import opened Bytes

  /** `_BV(bit)`: the byte with only bit `bit` set. */
  function BV(bit: nat): (r: byte)
    requires bit < 8
    ensures r != 0 && r & (r - 1) == 0
    ensures r >> bit == 1
  {
    1 << bit
  }

  // Commands.
  const CLEARDISPLAY: byte := 0x01
  const RETURNHOME: byte := 0x02
  const ENTRYMODESET: byte := 0x04
  const DISPLAYCONTROL: byte := 0x08
  const CURSORSHIFT: byte := 0x10
  const FUNCTIONSET: byte := 0x20
  const SETCGRAMADDR: byte := 0x40
  const SETDDRAMADDR: byte := 0x80

  /** `f &= ~flag`: the flags `f` with `flag` cleared. */
  function Without(f: byte, flag: byte): byte
  {
    f & !flag
  }

  /** The eight commands, ordered by their bit. */
  const Commands: seq<byte> :=
    [CLEARDISPLAY, RETURNHOME, ENTRYMODESET, DISPLAYCONTROL, CURSORSHIFT, FUNCTIONSET, SETCGRAMADDR, SETDDRAMADDR]

  // Entry mode flags.
  const ENTRYRIGHT: byte := 0x00
  const ENTRYLEFT: byte := 0x02
  const ENTRYSHIFTINCREMENT: byte := 0x01
  const ENTRYSHIFTDECREMENT: byte := 0x00

  // Display on/off control flags.
  const DISPLAYON: byte := 0x04
  const DISPLAYOFF: byte := 0x00
  const CURSORON: byte := 0x02
  const CURSOROFF: byte := 0x00
  const BLINKON: byte := 0x01
  const BLINKOFF: byte := 0x00

  // Cursor or display shift flags.
  const DISPLAYMOVE: byte := 0x08
  const CURSORMOVE: byte := 0x00
  const MOVERIGHT: byte := 0x04
  const MOVELEFT: byte := 0x00

  // Function set flags.
  const EIGHTBITMODE: byte := 0x10
  const FOURBITMODE: byte := 0x00
  const TWOLINE: byte := 0x08
  const ONELINE: byte := 0x00
  const DOTS5x10: byte := 0x04
  const DOTS5x8: byte := 0x00

  // How `sendLCD` treats its value.
  const COMMAND: byte := 0     // a byte for the instruction register
  const LCD_DATA: byte := 1    // a byte for the data register
  const FOUR_BITS: byte := 2   // a lone low nibble, while the controller is still in 8-bit mode

  // Arguments of `setBacklight`.
  const BACKLIGHT_OFF: byte := 0
  const BACKLIGHT_ON: byte := 255

  /** Whether the backlight transistor switches on with a high or a low pin. */
  datatype Polarity = Positive | Negative

  /** Each command is the single bit its position names, so no two commands
      share a code. */
  lemma CommandsAreSingleBits()
    ensures forall k :: 0 <= k < |Commands| ==> Commands[k] == BV(k)
    ensures forall i, j :: 0 <= i < j < |Commands| ==> Commands[i] != Commands[j]
  {
    assert Commands[0] == BV(0) && Commands[1] == BV(1) && Commands[2] == BV(2) && Commands[3] == BV(3);
    assert Commands[4] == BV(4) && Commands[5] == BV(5) && Commands[6] == BV(6) && Commands[7] == BV(7);
  }

  /** Every flag of a group lies strictly below its command bit, and the
      "on" flags of a group are distinct single bits. */
  lemma FlagsBelowCommands()
    ensures ENTRYLEFT | ENTRYSHIFTINCREMENT < ENTRYMODESET && ENTRYLEFT & ENTRYSHIFTINCREMENT == 0
    ensures DISPLAYON | CURSORON | BLINKON < DISPLAYCONTROL
    ensures DISPLAYON & CURSORON == 0 && DISPLAYON & BLINKON == 0 && CURSORON & BLINKON == 0
    ensures DISPLAYMOVE | MOVERIGHT < CURSORSHIFT && DISPLAYMOVE & MOVERIGHT == 0
    ensures EIGHTBITMODE | TWOLINE | DOTS5x10 < FUNCTIONSET
    ensures EIGHTBITMODE & TWOLINE == 0 && EIGHTBITMODE & DOTS5x10 == 0 && TWOLINE & DOTS5x10 == 0
    ensures ENTRYRIGHT == ENTRYSHIFTDECREMENT == DISPLAYOFF == CURSOROFF == BLINKOFF == 0
    ensures CURSORMOVE == MOVELEFT == FOURBITMODE == ONELINE == DOTS5x8 == 0
  {
  }

  /** The three send modes are distinct. */
  lemma SendModesDistinct()
    ensures COMMAND != LCD_DATA && COMMAND != FOUR_BITS && LCD_DATA != FOUR_BITS
  {
  }

  /** An HD44780 instruction, as the controller reads an instruction byte. */
  datatype Instruction =
    | ClearDisplay
    | ReturnHome
    | EntryModeSet(increment: bool, shift: bool)
    | DisplayControl(display: bool, cursor: bool, blink: bool)
    | CursorShift(displayMove: bool, right: bool)
    | FunctionSet(eightBit: bool, twoLine: bool, tallFont: bool)
    | SetCgramAddress(cgram: byte)    // 6-bit address
    | SetDdramAddress(ddram: byte)    // 7-bit address

  /** The instruction table: the highest set bit selects the instruction and
      the bits below it are its arguments; bits marked "don't care" in the
      table are ignored. The zero byte is no instruction. */
  function Decode(b: byte): Option<Instruction>
  {
    if b & 0x80 != 0 then Some(SetDdramAddress(b & 0x7F))
    else if b & 0x40 != 0 then Some(SetCgramAddress(b & 0x3F))
    else if b & 0x20 != 0 then Some(FunctionSet(b & EIGHTBITMODE != 0, b & TWOLINE != 0, b & DOTS5x10 != 0))
    else if b & 0x10 != 0 then Some(CursorShift(b & DISPLAYMOVE != 0, b & MOVERIGHT != 0))
    else if b & 0x08 != 0 then Some(DisplayControl(b & DISPLAYON != 0, b & CURSORON != 0, b & BLINKON != 0))
    else if b & 0x04 != 0 then Some(EntryModeSet(b & ENTRYLEFT != 0, b & ENTRYSHIFTINCREMENT != 0))
    else if b & 0x02 != 0 then Some(ReturnHome)
    else if b & 0x01 != 0 then Some(ClearDisplay)
    else None
  }

  function Flag(on: bool, f: byte): byte
  {
    if on then f else 0
  }

  /** The instruction byte the driver builds for an instruction: the command
      ORed with the flags that are on. */
  function Encode(i: Instruction): byte
  {
    match i
    case ClearDisplay => CLEARDISPLAY
    case ReturnHome => RETURNHOME
    case EntryModeSet(inc, s) => ENTRYMODESET | Flag(inc, ENTRYLEFT) | Flag(s, ENTRYSHIFTINCREMENT)
    case DisplayControl(d, c, b) => DISPLAYCONTROL | Flag(d, DISPLAYON) | Flag(c, CURSORON) | Flag(b, BLINKON)
    case CursorShift(sc, r) => CURSORSHIFT | Flag(sc, DISPLAYMOVE) | Flag(r, MOVERIGHT)
    case FunctionSet(dl, n, f) => FUNCTIONSET | Flag(dl, EIGHTBITMODE) | Flag(n, TWOLINE) | Flag(f, DOTS5x10)
    case SetCgramAddress(a) => SETCGRAMADDR | a
    case SetDdramAddress(a) => SETDDRAMADDR | a
  }

  /** The driver's fixed shift commands are the four cursor or display
      shift instructions. */
  lemma CursorShiftCodes()
    ensures Encode(CursorShift(true, false)) == CURSORSHIFT | DISPLAYMOVE | MOVELEFT
    ensures Encode(CursorShift(true, true)) == CURSORSHIFT | DISPLAYMOVE | MOVERIGHT
    ensures Encode(CursorShift(false, true)) == CURSORSHIFT | CURSORMOVE | MOVERIGHT
    ensures Encode(CursorShift(false, false)) == CURSORSHIFT | CURSORMOVE | MOVELEFT
  {
  }

  /** Addresses fit their instruction's address field. */
  predicate WellFormed(i: Instruction)
  {
    match i
    case SetCgramAddress(a) => a < 0x40
    case SetDdramAddress(a) => a < 0x80
    case _ => true
  }

  /** The controller reads back every instruction the driver can build. */
  lemma DecodeEncode(i: Instruction)
    requires WellFormed(i)
    ensures Decode(Encode(i)) == Some(i)
  {
  }

  /** Conversely every nonzero byte is some instruction, and re-encoding it
      only clears the bits the table ignores. */
  lemma EncodeDecode(b: byte)
    ensures Decode(b).Some? <==> b != 0
    ensures Decode(b).Some? ==> WellFormed(Decode(b).value) && Encode(Decode(b).value) & b == Encode(Decode(b).value)
  {
  }

  /** ORing flags that stay below a command bit into the command never
      changes which instruction the controller executes: the display
      control byte carries exactly the flags of `f`. */
  lemma DisplayControlFlags(f: byte)
    requires f < DISPLAYCONTROL
    ensures Decode(DISPLAYCONTROL | f) == Some(DisplayControl(f & DISPLAYON != 0, f & CURSORON != 0, f & BLINKON != 0))
  {
  }

  /** The display, cursor and blink setters each switch one flag of the
      display control byte and keep the other two; the flags stay below the
      command bit, so the byte sent is always the instruction meant. */
  lemma DisplayControlSetters(f: byte)
    requires f < DISPLAYCONTROL
    ensures Decode(DISPLAYCONTROL | (f | DISPLAYON)) == Some(DisplayControl(true, f & CURSORON != 0, f & BLINKON != 0))
    ensures Decode(DISPLAYCONTROL | Without(f, DISPLAYON)) == Some(DisplayControl(false, f & CURSORON != 0, f & BLINKON != 0))
    ensures Decode(DISPLAYCONTROL | (f | CURSORON)) == Some(DisplayControl(f & DISPLAYON != 0, true, f & BLINKON != 0))
    ensures Decode(DISPLAYCONTROL | Without(f, CURSORON)) == Some(DisplayControl(f & DISPLAYON != 0, false, f & BLINKON != 0))
    ensures Decode(DISPLAYCONTROL | (f | BLINKON)) == Some(DisplayControl(f & DISPLAYON != 0, f & CURSORON != 0, true))
    ensures Decode(DISPLAYCONTROL | Without(f, BLINKON)) == Some(DisplayControl(f & DISPLAYON != 0, f & CURSORON != 0, false))
    ensures f | DISPLAYON < DISPLAYCONTROL && Without(f, DISPLAYON) < DISPLAYCONTROL
    ensures f | CURSORON < DISPLAYCONTROL && Without(f, CURSORON) < DISPLAYCONTROL
    ensures f | BLINKON < DISPLAYCONTROL && Without(f, BLINKON) < DISPLAYCONTROL
  {
    DisplayControlFlags(f | DISPLAYON);
    DisplayControlFlags(Without(f, DISPLAYON));
    DisplayControlFlags(f | CURSORON);
    DisplayControlFlags(Without(f, CURSORON));
    DisplayControlFlags(f | BLINKON);
    DisplayControlFlags(Without(f, BLINKON));
  }

  /** The same for the entry mode byte. */
  lemma EntryModeFlags(f: byte)
    requires f < ENTRYMODESET
    ensures Decode(ENTRYMODESET | f) == Some(EntryModeSet(f & ENTRYLEFT != 0, f & ENTRYSHIFTINCREMENT != 0))
  {
  }

  /** The text direction and autoscroll setters each switch one flag of the
      entry mode byte and keep the other. */
  lemma EntryModeSetters(f: byte)
    requires f < ENTRYMODESET
    ensures Decode(ENTRYMODESET | (f | ENTRYLEFT)) == Some(EntryModeSet(true, f & ENTRYSHIFTINCREMENT != 0))
    ensures Decode(ENTRYMODESET | Without(f, ENTRYLEFT)) == Some(EntryModeSet(false, f & ENTRYSHIFTINCREMENT != 0))
    ensures Decode(ENTRYMODESET | (f | ENTRYSHIFTINCREMENT)) == Some(EntryModeSet(f & ENTRYLEFT != 0, true))
    ensures Decode(ENTRYMODESET | Without(f, ENTRYSHIFTINCREMENT)) == Some(EntryModeSet(f & ENTRYLEFT != 0, false))
    ensures f | ENTRYLEFT < ENTRYMODESET && Without(f, ENTRYLEFT) < ENTRYMODESET
    ensures f | ENTRYSHIFTINCREMENT < ENTRYMODESET && Without(f, ENTRYSHIFTINCREMENT) < ENTRYMODESET
  {
    EntryModeFlags(f | ENTRYLEFT);
    EntryModeFlags(Without(f, ENTRYLEFT));
    EntryModeFlags(f | ENTRYSHIFTINCREMENT);
    EntryModeFlags(Without(f, ENTRYSHIFTINCREMENT));
  }

  /** The same for the cursor or display shift byte. */
  lemma CursorShiftFlags(f: byte)
    requires f < CURSORSHIFT
    ensures Decode(CURSORSHIFT | f) == Some(CursorShift(f & DISPLAYMOVE != 0, f & MOVERIGHT != 0))
  {
  }

  /** The same for the function set byte. */
  lemma FunctionSetFlags(f: byte)
    requires f < FUNCTIONSET
    ensures Decode(FUNCTIONSET | f) == Some(FunctionSet(f & EIGHTBITMODE != 0, f & TWOLINE != 0, f & DOTS5x10 != 0))
  {
  }
}
