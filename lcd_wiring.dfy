/** How the LCD driver talks to an HD44780 through an 8-bit I2C port
    expander: which expander pin carries which LCD line, the expander words
    one byte turns into, the I2C frames that carry those words, and the
    controller's reading of the words it is shown. */
module LcdWiring {
  import opened Bytes
  import F = Frames
  import opened LcdCodes
  import Seqs

  /** `(char)(1 << n)`: the mask of expander pin `n`; a pin number past
      bit 7 shifts the bit out of the byte. */
  function PinMask(n: byte): byte
  {
    if n < 8 then (1 as byte) << n else 0
  }

  predicate SingleBit(b: byte)
  {
    b != 0 && b & (b - 1) == 0
  }

  predicate Apart(a: byte, b: byte)
  {
    a & b == 0
  }

  /** Pin numbers 0 to 7 give single-bit masks, distinct pin numbers give
      disjoint ones, and larger numbers give no pin at all. */
  lemma PinMasks(a: byte, b: byte)
    ensures a < 8 ==> SingleBit(PinMask(a))
    ensures 8 <= a ==> PinMask(a) == 0
    ensures a < 8 && b < 8 ==> (Apart(PinMask(a), PinMask(b)) <==> a != b)
  {
  }

  /** The expander pins the driver was configured with: enable, read/write,
      register select, the four data lines D4 to D7, and the backlight
      level currently driven. */
  datatype Wiring = Wiring(en: byte, rw: byte, rs: byte, pins: seq<byte>, backlight: byte)

  /** Each LCD line sits on a pin of its own: no line shares a pin with
      another line or with the backlight. */
  predicate WellWired(w: Wiring)
  {
    && |w.pins| == 4
    && SingleBit(w.pins[0]) && SingleBit(w.pins[1]) && SingleBit(w.pins[2]) && SingleBit(w.pins[3])
    && SingleBit(w.en) && SingleBit(w.rw) && SingleBit(w.rs)
    && w.pins[0] & (w.pins[1] | w.pins[2] | w.pins[3] | w.en | w.rw | w.rs | w.backlight) == 0
    && w.pins[1] & (w.pins[0] | w.pins[2] | w.pins[3] | w.en | w.rw | w.rs | w.backlight) == 0
    && w.pins[2] & (w.pins[0] | w.pins[1] | w.pins[3] | w.en | w.rw | w.rs | w.backlight) == 0
    && w.pins[3] & (w.pins[0] | w.pins[1] | w.pins[2] | w.en | w.rw | w.rs | w.backlight) == 0
    && w.en & (w.pins[0] | w.pins[1] | w.pins[2] | w.pins[3] | w.rw | w.rs | w.backlight) == 0
    && w.rw & (w.pins[0] | w.pins[1] | w.pins[2] | w.pins[3] | w.en | w.rs | w.backlight) == 0
    && w.rs & (w.pins[0] | w.pins[1] | w.pins[2] | w.pins[3] | w.en | w.rw | w.backlight) == 0
  }

  /** `p` when `v` has a bit of `bit` set, else nothing: a data pin raised
      for a value bit, or, read the other way, a value bit for a raised
      data pin. */
  function Pin(v: byte, bit: byte, p: byte): byte
  {
    if v & bit != 0 then p else 0
  }

  /** The mask of bit `k` of a nibble. */
  function NibbleBit(k: nat): byte
    requires k < 4
  {
    if k == 0 then 1 else if k == 1 then 2 else if k == 2 then 4 else 8
  }

  /** The loop of `write4bits` after `n` rounds: data pin `i` is raised for
      every set bit `i < n` of `value`. */
  function MapBits(value: byte, pins: seq<byte>, n: nat): byte
    requires n <= 4 && |pins| == 4
  {
    if n == 0 then 0
    else if n == 1 then Pin(value, 1, pins[0])
    else if n == 2 then Pin(value, 1, pins[0]) | Pin(value, 2, pins[1])
    else if n == 3 then Pin(value, 1, pins[0]) | Pin(value, 2, pins[1]) | Pin(value, 4, pins[2])
    else Pin(value, 1, pins[0]) | Pin(value, 2, pins[1]) | Pin(value, 4, pins[2]) | Pin(value, 8, pins[3])
  }

  /** The low nibble of `value` on the data pins: data pin `i` is raised
      exactly when bit `i` of `value` is set. */
  function PinMap(value: byte, pins: seq<byte>): byte
    requires |pins| == 4
  {
    MapBits(value, pins, 4)
  }

  /** One more round raises pin `n` when bit `n` is set. */
  lemma MapBitsStep(value: byte, pins: seq<byte>, n: nat)
    requires n < 4 && |pins| == 4
    ensures MapBits(value, pins, n + 1) == MapBits(value, pins, n) | Pin(value, NibbleBit(n), pins[n])
  {
    if n == 0 {
    } else if n == 1 {
    } else if n == 2 {
    } else {
    }
  }

  /** Round `i` of the loop tests the bit that has been shifted down to bit 0. */
  lemma ShiftBit(value: byte, i: nat)
    requires i < 4
    ensures (value >> i) & 1 == 1 <==> value & NibbleBit(i) != 0
    ensures (value >> i) >> 1 == value >> (i + 1)
  {
  }

  /** A round of the loop of `write4bits`, which holds the shifted value
      `v` and the pins raised so far `acc`: it raises pin `i` exactly when
      the bit it tests is set, and shifts the value on. */
  lemma MapBitsNext(value: byte, pins: seq<byte>, i: nat, v: byte, acc: byte)
    requires i < 4 && |pins| == 4 && v == value >> i && acc == MapBits(value, pins, i)
    ensures v >> 1 == value >> (i + 1)
    ensures (if v & 1 == 1 then acc | pins[i] else acc) == MapBits(value, pins, i + 1)
  {
    ShiftBit(value, i);
    MapBitsStep(value, pins, i);
  }

  /** The nibble an expander word presents on the data lines. */
  function Unmap(word: byte, pins: seq<byte>): byte
    requires |pins| == 4
  {
    Pin(word, pins[0], 1) | Pin(word, pins[1], 2) | Pin(word, pins[2], 4) | Pin(word, pins[3], 8)
  }

  /** The control bits `write4bits` ORs in: RS for data, the mode value
      itself otherwise (0 for a command). */
  function ModeBits(w: Wiring, mode: byte): byte
  {
    if mode == LCD_DATA then w.rs else mode
  }

  /** The expander word for one nibble, before the enable pulse. */
  function Word(w: Wiring, value: byte, mode: byte): byte
    requires |w.pins| == 4
  {
    PinMap(value, w.pins) | ModeBits(w, mode) | w.backlight
  }

  /** `pulseEnable`: the word with En high, then with En low. */
  function Pulse(w: Wiring, data: byte): seq<byte>
  {
    [data | w.en, data & !w.en]
  }

  /** A pulse is two single `i2cwrite`s, the rising word first. */
  lemma PulseWords(w: Wiring, data: byte, high: byte, low: byte)
    requires high == data | w.en && low == data & !w.en
    ensures Pulse(w, data) == [high] + [low]
  {
    assert Pulse(w, data) == [high, low];
    Seqs.Pair(high, low);
  }

  /** `write4bits`: one nibble, pulsed. */
  function Nibble(w: Wiring, value: byte, mode: byte): seq<byte>
    requires |w.pins| == 4
  {
    Pulse(w, Word(w, value, mode))
  }

  /** The pulse of the word built from a nibble. */
  lemma NibbleWord(w: Wiring, value: byte, mode: byte, word: byte)
    requires |w.pins| == 4 && word == PinMap(value, w.pins) | ModeBits(w, mode) | w.backlight
    ensures Nibble(w, value, mode) == Pulse(w, word)
  {
  }

  /** The high and the low nibble of a byte, and the byte they make up. */
  function High(v: byte): byte
  {
    v >> 4
  }

  function Low(v: byte): byte
  {
    v & 0x0F
  }

  function Join(high: byte, low: byte): byte
  {
    (high << 4) | low
  }

  /** `sendLCD`: a lone low nibble as a command in FOUR_BITS mode, otherwise
      the high nibble and then the low nibble, both in `mode`. */
  function SendWords(w: Wiring, value: byte, mode: byte): (words: seq<byte>)
    requires |w.pins| == 4
    ensures |words| == if mode == FOUR_BITS then 2 else 4
  {
    if mode == FOUR_BITS then Nibble(w, Low(value), COMMAND)
    else Nibble(w, High(value), mode) + Nibble(w, Low(value), mode)
  }

  /** `sendLCD` splits its value with a shift and a mask: the low nibble
      alone in FOUR_BITS mode, otherwise the high nibble, then the low one. */
  lemma SendWordsSplit(w: Wiring, value: byte, mode: byte, high: byte, low: byte)
    requires |w.pins| == 4 && high == value >> 4 && low == value & 0x0F
    ensures mode == FOUR_BITS ==> SendWords(w, value, mode) == Nibble(w, low, COMMAND)
    ensures mode != FOUR_BITS ==> SendWords(w, value, mode) == Nibble(w, high, mode) + Nibble(w, low, mode)
  {
  }

  /** No word the driver builds raises En or R/W by itself. */
  lemma WordApart(w: Wiring, value: byte, mode: byte)
    requires WellWired(w) && (mode == COMMAND || mode == LCD_DATA)
    ensures Word(w, value, mode) & (w.en | w.rw) == 0 && w.en & w.rw == 0
  {
  }

  /** The pulse of a word that leaves En low: En rises, then falls, and
      nothing else changes. */
  lemma PulseEn(w: Wiring, word: byte)
    requires word & w.en == 0
    ensures var p := Pulse(w, word);
      p[0] & w.en == w.en && p[1] & w.en == 0 && p[0] & !w.en == p[1] == word
  {
  }

  /** The pulse of a word that leaves R/W low keeps it low. */
  lemma PulseRw(w: Wiring, word: byte)
    requires word & w.rw == 0 && w.en & w.rw == 0
    ensures var p := Pulse(w, word);
      p[0] & w.rw == 0 && p[1] & w.rw == 0
  {
  }

  /** The two words of a pulse differ in the En bit only, rising then
      falling, and carry the word itself once En has fallen. */
  lemma PulseShape(w: Wiring, value: byte, mode: byte)
    requires WellWired(w) && (mode == COMMAND || mode == LCD_DATA)
    ensures var p := Nibble(w, value, mode);
      p[0] & w.en == w.en && p[1] & w.en == 0 && p[0] & !w.en == p[1] == Word(w, value, mode)
  {
    WordApart(w, value, mode);
    PulseEn(w, Word(w, value, mode));
  }

  /** The driver never raises R/W: it only ever writes to the controller. */
  lemma NeverReads(w: Wiring, value: byte, mode: byte)
    requires WellWired(w) && (mode == COMMAND || mode == LCD_DATA)
    ensures var p := Nibble(w, value, mode);
      p[0] & w.rw == 0 && p[1] & w.rw == 0
  {
    WordApart(w, value, mode);
    PulseRw(w, Word(w, value, mode));
  }

  /** With the lines wired apart, each data line reads back its bit of the
      nibble even once En has fallen. */
  lemma LatchD4(w: Wiring, value: byte, mode: byte)
    requires WellWired(w) && (mode == COMMAND || mode == LCD_DATA)
    ensures Pin(Word(w, value, mode) & !w.en, w.pins[0], 1) == value & 1
  {
  }

  lemma LatchD5(w: Wiring, value: byte, mode: byte)
    requires WellWired(w) && (mode == COMMAND || mode == LCD_DATA)
    ensures Pin(Word(w, value, mode) & !w.en, w.pins[1], 2) == value & 2
  {
  }

  lemma LatchD6(w: Wiring, value: byte, mode: byte)
    requires WellWired(w) && (mode == COMMAND || mode == LCD_DATA)
    ensures Pin(Word(w, value, mode) & !w.en, w.pins[2], 4) == value & 4
  {
  }

  lemma LatchD7(w: Wiring, value: byte, mode: byte)
    requires WellWired(w) && (mode == COMMAND || mode == LCD_DATA)
    ensures Pin(Word(w, value, mode) & !w.en, w.pins[3], 8) == value & 8
  {
  }

  /** RS reads back high exactly for data. */
  lemma LatchRs(w: Wiring, value: byte, mode: byte)
    requires WellWired(w) && (mode == COMMAND || mode == LCD_DATA)
    ensures (Word(w, value, mode) & !w.en) & w.rs != 0 <==> mode == LCD_DATA
  {
  }

  /** The data lines of a word, once En has fallen, read back the nibble it
      was built from, and RS tells data from a command. */
  lemma WordLatch(w: Wiring, value: byte, mode: byte)
    requires WellWired(w) && (mode == COMMAND || mode == LCD_DATA)
    ensures Unmap(Word(w, value, mode) & !w.en, w.pins) == value & 0x0F
    ensures (Word(w, value, mode) & !w.en) & w.rs != 0 <==> mode == LCD_DATA
  {
    LatchD4(w, value, mode);
    LatchD5(w, value, mode);
    LatchD6(w, value, mode);
    LatchD7(w, value, mode);
    LatchRs(w, value, mode);
  }

  /** The controller still in 8-bit mode, as it is at power-up: its upper
      data lines DB7 to DB4 are the four wired lines, the lower four are
      unconnected and read as 0, so a falling En latches a whole
      instruction from one nibble. */
  function Latch8(w: Wiring, word: byte): byte
    requires |w.pins| == 4
  {
    Unmap(word, w.pins) << 4
  }

  /** The four lone nibbles with which `begin` moves the controller to
      4-bit mode: 3, 3, 3, then 2, each sent in FOUR_BITS mode. */
  function WakeUpWords(w: Wiring): seq<byte>
    requires |w.pins| == 4
  {
    SendWords(w, 3, FOUR_BITS) + SendWords(w, 3, FOUR_BITS) + SendWords(w, 3, FOUR_BITS) + SendWords(w, 2, FOUR_BITS)
  }

  /** The wake-up words are four En pulses; a controller in 8-bit mode
      reads the falling edges as three function sets for 8-bit mode and a
      last one for 4-bit mode, one line and the small font, as figure 24 of
      the HD44780 data sheet prescribes. */
  lemma WakeUpReads(w: Wiring)
    requires WellWired(w)
    ensures var ws := WakeUpWords(w);
      && |ws| == 8
      && ws[0] & w.en != 0 && ws[2] & w.en != 0 && ws[4] & w.en != 0 && ws[6] & w.en != 0
      && ws[1] & w.en == 0 && ws[3] & w.en == 0 && ws[5] & w.en == 0 && ws[7] & w.en == 0
      && Decode(Latch8(w, ws[1])) == Some(FunctionSet(true, false, false))
      && Decode(Latch8(w, ws[3])) == Some(FunctionSet(true, false, false))
      && Decode(Latch8(w, ws[5])) == Some(FunctionSet(true, false, false))
      && Decode(Latch8(w, ws[7])) == Some(FunctionSet(false, false, false))
  {
    WakeUpNibble(w, 3);
    WakeUpNibble(w, 2);
  }

  /** One wake-up nibble: a pulse whose falling word carries the nibble on
      the data lines, read in 8-bit mode as the nibble shifted up. */
  lemma WakeUpNibble(w: Wiring, v: byte)
    requires WellWired(w) && v < 16
    ensures var p := SendWords(w, v, FOUR_BITS);
      p[0] & w.en != 0 && p[1] & w.en == 0 && Latch8(w, p[1]) == v << 4
  {
    assert v & 0x0F == v;
    assert SendWords(w, v, FOUR_BITS) == Nibble(w, v, COMMAND);
    NibbleEdges(w, v);
    NibbleLatch8(w, v);
  }

  /** The rising word of a command nibble raises En and the falling one
      lowers it. */
  lemma NibbleEdges(w: Wiring, v: byte)
    requires WellWired(w)
    ensures var p := Nibble(w, v, COMMAND); p[0] & w.en != 0 && p[1] & w.en == 0
  {
    PulseShape(w, v, COMMAND);
    assert w.en != 0;
  }

  /** The falling word of a command nibble, read in 8-bit mode. */
  lemma NibbleLatch8(w: Wiring, v: byte)
    requires WellWired(w) && v < 16
    ensures Latch8(w, Nibble(w, v, COMMAND)[1]) == v << 4
  {
    WordLatch(w, v, COMMAND);
    FallingNibble(w, v);
  }

  /** The 8-bit reading of a falling word, from the nibble its data lines
      carry. */
  lemma FallingNibble(w: Wiring, v: byte)
    requires |w.pins| == 4 && v < 16 && Unmap(Word(w, v, COMMAND) & !w.en, w.pins) == v & 0x0F
    ensures Latch8(w, Nibble(w, v, COMMAND)[1]) == v << 4
  {
    var falling := Nibble(w, v, COMMAND)[1];
    assert falling == Word(w, v, COMMAND) & !w.en;
    ShiftedNibble(Unmap(falling, w.pins), v);
  }

  lemma ShiftedNibble(x: byte, v: byte)
    requires x == v & 0x0F && v < 16
    ensures x << 4 == v << 4
  {
  }

  /** A byte for the controller and the register it is meant for. */
  datatype Transfer = Transfer(value: byte, data: bool)

  /** The transfers `command` and `write` stand for. */
  function Cmd(value: byte): Transfer
  {
    Transfer(value, false)
  }

  function Data(value: byte): Transfer
  {
    Transfer(value, true)
  }

  /** Every byte of `bs` as data for the controller, in order. */
  function DataRun(bs: seq<byte>): (ts: seq<Transfer>)
    ensures |ts| == |bs|
  {
    if bs == [] then [] else DataRun(bs[..|bs| - 1]) + [Data(bs[|bs| - 1])]
  }

  function ModeOf(t: Transfer): byte
  {
    if t.data then LCD_DATA else COMMAND
  }

  /** `command` or `write`: the words of one transfer. */
  function Send(w: Wiring, t: Transfer): (words: seq<byte>)
    requires |w.pins| == 4
    ensures |words| == 4
  {
    SendWords(w, t.value, ModeOf(t))
  }

  /** The expander words that carry a run of transfers, in order. */
  function Words(w: Wiring, ts: seq<Transfer>): (words: seq<byte>)
    requires |w.pins| == 4
    ensures |words| == 4 * |ts|
  {
    if ts == [] then []
    else Words(w, ts[..|ts| - 1]) + Send(w, ts[|ts| - 1])
  }

  /** A single command or datum costs the words of one `sendLCD`. */
  lemma WordsOne(w: Wiring, value: byte)
    requires |w.pins| == 4
    ensures Words(w, [Cmd(value)]) == SendWords(w, value, COMMAND)
    ensures Words(w, [Data(value)]) == SendWords(w, value, LCD_DATA)
  {
    assert [Cmd(value)][..0] == [] && [Data(value)][..0] == [];
  }

  /** The byte the controller latches from the words after the two falling
      edges of En: the high nibble, then the low nibble; RS at the second
      edge tells data from an instruction. */
  function Latch(w: Wiring, high: byte, low: byte): Transfer
    requires |w.pins| == 4
  {
    Transfer(Join(Unmap(high, w.pins), Unmap(low, w.pins)), low & w.rs != 0)
  }

  /** The controller in 4-bit mode: two En pulses, four words, per byte. */
  function Receive(w: Wiring, words: seq<byte>): seq<Transfer>
    requires |w.pins| == 4
    decreases |words|
  {
    if |words| < 4 then []
    else [Latch(w, words[1], words[3])] + Receive(w, words[4..])
  }

  /** The controller's reading of the four words of one byte. */
  lemma ReceiveOne(w: Wiring, ws: seq<byte>)
    requires |w.pins| == 4 && |ws| == 4
    ensures Receive(w, ws) == [Latch(w, ws[1], ws[3])]
  {
    assert |ws[4..]| == 0;
  }

  /** Where the falling edges of `sendLCD`'s two pulses sit. */
  lemma SendWordsAt(w: Wiring, v: byte, m: byte)
    requires |w.pins| == 4 && m != FOUR_BITS
    ensures SendWords(w, v, m)[1] == Word(w, High(v), m) & !w.en
    ensures SendWords(w, v, m)[3] == Word(w, Low(v), m) & !w.en
  {
  }

  /** The high and the low nibble, read back, make up the byte again. */
  lemma NibblesJoin(v: byte, high: byte, low: byte)
    requires high == High(v) & 0x0F && low == Low(v) & 0x0F
    ensures Join(high, low) == v
  {
  }

  /** The controller latches the byte of a command or data from the
      falling edges of its two pulses. */
  lemma LatchWords(w: Wiring, v: byte, m: byte)
    requires WellWired(w) && (m == COMMAND || m == LCD_DATA)
    ensures Latch(w, Word(w, High(v), m) & !w.en, Word(w, Low(v), m) & !w.en) == Transfer(v, m == LCD_DATA)
  {
    WordLatch(w, High(v), m);
    WordLatch(w, Low(v), m);
    LatchNibbles(w, v, m, Word(w, High(v), m) & !w.en, Word(w, Low(v), m) & !w.en);
  }

  /** Two words that read back the high and the low nibble of `v`, the
      second with RS telling data from a command, latch `v`. */
  lemma LatchNibbles(w: Wiring, v: byte, m: byte, hi: byte, lo: byte)
    requires |w.pins| == 4
    requires Unmap(hi, w.pins) == High(v) & 0x0F && Unmap(lo, w.pins) == Low(v) & 0x0F
    requires lo & w.rs != 0 <==> m == LCD_DATA
    ensures Latch(w, hi, lo) == Transfer(v, m == LCD_DATA)
  {
    NibblesJoin(v, Unmap(hi, w.pins), Unmap(lo, w.pins));
  }

  /** The controller reads back the byte of a command or data. */
  lemma ReceiveWords(w: Wiring, v: byte, m: byte)
    requires WellWired(w) && (m == COMMAND || m == LCD_DATA)
    ensures Receive(w, SendWords(w, v, m)) == [Transfer(v, m == LCD_DATA)]
  {
    var ws := SendWords(w, v, m);
    SendWordsAt(w, v, m);
    ReceiveOne(w, ws);
    LatchWords(w, v, m);
  }

  /** One byte sent as a command or as data reaches the controller intact. */
  lemma SendReceive(w: Wiring, t: Transfer)
    requires WellWired(w)
    ensures Receive(w, Send(w, t)) == [t]
  {
    ReceiveWords(w, t.value, ModeOf(t));
  }

  lemma ReceiveAppend(w: Wiring, a: seq<byte>, b: seq<byte>)
    requires |w.pins| == 4 && |a| % 4 == 0
    ensures Receive(w, a + b) == Receive(w, a) + Receive(w, b)
    decreases |a|
  {
    if |a| == 0 {
      assert a + b == b;
    } else {
      var ab := a + b;
      assert ab[1] == a[1] && ab[3] == a[3];
      assert ab[4..] == a[4..] + b;
      ReceiveAppend(w, a[4..], b);
    }
  }

  /** Any run of commands and data reaches the controller intact and in
      order. */
  lemma {:induction false} WordsReceive(w: Wiring, ts: seq<Transfer>)
    requires WellWired(w)
    ensures Receive(w, Words(w, ts)) == ts
  {
    if ts != [] {
      var init, last := ts[..|ts| - 1], ts[|ts| - 1];
      WordsReceive(w, init);
      SendReceive(w, last);
      ReceiveAppend(w, Words(w, init), Send(w, last));
      Seqs.FrontLast(ts);
    }
  }

  /** The words of two runs are the words of the first, then of the second. */
  lemma {:induction false} WordsAppend(w: Wiring, a: seq<Transfer>, b: seq<Transfer>)
    requires |w.pins| == 4
    ensures Words(w, a + b) == Words(w, a) + Words(w, b)
    decreases |b|
  {
    if b == [] {
      assert a + b == a;
    } else {
      var init, last := b[..|b| - 1], b[|b| - 1];
      Seqs.AppendLast(a, b);
      WordsAppend(w, a, init);
      Seqs.Assoc(Words(w, a), Words(w, init), Send(w, last));
    }
  }

  /** One more datum of a run: the words of a run that ends in the data
      `bs[..i + 1]` are those of the run up to `bs[..i]`, then those of
      `bs[i]`. */
  lemma WordsDataNext(w: Wiring, bs: seq<byte>, i: nat)
    requires |w.pins| == 4 && i < |bs|
    ensures Words(w, DataRun(bs[..i + 1])) == Words(w, DataRun(bs[..i])) + Words(w, [Data(bs[i])])
  {
    assert bs[..i + 1][..i] == bs[..i];
    assert DataRun(bs[..i + 1]) == DataRun(bs[..i]) + [Data(bs[i])];
    WordsAppend(w, DataRun(bs[..i]), [Data(bs[i])]);
  }

  /** The word as `i2cwrite` puts it on the expander: the pins configured
      as inputs (set in `dirMask`) are never driven high. */
  function Driven(value: byte, dirMask: byte): byte
  {
    value & !dirMask
  }

  /** The input pins of a driven word are low, and its output pins are the
      word's own. */
  lemma DrivenPins(value: byte, dirMask: byte)
    ensures Driven(value, dirMask) & dirMask == 0
    ensures Driven(value, dirMask) | (value & dirMask) == value
  {
  }

  /** The frames `i2cwrite` sends for one expander word: start with write
      access to the expander, the word, stop. */
  function WriteFrames(addr: byte, b: byte): seq<F.Frame>
  {
    [F.Encode(F.Start(F.WriteAccess, addr)), F.Encode(F.WriteByte(b)), F.Encode(F.Stop)]
  }

  /** The frames of `i2cwrite` as written: its start receives a string
      where a mode character belongs, so the start sees the low byte
      `mode` of the string's address. A start follows only when that byte
      happens to be 'r' or 'w'; otherwise the byte and the stop go out
      without a start condition. */
  function AsWrittenFrames(addr: byte, mode: byte, b: byte): seq<F.Frame>
  {
    var a := F.AccessOf(true, mode);
    (if a.Some? then [F.Encode(F.Start(a.value, addr))] else []) + [F.Encode(F.WriteByte(b)), F.Encode(F.Stop)]
  }

  /** The transaction as written carries the intended frames exactly when
      the address byte happens to be 'w'. */
  lemma AsWrittenFramesIntended(addr: byte, mode: byte, b: byte)
    ensures AsWrittenFrames(addr, mode, b) == WriteFrames(addr, b) <==> mode == F.ASCII_w
    ensures mode != F.ASCII_r && mode != F.ASCII_w ==> AsWrittenFrames(addr, mode, b) == [F.Encode(F.WriteByte(b)), F.Encode(F.Stop)]
  {
    var fs := AsWrittenFrames(addr, mode, b);
    if mode == F.ASCII_r {
      F.StartRestartDistinct(F.ReadAck, F.WriteAccess);
      assert fs[0] != WriteFrames(addr, b)[0];
    } else if mode != F.ASCII_w {
      assert |fs| != |WriteFrames(addr, b)|;
    }
  }

  /** The frames a run of expander words costs; only the pins configured as
      outputs (clear in `dirMask`) are ever driven high. */
  function ExpanderFrames(addr: byte, dirMask: byte, values: seq<byte>): (fs: seq<F.Frame>)
    ensures |fs| == 3 * |values|
  {
    if values == [] then []
    else ExpanderFrames(addr, dirMask, values[..|values| - 1]) + WriteFrames(addr, Driven(values[|values| - 1], dirMask))
  }

  /** A single word costs the three frames of one `i2cwrite`. */
  lemma ExpanderFramesOne(addr: byte, dirMask: byte, value: byte)
    ensures ExpanderFrames(addr, dirMask, [value]) == WriteFrames(addr, Driven(value, dirMask))
  {
    assert [value][..0] == [];
  }

  /** The frames of one `i2cwrite` that got through: start, byte, stop. */
  lemma WriteTrace(sent0: seq<F.Frame>, sent1: seq<F.Frame>, sent2: seq<F.Frame>, sent3: seq<F.Frame>, addr: byte, b: byte)
    requires sent1 == sent0 + [F.Encode(F.Start(F.WriteAccess, addr))]
    requires sent2 == sent1 + [F.Encode(F.WriteByte(b))]
    requires sent3 == sent2 + [F.Encode(F.Stop)]
    ensures sent3 == sent0 + WriteFrames(addr, b)
  {
  }

  lemma {:induction false} ExpanderFramesAppend(addr: byte, dirMask: byte, a: seq<byte>, b: seq<byte>)
    ensures ExpanderFrames(addr, dirMask, a + b) == ExpanderFrames(addr, dirMask, a) + ExpanderFrames(addr, dirMask, b)
    decreases |b|
  {
    if b == [] {
      assert a + b == a;
    } else {
      assert (a + b)[..|a + b| - 1] == a + b[..|b| - 1];
      ExpanderFramesAppend(addr, dirMask, a, b[..|b| - 1]);
    }
  }

  /** The frames of word `i` sit at positions `3 * i` to `3 * i + 2`. */
  lemma {:induction false} ExpanderFramesAt(addr: byte, dirMask: byte, values: seq<byte>, i: nat)
    requires i < |values|
    ensures var fs := ExpanderFrames(addr, dirMask, values);
      var wf := WriteFrames(addr, Driven(values[i], dirMask));
      fs[3 * i] == wf[0] && fs[3 * i + 1] == wf[1] && fs[3 * i + 2] == wf[2]
    decreases |values|
  {
    var init := values[..|values| - 1];
    var front := ExpanderFrames(addr, dirMask, init);
    var fs := ExpanderFrames(addr, dirMask, values);
    var last := WriteFrames(addr, Driven(values[|values| - 1], dirMask));
    assert fs == front + last;
    if i < |init| {
      ExpanderFramesAt(addr, dirMask, init, i);
      assert init[i] == values[i];
      assert fs[3 * i] == front[3 * i] && fs[3 * i + 1] == front[3 * i + 1] && fs[3 * i + 2] == front[3 * i + 2];
    } else {
      assert fs[3 * i] == last[0] && fs[3 * i + 1] == last[1] && fs[3 * i + 2] == last[2];
    }
  }

  /** Frame by frame, the `i`-th expander word travels as start to the
      expander, the word with the input pins masked off, and stop; the
      adapter reads each frame back as that command. */
  lemma ExpanderFramesCarry(addr: byte, dirMask: byte, values: seq<byte>, i: nat)
    requires i < |values|
    ensures var fs := ExpanderFrames(addr, dirMask, values);
      && F.Parse(fs[3 * i]) == Some(F.Start(F.WriteAccess, addr))
      && F.Parse(fs[3 * i + 1]) == Some(F.WriteByte(Driven(values[i], dirMask)))
      && F.Parse(fs[3 * i + 2]) == Some(F.Stop)
  {
    ExpanderFramesAt(addr, dirMask, values, i);
    F.ParseEncode(F.Start(F.WriteAccess, addr));
    F.ParseEncode(F.WriteByte(Driven(values[i], dirMask)));
    F.ParseEncode(F.Stop);
  }

  /** The output shadow after a run of `i2cwrite` calls, each of which
      replaces it with its driven word. */
  function ShadowAfter(shadow0: byte, dirMask: byte, values: seq<byte>): byte
    decreases |values|
  {
    if values == [] then shadow0 else ShadowAfter(Driven(values[0], dirMask), dirMask, values[1..])
  }

  /** Only the last word of a run shows in the shadow. */
  lemma {:induction false} ShadowAfterLast(shadow0: byte, dirMask: byte, values: seq<byte>)
    ensures ShadowAfter(shadow0, dirMask, values) == if values == [] then shadow0 else Driven(values[|values| - 1], dirMask)
    decreases |values|
  {
    if |values| > 1 {
      ShadowAfterLast(Driven(values[0], dirMask), dirMask, values[1..]);
    }
  }

  /** A run of two parts leaves what the second part leaves, starting from
      what the first left. */
  lemma {:induction false} ShadowAfterAppend(shadow0: byte, dirMask: byte, a: seq<byte>, b: seq<byte>)
    ensures ShadowAfter(shadow0, dirMask, a + b) == ShadowAfter(ShadowAfter(shadow0, dirMask, a), dirMask, b)
    decreases |a|
  {
    if a == [] {
      assert a + b == b;
    } else {
      assert (a + b)[1..] == a[1..] + b;
      ShadowAfterAppend(Driven(a[0], dirMask), dirMask, a[1..], b);
    }
  }

  /** What a run of `i2cwrite` calls leaves behind, relative to the bus trace
      `sent0` and output shadow `shadow0` before it: nothing when the adapter
      is not initialized; otherwise the frames of every word (unless the
      program ended on the way), and the last word, masked, as the shadow. */
  predicate Outcome(failed: bool, sent: seq<F.Frame>, shadow: byte, init: bool, addr: byte, dirMask: byte,
                    sent0: seq<F.Frame>, shadow0: byte, values: seq<byte>)
  {
    var vs := if init then values else [];
    && (failed || sent == sent0 + ExpanderFrames(addr, dirMask, vs))
    && shadow == ShadowAfter(shadow0, dirMask, vs)
  }

  /** One `i2cwrite`: on an initialized adapter the driven word becomes the
      shadow and its frames follow the trace unless the program ended;
      otherwise nothing changes. */
  lemma OutcomeOne(failed: bool, sent: seq<F.Frame>, shadow: byte, init: bool, addr: byte, dirMask: byte,
                   sent0: seq<F.Frame>, shadow0: byte, value: byte)
    requires init ==> shadow == Driven(value, dirMask) && (failed || sent == sent0 + WriteFrames(addr, shadow))
    requires !init ==> shadow == shadow0 && (failed || sent == sent0)
    ensures Outcome(failed, sent, shadow, init, addr, dirMask, sent0, shadow0, [value])
  {
    ExpanderFramesOne(addr, dirMask, value);
    assert [value][1..] == [];
  }

  /** Two runs of writes, one after the other, are the run of both. */
  lemma OutcomeThen(failed1: bool, sent1: seq<F.Frame>, shadow1: byte, failed: bool, sent: seq<F.Frame>, shadow: byte,
                    init: bool, addr: byte, dirMask: byte, sent0: seq<F.Frame>, shadow0: byte, v1: seq<byte>, v2: seq<byte>)
    requires Outcome(failed1, sent1, shadow1, init, addr, dirMask, sent0, shadow0, v1)
    requires Outcome(failed, sent, shadow, init, addr, dirMask, sent1, shadow1, v2)
    requires failed1 ==> failed
    ensures Outcome(failed, sent, shadow, init, addr, dirMask, sent0, shadow0, v1 + v2)
  {
    if init {
      ExpanderFramesAppend(addr, dirMask, v1, v2);
      ShadowAfterAppend(shadow0, dirMask, v1, v2);
    }
  }
}
