/** The command frames of the USB adapter: every bus or auxiliary operation is
    one two-byte frame, an ASCII opcode followed by one operand byte. */
module Frames {
  import opened Bytes

  // The ASCII characters the protocol uses, as bytes.
  const ASCII_S: byte := 0x53  // 'S'
  const ASCII_s: byte := 0x73  // 's'
  const ASCII_T: byte := 0x54  // 'T'
  const ASCII_V: byte := 0x56  // 'V'
  const ASCII_v: byte := 0x76  // 'v'
  const ASCII_U: byte := 0x55  // 'U'
  const ASCII_O: byte := 0x4F  // 'O'
  const ASCII_P: byte := 0x50  // 'P'
  const ASCII_N: byte := 0x4E  // 'N'
  const ASCII_R: byte := 0x52  // 'R'
  const ASCII_0: byte := 0x30  // '0'
  const ASCII_1: byte := 0x31  // '1'
  const ASCII_W: byte := 0x57  // 'W'
  const ASCII_D: byte := 0x44  // 'D'
  const ASCII_L: byte := 0x4C  // 'L'
  const ASCII_X: byte := 0x58  // 'X'
  const ASCII_C: byte := 0x43  // 'C'
  const ASCII_r: byte := 0x72  // 'r'
  const ASCII_w: byte := 0x77  // 'w'

  /** The constants above are the character codes they are named after. */
  lemma AsciiCodes()
    ensures ASCII_S == 'S' as bv8 && ASCII_s == 's' as bv8 && ASCII_T == 'T' as bv8
    ensures ASCII_V == 'V' as bv8 && ASCII_v == 'v' as bv8 && ASCII_U == 'U' as bv8
    ensures ASCII_O == 'O' as bv8 && ASCII_P == 'P' as bv8 && ASCII_N == 'N' as bv8
    ensures ASCII_R == 'R' as bv8 && ASCII_0 == '0' as bv8 && ASCII_1 == '1' as bv8
    ensures ASCII_W == 'W' as bv8 && ASCII_D == 'D' as bv8 && ASCII_L == 'L' as bv8
    ensures ASCII_X == 'X' as bv8 && ASCII_C == 'C' as bv8
    ensures ASCII_r == 'r' as bv8 && ASCII_w == 'w' as bv8
  {
  }

  /** One command frame: opcode, then operand. */
  datatype Frame = Frame(opcode: byte, operand: byte)

  /** The opcode family member chosen by a start or repeated start. */
  datatype Access = ReadAck | ReadNoAck | WriteAccess

  /** Every command the host sends to the adapter. */
  datatype Command =
    | Start(access: Access, dest: byte)     // start condition, then the address byte
    | Restart(access: Access, dest: byte)   // repeated start, then the address byte
    | Stop                                  // stop condition
    | WriteByte(data: byte)                 // master transmits one byte
    | ReadByte(noAck: bool)                 // master receives one byte; noAck: answer it with a negative acknowledge
    | PortWrite(data: byte)                 // drive the adapter's IO port
    | PortRead                              // sample the adapter's IO port
    | Relay(on: bool)                       // bus supply relay
    | Led(on: bool)                         // red LED
    | Reset                                 // reset the adapter
    | SetClock(code: byte)                  // select the bus clock

  /** How `start_iic` and `restart_iic` read their `MRX_ACK` and `mode`
      arguments: mode 'r' or 'w', anything else is refused. */
  function AccessOf(mrxAck: bool, mode: byte): Option<Access>
  {
    if mode == ASCII_r then (if mrxAck then Some(ReadAck) else Some(ReadNoAck))
    else if mode == ASCII_w then Some(WriteAccess)
    else None
  }

  function StartOpcode(a: Access): byte
  {
    match a
    case ReadAck => ASCII_S
    case ReadNoAck => ASCII_s
    case WriteAccess => ASCII_T
  }

  function RestartOpcode(a: Access): byte
  {
    match a
    case ReadAck => ASCII_V
    case ReadNoAck => ASCII_v
    case WriteAccess => ASCII_U
  }

  function OnOff(on: bool): byte
  {
    if on then ASCII_1 else ASCII_0
  }

  /** The opcode table: the frame the host sends for each command. */
  function Encode(c: Command): Frame
  {
    match c
    case Start(a, dest) => Frame(StartOpcode(a), dest)
    case Restart(a, dest) => Frame(RestartOpcode(a), dest)
    case Stop => Frame(ASCII_O, ASCII_P)
    case WriteByte(b) => Frame(ASCII_N, b)
    case ReadByte(noAck) => Frame(ASCII_R, OnOff(!noAck))
    case PortWrite(b) => Frame(ASCII_W, b)
    case PortRead => Frame(ASCII_D, ASCII_D)
    case Relay(on) => Frame(ASCII_P, OnOff(on))
    case Led(on) => Frame(ASCII_L, OnOff(on))
    case Reset => Frame(ASCII_X, ASCII_X)
    case SetClock(code) => Frame(ASCII_C, code)
  }

  /** The opcode table read the other way, as the adapter's firmware reads a
      frame: `None` for a frame no command produces. */
  function Parse(f: Frame): Option<Command>
  {
    var op, x := f.opcode, f.operand;
    if op == ASCII_S then Some(Start(ReadAck, x))
    else if op == ASCII_s then Some(Start(ReadNoAck, x))
    else if op == ASCII_T then Some(Start(WriteAccess, x))
    else if op == ASCII_V then Some(Restart(ReadAck, x))
    else if op == ASCII_v then Some(Restart(ReadNoAck, x))
    else if op == ASCII_U then Some(Restart(WriteAccess, x))
    else if op == ASCII_O then (if x == ASCII_P then Some(Stop) else None)
    else if op == ASCII_N then Some(WriteByte(x))
    else if op == ASCII_R then
      (if x == ASCII_0 then Some(ReadByte(true)) else if x == ASCII_1 then Some(ReadByte(false)) else None)
    else if op == ASCII_W then Some(PortWrite(x))
    else if op == ASCII_D then (if x == ASCII_D then Some(PortRead) else None)
    else if op == ASCII_P then
      (if x == ASCII_1 then Some(Relay(true)) else if x == ASCII_0 then Some(Relay(false)) else None)
    else if op == ASCII_L then
      (if x == ASCII_1 then Some(Led(true)) else if x == ASCII_0 then Some(Led(false)) else None)
    else if op == ASCII_X then (if x == ASCII_X then Some(Reset) else None)
    else if op == ASCII_C then Some(SetClock(x))
    else None
  }

  /** The opcode table is unambiguous: every frame the host sends reads back
      as the command it was built from. */
  lemma ParseEncode(c: Command)
    ensures Parse(Encode(c)) == Some(c)
  {
    match c
    case Start(a, _) => {
      match a
      case ReadAck => {}
      case ReadNoAck => {}
      case WriteAccess => {}
    }
    case Restart(a, _) => {
      match a
      case ReadAck => {}
      case ReadNoAck => {}
      case WriteAccess => {}
    }
    case ReadByte(noAck) => {}
    case Relay(on) => {}
    case Led(on) => {}
    case _ => {}
  }

  /** Hence no two commands share a frame. */
  lemma EncodeInjective(c: Command, d: Command)
    ensures Encode(c) == Encode(d) ==> c == d
  {
    ParseEncode(c);
    ParseEncode(d);
  }

  /** Start and restart never share an opcode, whatever the access. */
  lemma StartRestartDistinct(a: Access, b: Access)
    ensures StartOpcode(a) != RestartOpcode(b)
    ensures StartOpcode(a) == StartOpcode(b) <==> a == b
    ensures RestartOpcode(a) == RestartOpcode(b) <==> a == b
  {
  }

  /** The number of bytes the adapter answers with: three for a byte read
      (echo, data, status), two for every other command. */
  function ReplyLength(c: Command): nat
  {
    if c.ReadByte? then 3 else 2
  }

  /** What `read` leaves in a receive buffer: the bytes that arrived, then
      whatever the buffer held before in the places no byte reached. */
  function Overlay(buf: seq<byte>, got: seq<byte>): (r: seq<byte>)
    requires |got| <= |buf|
    ensures |r| == |buf|
    ensures forall i :: 0 <= i < |r| ==> r[i] == if i < |got| then got[i] else buf[i]
  {
    got + buf[|got|..]
  }
}
