/** The host side of the USB adapter: each bus or auxiliary operation sends one
    command frame over the serial link, reads the adapter's two- or three-byte
    reply and checks the echoed bytes. A failed check either ends the program
    (modelled by `failed`) or is only reported, depending on the operation. */
module I2cUsb {
  import opened Bytes
  import opened Frames
  import BusStatus

  /** The status byte of a reply: its last byte. */
  function StatusOf(reply: seq<byte>): byte
    requires |reply| >= 2
  {
    reply[|reply| - 1]
  }

  /** A reply whose status byte carries the acknowledge bit. */
  predicate Acked(reply: seq<byte>)
  {
    |reply| >= 2 && BusStatus.Acknowledged(StatusOf(reply))
  }

  /** A reply that repeats both bytes of the frame. */
  predicate Echoes(reply: seq<byte>, f: Frame)
    requires |reply| >= 2
  {
    reply[0] == f.opcode && reply[1] == f.operand
  }

  class Adapter {
    /** Every frame written to the serial link, oldest first. */
    var sent: seq<Frame>
    /** For each frame in `sent`, the receive buffer as the code inspected it. */
    var seen: seq<seq<byte>>
    /** The bytes the adapter has yet to send back: the serial link's input. */
    var replies: seq<byte>
    /** The global `initialized` flag. */
    var initialized: bool
    /** The program has ended through `err_quit`; nothing happens after that. */
    var failed: bool

    ghost predicate Valid()
      reads this
    {
      |sent| == |seen| && forall i :: 0 <= i < |seen| ==> |seen[i]| >= 2
    }

    /** The reply buffer of the most recent exchange. */
    function Reply(): seq<byte>
      reads this
      requires |seen| > 0
    {
      seen[|seen| - 1]
    }

    /** An adapter whose link will deliver `input`, before `Init`. */
    constructor (input: seq<byte>)
      ensures Valid()
      ensures sent == [] && seen == [] && replies == input
      ensures !initialized && !failed
    {
      sent, seen, replies := [], [], input;
      initialized, failed := false, false;
    }

    /** Exactly one exchange happened since the state (`sent0`, `seen0`,
        `replies0`): `cmd` went out, as many reply bytes as it expects were
        taken from the link while they lasted, and they head the recorded
        buffer. The rest of that buffer is whatever it held before. */
    ghost predicate Answered(sent0: seq<Frame>, seen0: seq<seq<byte>>, replies0: seq<byte>, cmd: Command)
      reads this
    {
      var k := Min(ReplyLength(cmd), |replies0|);
      && sent == sent0 + [Encode(cmd)]
      && |seen| == |seen0| + 1 && seen == seen0 + [Reply()]
      && |seen[|seen0|]| == ReplyLength(cmd)
      && seen[|seen0|][..k] == replies0[..k]
      && replies == replies0[k..]
    }

    /** `sende_befehl` followed by `lese_antwort` into the buffer `buf`. */
    method Exchange(cmd: Command, buf: seq<byte>) returns (reply: seq<byte>)
      requires Valid() && |buf| == ReplyLength(cmd)
      modifies this
      ensures Valid() && Answered(old(sent), old(seen), old(replies), cmd)
      ensures reply == Reply() == Overlay(buf, old(replies)[..Min(|buf|, |old(replies)|)])
      ensures initialized == old(initialized) && failed == old(failed)
    {
      var k := Min(|buf|, |replies|);
      reply := Overlay(buf, replies[..k]);
      replies := replies[k..];
      sent := sent + [Encode(cmd)];
      seen := seen + [reply];
    }

    /** Reset, then clock selection. Either echo mismatch ends the program;
        only after both checks does the adapter count as initialized. */
    method Init(takt: int)
      requires Valid()
      modifies this
      ensures Valid()
      ensures old(failed) ==> unchanged(this)
      ensures !old(failed) ==>
        var n, t, s := |old(sent)|, Truncate(takt), old(replies);
        var k1 := Min(2, |s|);
        |seen| > n &&
        var resetOk := seen[n] == [ASCII_X, ASCII_X];
        && |sent| == n + (if resetOk then 2 else 1)
        && sent[n] == Encode(Reset) && |seen[n]| == 2 && seen[n][..k1] == s[..k1]
        && (resetOk ==>
              var k2 := Min(2, |s| - k1);
              && sent[n + 1] == Encode(SetClock(t))
              && seen[n + 1] == Overlay([ASCII_C, t], s[k1..k1 + k2])
              && replies == s[k1 + k2..])
        && (failed <==> !resetOk || seen[n + 1] != [ASCII_C, t])
        && initialized == (old(initialized) || !failed)
      // The clock step compares a buffer that already holds the expected echo:
      // a link that falls silent after the reset echo still initializes.
      ensures !old(failed) && old(replies) == [ASCII_X, ASCII_X] ==> initialized && !failed
    {
      if failed {
        return;
      }
      var g0: byte := *;
      var g1: byte := *;
      var puffer := Exchange(Reset, [g0, g1]);
      if puffer[0] != ASCII_X || puffer[1] != ASCII_X {
        failed := true;
        return;
      }
      var t := Truncate(takt);
      puffer := [ASCII_C, t];
      puffer := Exchange(SetClock(t), puffer);
      if puffer[0] != ASCII_C || puffer[1] != t {
        failed := true;
        return;
      }
      initialized := true;
    }

    /** Start condition with address `dest`. An invalid mode returns 0 and
        sends nothing; a wrong echoed opcode ends the program; otherwise the
        second reply byte is the bus status. */
    method StartIic(mrxAck: bool, dest: byte, mode: byte) returns (status: byte)
      requires Valid()
      modifies this
      ensures Valid() && initialized == old(initialized)
      ensures old(failed) || AccessOf(mrxAck, mode).None? ==> unchanged(this) && status == 0
      ensures !old(failed) && AccessOf(mrxAck, mode).Some? ==>
        var a := AccessOf(mrxAck, mode).value;
        && Answered(old(sent), old(seen), old(replies), Start(a, dest))
        && (failed <==> Reply()[0] != StartOpcode(a))
        && status == StatusOf(Reply())
    {
      status := 0;
      var access := AccessOf(mrxAck, mode);
      if failed || access.None? {
        return;
      }
      var g0: byte := *;
      var g1: byte := *;
      var puffer := Exchange(Start(access.value, dest), [g0, g1]);
      if puffer[0] != StartOpcode(access.value) {
        failed := true;
      }
      status := puffer[1];
    }

    /** Repeated start: the same contract as `StartIic` with the restart opcodes. */
    method RestartIic(mrxAck: bool, dest: byte, mode: byte) returns (status: byte)
      requires Valid()
      modifies this
      ensures Valid() && initialized == old(initialized)
      ensures old(failed) || AccessOf(mrxAck, mode).None? ==> unchanged(this) && status == 0
      ensures !old(failed) && AccessOf(mrxAck, mode).Some? ==>
        var a := AccessOf(mrxAck, mode).value;
        && Answered(old(sent), old(seen), old(replies), Restart(a, dest))
        && (failed <==> Reply()[0] != RestartOpcode(a))
        && status == StatusOf(Reply())
    {
      status := 0;
      var access := AccessOf(mrxAck, mode);
      if failed || access.None? {
        return;
      }
      var g0: byte := *;
      var g1: byte := *;
      var puffer := Exchange(Restart(access.value, dest), [g0, g1]);
      if puffer[0] != RestartOpcode(access.value) {
        failed := true;
      }
      status := puffer[1];
    }

    /** Stop condition: a wrong echo is only reported, and the result is always 0. */
    method StopIic() returns (status: byte)
      requires Valid()
      modifies this
      ensures Valid() && initialized == old(initialized) && failed == old(failed)
      ensures status == 0
      ensures old(failed) ==> unchanged(this)
      ensures !old(failed) ==> Answered(old(sent), old(seen), old(replies), Stop)
    {
      status := 0;
      if failed {
        return;
      }
      var g0: byte := *;
      var g1: byte := *;
      var puffer := Exchange(Stop, [g0, g1]);
      if !Echoes(puffer, Encode(Stop)) {
        // reported on stderr only
      }
    }

    /** Master transmit of one byte: a wrong echo is only reported, and the
        second reply byte is returned as the status whatever it is. */
    method WrByteIic(b: byte) returns (status: byte)
      requires Valid()
      modifies this
      ensures Valid() && initialized == old(initialized) && failed == old(failed)
      ensures old(failed) ==> unchanged(this) && status == 0
      ensures !old(failed) ==>
        && Answered(old(sent), old(seen), old(replies), WriteByte(b))
        && status == StatusOf(Reply())
        // the byte compared against the written data is the byte returned as status
        && (Echoes(Reply(), Encode(WriteByte(b))) ==> status == b)
    {
      status := 0;
      if failed {
        return;
      }
      var g0: byte := *;
      var g1: byte := *;
      var puffer := Exchange(WriteByte(b), [g0, g1]);
      if !Echoes(puffer, Encode(WriteByte(b))) {
        // reported on stderr only
      }
      status := puffer[1];
    }

    /** Master receive of one byte: operand '0' when `noAck` asks for a
        negative acknowledge, '1' otherwise. The reply is echo, data, status;
        a wrong echo ends the program. */
    method RdByteIic(noAck: bool) returns (data: byte, status: byte)
      requires Valid()
      modifies this
      ensures Valid() && initialized == old(initialized)
      ensures old(failed) ==> unchanged(this) && data == 0 && status == 0
      ensures !old(failed) ==>
        && Answered(old(sent), old(seen), old(replies), ReadByte(noAck))
        && (failed <==> Reply()[0] != ASCII_R)
        && data == Reply()[1] && status == StatusOf(Reply())
    {
      data, status := 0, 0;
      if failed {
        return;
      }
      var g0: byte := *;
      var g1: byte := *;
      var g2: byte := *;
      var puffer := Exchange(ReadByte(noAck), [g0, g1, g2]);
      if puffer[0] != ASCII_R {
        failed := true;
      }
      data := puffer[1];
      status := puffer[2];
    }

    /** A command whose reply must repeat both bytes of its frame, or the
        program ends. */
    method Confirmed(cmd: Command)
      requires Valid() && ReplyLength(cmd) == 2
      modifies this
      ensures Valid() && initialized == old(initialized)
      ensures old(failed) ==> unchanged(this)
      ensures !old(failed) ==>
        && Answered(old(sent), old(seen), old(replies), cmd)
        && (failed <==> !Echoes(Reply(), Encode(cmd)))
    {
      if failed {
        return;
      }
      var g0: byte := *;
      var g1: byte := *;
      var puffer := Exchange(cmd, [g0, g1]);
      if !Echoes(puffer, Encode(cmd)) {
        failed := true;
      }
    }

    /** Drive the IO port; both echoed bytes must match. */
    method WrBytePort(b: byte)
      requires Valid()
      modifies this
      ensures Valid() && initialized == old(initialized)
      ensures old(failed) ==> unchanged(this)
      ensures !old(failed) ==>
        && Answered(old(sent), old(seen), old(replies), PortWrite(b))
        && (failed <==> Reply() != [ASCII_W, b])
    {
      Confirmed(PortWrite(b));
    }

    /** Sample the IO port: only the echoed opcode is checked; the second
        reply byte is the port value. */
    method RdBytePort() returns (value: byte)
      requires Valid()
      modifies this
      ensures Valid() && initialized == old(initialized)
      ensures old(failed) ==> unchanged(this) && value == 0
      ensures !old(failed) ==>
        && Answered(old(sent), old(seen), old(replies), PortRead)
        && (failed <==> Reply()[0] != ASCII_D)
        && value == Reply()[1]
    {
      value := 0;
      if failed {
        return;
      }
      var g0: byte := *;
      var g1: byte := *;
      var puffer := Exchange(PortRead, [g0, g1]);
      if puffer[0] != ASCII_D {
        failed := true;
      }
      value := puffer[1];
    }

    /** Switch the bus supply relay on ("P1"); both echoed bytes must match. */
    method RelaisOn()
      requires Valid()
      modifies this
      ensures Valid() && initialized == old(initialized)
      ensures old(failed) ==> unchanged(this)
      ensures !old(failed) ==>
        && Answered(old(sent), old(seen), old(replies), Relay(true))
        && (failed <==> Reply() != [ASCII_P, ASCII_1])
    {
      Confirmed(Relay(true));
    }

    /** Switch the bus supply relay off ("P0"); both echoed bytes must match. */
    method RelaisOff()
      requires Valid()
      modifies this
      ensures Valid() && initialized == old(initialized)
      ensures old(failed) ==> unchanged(this)
      ensures !old(failed) ==>
        && Answered(old(sent), old(seen), old(replies), Relay(false))
        && (failed <==> Reply() != [ASCII_P, ASCII_0])
    {
      Confirmed(Relay(false));
    }

    /** Switch the red LED on ("L1"); both echoed bytes must match. */
    method LedOn()
      requires Valid()
      modifies this
      ensures Valid() && initialized == old(initialized)
      ensures old(failed) ==> unchanged(this)
      ensures !old(failed) ==>
        && Answered(old(sent), old(seen), old(replies), Led(true))
        && (failed <==> Reply() != [ASCII_L, ASCII_1])
    {
      Confirmed(Led(true));
    }

    /** Switch the red LED off ("L0"); both echoed bytes must match. */
    method LedOff()
      requires Valid()
      modifies this
      ensures Valid() && initialized == old(initialized)
      ensures old(failed) ==> unchanged(this)
      ensures !old(failed) ==>
        && Answered(old(sent), old(seen), old(replies), Led(false))
        && (failed <==> Reply() != [ASCII_L, ASCII_0])
    {
      Confirmed(Led(false));
    }

    /** Whether `Init` has completed its handshake. */
    method IsInitialized() returns (r: bool)
      ensures r == initialized
    {
      r := initialized;
    }
  }
}
