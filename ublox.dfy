/** Register access to the u-blox NEO-7M receiver, built only from the
    adapter's start, restart, byte write, byte read and stop operations. */
module Ublox {
  import opened Bytes
  import opened Frames
  import opened I2cUsb
  import BusStatus

  /** The receiver's I2C address (0x42). */
  const UBLOX_ADR: byte := 66

  /** The frames of the read preamble: address the receiver for writing,
      send the register number, address it again for reading. */
  function InitReadPlan(adr: byte): (p: seq<Frame>)
    ensures |p| == 3
  {
    [Encode(Start(WriteAccess, UBLOX_ADR)), Encode(WriteByte(adr)), Encode(Restart(ReadNoAck, UBLOX_ADR))]
  }

  /** The data reads of a `length`-byte register read, in order: only the
      last one asks for a negative acknowledge. */
  function DataPlan(length: nat): (p: seq<Frame>)
    ensures |p| == length
    ensures forall j :: 0 <= j < length ==> p[j] == Encode(ReadByte(j == length - 1))
  {
    seq(length, j requires 0 <= j < length => Encode(ReadByte(j == length - 1)))
  }

  /** All frames of a complete `length`-byte register read: the preamble, one
      throw-away read that primes the controller, the data reads and the stop
      condition. */
  function ReadPlan(adr: byte, length: nat): (p: seq<Frame>)
    ensures |p| == length + 5
  {
    InitReadPlan(adr) + TailPlan(length)
  }

  /** The positions of a register read whose status is inspected: the three
      preamble steps and every data read but the last. */
  predicate ReadChecked(length: nat, j: nat)
  {
    j < 3 || 4 <= j < length + 3
  }

  /** The byte writes of `b[..length]`, in order. */
  function DataWrites(b: seq<byte>, length: nat): (p: seq<Frame>)
    requires length <= |b|
    ensures |p| == length
    ensures forall j :: 0 <= j < length ==> p[j] == Encode(WriteByte(b[j]))
  {
    seq(length, j requires 0 <= j < length => Encode(WriteByte(b[j])))
  }

  /** All frames of a complete write of `b[..length]`: a start condition for
      writing, then the bytes; no stop condition. */
  function WritePlan(b: seq<byte>, length: nat): (p: seq<Frame>)
    requires length <= |b|
    ensures |p| == length + 1
  {
    [Encode(Start(WriteAccess, UBLOX_ADR))] + DataWrites(b, length)
  }

  /** `initRead`: the three preamble steps in order, returning -1 at the first
      status without the acknowledge bit and 0 when all three carry it. */
  method InitRead(bus: Adapter, adr: byte) returns (r: int)
    requires bus.Valid()
    modifies bus
    ensures bus.Valid() && bus.initialized == old(bus.initialized)
    ensures old(bus.seen) <= bus.seen && (old(bus.failed) ==> bus.failed)
    ensures r == 0 || r == -1
    ensures |old(bus.sent)| <= |bus.sent| <= |old(bus.sent)| + 3
    ensures bus.sent == old(bus.sent) + InitReadPlan(adr)[..|bus.sent| - |old(bus.sent)|]
    ensures !bus.failed ==>
      var n0, k := |old(bus.sent)|, |bus.sent| - |old(bus.sent)|;
      && 0 < k
      && (1 < k ==> Acked(bus.seen[n0]))
      && (2 < k ==> Acked(bus.seen[n0 + 1]))
      && (r == 0 <==> Acked(bus.seen[n0 + k - 1]))
      && (r == 0 ==> k == 3)
  {
    InitReadSteps(bus.sent, adr);
    var rueck := bus.StartIic(false, UBLOX_ADR, ASCII_w);
    if !BusStatus.Acknowledged(rueck) {
      return -1;
    }
    rueck := bus.WrByteIic(adr);
    if !BusStatus.Acknowledged(rueck) {
      return -1;
    }
    rueck := bus.RestartIic(false, UBLOX_ADR, ASCII_r);
    if !BusStatus.Acknowledged(rueck) {
      return -1;
    }
    return 0;
  }

  /** The preamble's prefixes, one frame at a time. */
  lemma InitReadSteps(s0: seq<Frame>, adr: byte)
    ensures s0 + InitReadPlan(adr)[..0] == s0
    ensures s0 + InitReadPlan(adr)[..1] == s0 + [Encode(Start(WriteAccess, UBLOX_ADR))]
    ensures s0 + InitReadPlan(adr)[..2] == s0 + [Encode(Start(WriteAccess, UBLOX_ADR))] + [Encode(WriteByte(adr))]
    ensures s0 + InitReadPlan(adr)[..3]
         == s0 + [Encode(Start(WriteAccess, UBLOX_ADR))] + [Encode(WriteByte(adr))] + [Encode(Restart(ReadNoAck, UBLOX_ADR))]
  {
  }

  /** `rd_byte_iic(buffer + i, noAck)`: one byte read whose data byte lands in
      `buffer[i]`; the rest of the buffer is untouched. */
  method ReadInto(bus: Adapter, buffer: array<byte>, i: nat, noAck: bool) returns (status: byte)
    requires bus.Valid() && i < buffer.Length
    modifies bus, buffer
    ensures bus.Valid() && bus.initialized == old(bus.initialized)
    ensures old(bus.seen) <= bus.seen
    ensures old(bus.failed) ==> bus.failed && bus.sent == old(bus.sent)
    ensures !bus.failed ==>
      && bus.sent == old(bus.sent) + [Encode(ReadByte(noAck))]
      && |bus.seen| == |old(bus.seen)| + 1
      && buffer[i] == bus.seen[|old(bus.seen)|][1]
      && (BusStatus.Acknowledged(status) <==> Acked(bus.seen[|old(bus.seen)|]))
    ensures forall m :: 0 <= m < buffer.Length && m != i ==> buffer[m] == old(buffer[m])
  {
    var b;
    b, status := bus.RdByteIic(noAck);
    buffer[i] := b;
  }

  /** The `for` loop of `randomReadUblox`: the data reads into
      `buffer[..length]`, leaving at the first unacknowledged read that is not
      the last one. */
  method ReadData(bus: Adapter, buffer: array<byte>, length: nat) returns (r: int)
    requires bus.Valid() && 0 < length <= buffer.Length
    modifies bus, buffer
    ensures bus.Valid() && bus.initialized == old(bus.initialized)
    ensures old(bus.seen) <= bus.seen && (old(bus.failed) ==> bus.failed)
    ensures r == 0 || r == -1
    ensures forall m :: length <= m < buffer.Length ==> buffer[m] == old(buffer[m])
    ensures !bus.failed ==>
      var n0, k := |old(bus.sent)|, |bus.sent| - |old(bus.sent)|;
      && 0 < k <= length
      && bus.sent == old(bus.sent) + DataPlan(length)[..k]
      && (forall j :: n0 <= j < n0 + k - 1 ==> Acked(bus.seen[j]))
      && (r == 0 <==> k == length)
      && (r == -1 ==> !Acked(bus.seen[n0 + k - 1]))
      && (forall m :: 0 <= m < k ==> buffer[m] == bus.seen[n0 + m][1])
      && (forall m :: k <= m < length ==> buffer[m] == old(buffer[m]))
  {
    ghost var n0 := |bus.sent|;
    var i := 0;
    while i < length
      invariant 0 <= i <= length
      invariant bus.Valid() && bus.initialized == old(bus.initialized)
      invariant old(bus.seen) <= bus.seen && (old(bus.failed) ==> bus.failed)
      invariant !bus.failed ==> bus.sent == old(bus.sent) + DataPlan(length)[..i]
      invariant !bus.failed ==> forall j :: n0 <= j < n0 + i && j < n0 + length - 1 ==> Acked(bus.seen[j])
      invariant !bus.failed ==> forall m :: 0 <= m < i ==> buffer[m] == bus.seen[n0 + m][1]
      invariant forall m :: i <= m < buffer.Length ==> buffer[m] == old(buffer[m])
    {
      ExtendTrace(old(bus.sent), DataPlan(length), i);
      if length - 1 == i {
        var _ := ReadInto(bus, buffer, i, true);
      } else {
        var rueck := ReadInto(bus, buffer, i, false);
        if !BusStatus.Acknowledged(rueck) {
          return -1;
        }
      }
      i := i + 1;
    }
    return 0;
  }

  /** Everything `randomReadUblox` does after a successful preamble: the
      priming read into `buffer[0]`, the data reads and, when they all went
      through, the stop condition. */
  method ReadAfterPreamble(bus: Adapter, buffer: array<byte>, length: nat) returns (r: int)
    requires bus.Valid() && 0 < length <= buffer.Length
    modifies bus, buffer
    ensures bus.Valid() && bus.initialized == old(bus.initialized)
    ensures old(bus.seen) <= bus.seen && (old(bus.failed) ==> bus.failed)
    ensures r == 0 || r == -1
    ensures forall m :: length <= m < buffer.Length ==> buffer[m] == old(buffer[m])
    ensures !bus.failed ==>
      var n1, k := |old(bus.sent)|, |bus.sent| - |old(bus.sent)|;
      && 1 < k <= length + 2
      && bus.sent == old(bus.sent) + TailPlan(length)[..k]
      && (r == 0 <==> k == length + 2)
      && (forall j :: n1 + 1 <= j < n1 + k - 1 && j < n1 + length ==> Acked(bus.seen[j]))
      && (r == -1 ==> k <= length && !Acked(bus.seen[n1 + k - 1]))
      && (forall m :: 0 <= m < length && 1 + m < k ==> buffer[m] == bus.seen[n1 + 1 + m][1])
      && (forall m :: 0 <= m < length && k <= 1 + m ==> buffer[m] == old(buffer[m]))
  {
    ghost var n1 := |bus.sent|;
    var _ := ReadInto(bus, buffer, 0, false);
    label primed:
    r := ReadData(bus, buffer, length);
    if r == 0 {
      var _ := bus.StopIic();
    }
    if !bus.failed {
      TailTrace(old(bus.sent), length, |bus.sent| - |old@primed(bus.sent)| - (if r == 0 then 1 else 0));
    }
  }

  /** `randomReadUblox`: read `length` bytes of register `adr` into
      `buffer[..length]`. The run follows `ReadPlan` and stops exactly at the
      first inspected status without acknowledge; only a complete run issues
      the stop condition and returns 0. */
  method RandomReadUblox(bus: Adapter, adr: byte, buffer: array<byte>, length: nat) returns (r: int)
    requires bus.Valid() && length <= buffer.Length
    modifies bus, buffer
    ensures bus.Valid() && bus.initialized == old(bus.initialized)
    ensures r == 0 || r == -1
    ensures length == 0 ==> r == -1 && unchanged(bus) && unchanged(buffer)
    ensures forall m :: length <= m < buffer.Length ==> buffer[m] == old(buffer[m])
    ensures !bus.failed && length > 0 ==>
      var n0, k := |old(bus.sent)|, |bus.sent| - |old(bus.sent)|;
      && 0 < k <= length + 5
      && bus.sent == old(bus.sent) + ReadPlan(adr, length)[..k]
      && (r == 0 <==> k == length + 5)
      && (1 < k ==> Acked(bus.seen[n0])) && (2 < k ==> Acked(bus.seen[n0 + 1]))
      && (3 < k ==> Acked(bus.seen[n0]) && Acked(bus.seen[n0 + 1]) && Acked(bus.seen[n0 + 2]))
      && (forall j :: n0 + 4 <= j < n0 + k - 1 && j < n0 + length + 3 ==> Acked(bus.seen[j]))
      && (r == -1 ==> (k <= 3 || 5 <= k < length + 4) && !Acked(bus.seen[n0 + k - 1]))
      && (k <= 3 ==> forall m :: 0 <= m < buffer.Length ==> buffer[m] == old(buffer[m]))
      && (forall m :: 0 <= m < length && 4 + m < k ==> buffer[m] == bus.seen[n0 + 4 + m][1])
      && (forall m :: 0 <= m < length && k <= 4 + m ==> buffer[m] == old(buffer[m]))
  {
    if length == 0 {
      return -1;
    }
    ghost var n0 := |bus.sent|;
    var status := InitRead(bus, adr);
    if status == -1 {
      ReadPlanPrefix(old(bus.sent), adr, length, |bus.sent| - n0);
      return -1;
    }
    ghost var n1 := |bus.sent|;
    assert !bus.failed ==> n1 == n0 + 3;
    r := ReadAfterPreamble(bus, buffer, length);
    if !bus.failed {
      ReadPlanPrefix(old(bus.sent), adr, length, 3);
      ReadPlanTail(old(bus.sent), adr, length, |bus.sent| - n0 - 3);
    }
  }

  /** The byte writes of `writeUblox`'s `for` loop, leaving at the first
      status without acknowledge. */
  method WriteData(bus: Adapter, b: seq<byte>, length: nat) returns (r: int)
    requires bus.Valid() && length <= |b|
    modifies bus
    ensures bus.Valid() && bus.initialized == old(bus.initialized)
    ensures old(bus.seen) <= bus.seen && (old(bus.failed) ==> bus.failed)
    ensures r == 0 || r == -1
    ensures !bus.failed ==>
      var n0, k := |old(bus.sent)|, |bus.sent| - |old(bus.sent)|;
      && 0 <= k <= length
      && bus.sent == old(bus.sent) + DataWrites(b, length)[..k]
      && (forall j :: n0 <= j < n0 + k - 1 ==> Acked(bus.seen[j]))
      && (r == 0 <==> k == length && (k == 0 || Acked(bus.seen[n0 + k - 1])))
      && (r == -1 ==> 0 < k && !Acked(bus.seen[n0 + k - 1]))
  {
    ghost var n0 := |bus.sent|;
    var i := 0;
    while i < length
      invariant 0 <= i <= length
      invariant bus.Valid() && bus.initialized == old(bus.initialized)
      invariant old(bus.seen) <= bus.seen && (old(bus.failed) ==> bus.failed)
      invariant !bus.failed ==> bus.sent == old(bus.sent) + DataWrites(b, length)[..i]
      invariant !bus.failed ==> forall j :: n0 <= j < n0 + i ==> Acked(bus.seen[j])
    {
      ExtendTrace(old(bus.sent), DataWrites(b, length), i);
      var rueck := bus.WrByteIic(b[i]);
      if !BusStatus.Acknowledged(rueck) {
        return -1;
      }
      i := i + 1;
    }
    return 0;
  }

  /** `writeUblox`: fewer than two bytes are refused before any bus traffic;
      otherwise a start condition for writing and then `b[..length]` in order,
      returning -1 at the first status without acknowledge. No stop condition
      is ever sent. */
  method WriteUblox(bus: Adapter, b: seq<byte>, length: int) returns (r: int)
    requires bus.Valid() && (length < 2 || length <= |b|)
    modifies bus
    ensures bus.Valid() && bus.initialized == old(bus.initialized)
    ensures r == 0 || r == -1
    ensures length < 2 ==> r == -1 && unchanged(bus)
    ensures !bus.failed && length >= 2 ==>
      var n0, k := |old(bus.sent)|, |bus.sent| - |old(bus.sent)|;
      && 0 < k <= length + 1
      && bus.sent == old(bus.sent) + WritePlan(b, length)[..k]
      && (forall j :: n0 <= j < n0 + k - 1 ==> Acked(bus.seen[j]))
      && (r == 0 <==> Acked(bus.seen[n0 + k - 1]))
      && (r == 0 ==> k == length + 1)
  {
    if length < 2 {
      return -1;
    }
    ghost var n0 := |bus.sent|;
    var rueck := bus.StartIic(true, UBLOX_ADR, ASCII_w);
    if !BusStatus.Acknowledged(rueck) {
      return -1;
    }
    r := WriteData(bus, b, length);
    if !bus.failed {
      WritePlanSplit(b, length, |bus.sent| - n0 - 1);
    }
  }

  /** Appending the next planned frame extends the planned prefix by one. */
  lemma ExtendTrace<T>(base: seq<T>, plan: seq<T>, k: nat)
    requires k < |plan|
    ensures base + plan[..k] + [plan[k]] == base + plan[..k + 1]
  {
    assert plan[..k + 1] == plan[..k] + [plan[k]];
  }

  /** The frames after the preamble: the priming read, the data reads and
      the stop condition. */
  function TailPlan(length: nat): (p: seq<Frame>)
    ensures |p| == length + 2
  {
    [Encode(ReadByte(false))] + DataPlan(length) + [Encode(Stop)]
  }

  lemma TailTrace(s0: seq<Frame>, length: nat, k: nat)
    requires k <= length
    ensures s0 + [Encode(ReadByte(false))] + DataPlan(length)[..k] == s0 + TailPlan(length)[..1 + k]
    ensures k == length ==> s0 + [Encode(ReadByte(false))] + DataPlan(length)[..k] + [Encode(Stop)] == s0 + TailPlan(length)
  {
    assert TailPlan(length)[..1 + k] == [Encode(ReadByte(false))] + DataPlan(length)[..k];
  }

  lemma ReadPlanPrefix(s0: seq<Frame>, adr: byte, length: nat, k: nat)
    requires k <= 3
    ensures s0 + ReadPlan(adr, length)[..k] == s0 + InitReadPlan(adr)[..k]
  {
    assert ReadPlan(adr, length)[..k] == InitReadPlan(adr)[..k];
  }

  lemma ReadPlanTail(s0: seq<Frame>, adr: byte, length: nat, k: nat)
    requires k <= length + 2
    ensures s0 + InitReadPlan(adr)[..3] + TailPlan(length)[..k] == s0 + ReadPlan(adr, length)[..3 + k]
  {
    assert ReadPlan(adr, length) == InitReadPlan(adr) + TailPlan(length);
    assert ReadPlan(adr, length)[..3 + k] == InitReadPlan(adr)[..3] + TailPlan(length)[..k];
  }

  lemma WritePlanSplit(b: seq<byte>, length: nat, k: int)
    requires length <= |b| && 0 <= k <= length
    ensures WritePlan(b, length)[..1 + k] == [Encode(Start(WriteAccess, UBLOX_ADR))] + DataWrites(b, length)[..k]
  {
  }
}
