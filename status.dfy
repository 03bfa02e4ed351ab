/** The PCD8584 status register as the adapter reports it after every bus
    operation, and the bus-clock codes accepted by the reset handshake. */
module BusStatus {
  import opened Bytes

  // Status register masks, one per flag.
  const PIN: byte := 0x80     // transfer still pending (0 once a byte has gone through)
  const STS: byte := 0x20     // an external stop condition was seen
  const BER: byte := 0x10     // bus error: misplaced start or stop
  const AD0LRB: byte := 0x08  // last received bit; the acknowledge bit while AAS is 0
  const AAS: byte := 0x04     // addressed as slave
  const LAB: byte := 0x02     // arbitration lost
  const BB: byte := 0x01      // inverted bus busy: 1 means the bus is free

  /** The seven masks in register order, bit 7 first. */
  const Masks: seq<byte> := [PIN, STS, BER, AD0LRB, AAS, LAB, BB]

  /** The bit that bit 6 of the register stands for: unassigned, always 0. */
  const Unassigned: byte := 0x40

  // Bus clock codes for the clock-set command.
  const SCL90: byte := 'A' as bv8   // 90 kHz
  const SCL45: byte := 'B' as bv8   // 45 kHz
  const SCL11: byte := 'C' as bv8   // 11 kHz
  const SCL1_5: byte := 'D' as bv8  // 1.5 kHz

  /** The status byte seen as named flags. */
  datatype Status = Status(pin: bool, sts: bool, ber: bool, ad0lrb: bool, aas: bool, lab: bool, bb: bool)

  /** Bit `k` of `s`, counted from the least significant bit. */
  predicate Bit(s: byte, k: nat)
    requires k < 8
  {
    (s >> k) & 1 == 1
  }

  /** The flag extraction: each flag is the bit its mask selects, and the flags
      sit at the documented register positions. */
  function Decode(s: byte): (r: Status)
    ensures r.pin == Bit(s, 7) && r.sts == Bit(s, 5) && r.ber == Bit(s, 4)
    ensures r.ad0lrb == Bit(s, 3) && r.aas == Bit(s, 2) && r.lab == Bit(s, 1) && r.bb == Bit(s, 0)
  {
    Status(s & PIN != 0, s & STS != 0, s & BER != 0, s & AD0LRB != 0,
           s & AAS != 0, s & LAB != 0, s & BB != 0)
  }

  /** The register value that carries exactly the given flags. */
  function Encode(st: Status): (s: byte)
    ensures s & Unassigned == 0
    ensures Decode(s) == st
  {
    (if st.pin then PIN else 0) | (if st.sts then STS else 0) | (if st.ber then BER else 0)
    | (if st.ad0lrb then AD0LRB else 0) | (if st.aas then AAS else 0)
    | (if st.lab then LAB else 0) | (if st.bb then BB else 0)
  }

  /** Decoding forgets exactly bit 6: the flags determine every other bit. */
  lemma EncodeDecode(s: byte)
    ensures Encode(Decode(s)) == s & !Unassigned
  {
  }

  /** A status byte that acknowledges the last transferred byte. */
  predicate Acknowledged(s: byte)
  {
    Decode(s).ad0lrb
  }

  /** A status byte that reports the bus free, as after a stop condition. */
  predicate BusFree(s: byte)
  {
    Decode(s).bb
  }

  /** Whether a slave acknowledged depends on bit 3 alone. */
  lemma AcknowledgedIsBit3(s: byte, t: byte)
    ensures Acknowledged(s) <==> s & AD0LRB == AD0LRB
    ensures s & AD0LRB == t & AD0LRB ==> (Acknowledged(s) <==> Acknowledged(t))
  {
  }

  /** Each mask is a single bit at its documented position. */
  lemma MasksAreSingleBits()
    ensures PIN == 1 << 7 && STS == 1 << 5 && BER == 1 << 4 && AD0LRB == 1 << 3
    ensures AAS == 1 << 2 && LAB == 1 << 1 && BB == 1 << 0
  {
  }

  /** The masks are pairwise disjoint, none covers bit 6, and together they
      cover every other bit: so every flag decodes independently. */
  lemma MasksPartitionRegister()
    ensures forall i, j :: 0 <= i < j < |Masks| ==> Masks[i] & Masks[j] == 0
    ensures forall i :: 0 <= i < |Masks| ==> Masks[i] & Unassigned == 0
    ensures PIN | STS | BER | AD0LRB | AAS | LAB | BB == 0xBF == !Unassigned
  {
  }

  /** Flipping the bit of one of the upper masks flips that flag and no other. */
  lemma UpperFlagsIndependent(s: byte)
    ensures var d := Decode(s); Decode(s ^ PIN) == d.(pin := !d.pin) && Decode(s ^ STS) == d.(sts := !d.sts)
    ensures var d := Decode(s); Decode(s ^ BER) == d.(ber := !d.ber) && Decode(s ^ AD0LRB) == d.(ad0lrb := !d.ad0lrb)
  {
  }

  /** The same for the lower masks; flipping the unassigned bit changes no flag. */
  lemma LowerFlagsIndependent(s: byte)
    ensures var d := Decode(s); Decode(s ^ AAS) == d.(aas := !d.aas) && Decode(s ^ LAB) == d.(lab := !d.lab)
    ensures var d := Decode(s); Decode(s ^ BB) == d.(bb := !d.bb) && Decode(s ^ Unassigned) == d
  {
  }

  /** The acknowledge-only register and the all-ones register. */
  lemma DecodeExamples()
    ensures Decode(AD0LRB) == Status(false, false, false, true, false, false, false)
    ensures Decode(0xFF) == Status(true, true, true, true, true, true, true)
  {
  }

  /** The documented legal values of the clock argument of the reset handshake. */
  predicate IsClockCode(c: byte)
  {
    c == SCL90 || c == SCL45 || c == SCL11 || c == SCL1_5
  }

  /** The four clock codes are distinct and are exactly the letters 'A' to 'D'. */
  lemma ClockCodes(c: byte)
    ensures |{SCL90, SCL45, SCL11, SCL1_5}| == 4
    ensures IsClockCode(c) <==> 'A' as bv8 <= c <= 'D' as bv8
  {
  }
}
