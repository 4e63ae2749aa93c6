/** RTU frames: what mb_rtu_tx sends, and exactly which byte strings mb_rtu_rx accepts. */
module RtuFrame {
  import opened Crc
  import opened CrcAlgebra
  import opened CrcErrors
  import opened CrcSpec
  import opened Errors
  import opened Registers
  import opened RtuMachine

  /** Address, PDU, CRC low byte, CRC high byte: mb_rtu.c:192-208 on a little-endian host. */
  function Frame(unit: bv8, pdu: seq<bv8>): (frame: seq<bv8>)
    ensures |frame| == |pdu| + 3 && frame[0] == unit && frame[1..|pdu| + 1] == pdu
  {
    var crc := BitwiseCrc([unit] + pdu, 0xFFFF);
    [unit] + pdu + [Low(crc), High(crc)]
  }

  /** The example of appendix B of the serial line guide: unit 02, PDU 07, CRC 1241, low byte first. */
  lemma KnownFrame()
    ensures Frame(0x02, [0x07]) == [0x02, 0x07, 0x41, 0x12]
  {
    assert [0x02] + [0x07] == [0x02, 0x07] && [0x02, 0x07][..1] == [0x02] && [0x02][..0] == [];
    assert BitwiseCrc([0x02], 0xFFFF) == ByteStep(BitwiseCrc([], 0xFFFF), 0x02);
    assert BitwiseCrc([0x02, 0x07], 0xFFFF) == ByteStep(BitwiseCrc([0x02], 0xFFFF), 0x07);
    assert Xor(0xFFFF, Widen(0x02)) == 0xFFFD && Xor(0x813E, Widen(0x07)) == 0x8139;
    assert Low(0x1241) == 0x41 && High(0x1241) == 0x12;
    Step8IsIter(0xFFFD);
    Step8IsIter(0x8139);
    FirstEight();
    SecondEight();
    hide BitStep, Low, High, Xor, Widen;
  }

  lemma FirstEight()
    ensures BitStep(0xFFFD) == 0xDFFF && BitStep(0xDFFF) == 0xCFFE && BitStep(0xCFFE) == 0x67FF
    ensures BitStep(0x67FF) == 0x93FE && BitStep(0x93FE) == 0x49FF && BitStep(0x49FF) == 0x84FE
    ensures BitStep(0x84FE) == 0x427F && BitStep(0x427F) == 0x813E
  {
  }

  lemma SecondEight()
    ensures BitStep(0x8139) == 0xE09D && BitStep(0xE09D) == 0xD04F && BitStep(0xD04F) == 0xC826
    ensures BitStep(0xC826) == 0x6413 && BitStep(0x6413) == 0x9208 && BitStep(0x9208) == 0x4904
    ensures BitStep(0x4904) == 0x2482 && BitStep(0x2482) == 0x1241
  {
  }

  lemma FrameResidue(unit: bv8, pdu: seq<bv8>)
    ensures BitwiseCrc(Frame(unit, pdu), 0xFFFF) == 0
  {
    hide BitwiseCrc, Low, High;
    var crc := BitwiseCrc([unit] + pdu, 0xFFFF);
    ZeroResidue([unit] + pdu, Low(crc), High(crc), 0xFFFF);
  }

  /** A PDU comes back whole exactly when it has at most 251 bytes and the unit matches or is
      the broadcast unit; a longer one is always refused, since the 253-byte buffer must hold
      the CRC as well. */
  lemma RoundTrip(unit: bv8, pdu: seq<bv8>, listening: bv8)
    ensures Outcome(Frame(unit, pdu), listening)
      == if |pdu| > MAX_PDU_SIZE - 2 then EFRAME_NOK
         else if unit != listening && unit != 0 then ESLAVE_ID
         else |pdu|
    ensures Frame(unit, pdu)[1..][..|pdu|] == pdu
  {
    hide BitwiseCrc, Low, High;
    FrameResidue(unit, pdu);
    assert Frame(unit, pdu)[1..][..|pdu|] == Frame(unit, pdu)[1..|pdu| + 1];
  }

  /** Exact acceptance: with at least two bytes after the address, the checks pass exactly on
      the frames a sender would have built for the accepted unit and some PDU that fits. */
  lemma AcceptedIff(sent: seq<bv8>, listening: bv8)
    requires |sent| >= 3
    ensures Outcome(sent, listening) >= 0
      <==> && |sent| <= MAX_PDU_SIZE + 1
           && (sent[0] == listening || sent[0] == 0)
           && sent == Frame(sent[0], sent[1..|sent| - 2])
  {
    hide BitwiseCrc, Low, High;
    var n := |sent|;
    var body, lo, hi := sent[..n - 2], sent[n - 2], sent[n - 1];
    var crc := BitwiseCrc(body, 0xFFFF);
    assert sent == body + [lo, hi];
    assert body == [sent[0]] + sent[1..n - 2];
    ZeroResidue(body, lo, hi, 0xFFFF);
    var f := Frame(sent[0], sent[1..n - 2]);
    assert f == body + [Low(crc), High(crc)];
    assert f == sent <==> (f[n - 2] == lo && f[n - 1] == hi) by {
      if f[n - 2] == lo && f[n - 1] == hi {
        assert [Low(crc), High(crc)] == [lo, hi];
      }
    }
  }

  // ---- frames with fewer than two bytes after the address -----------------------------

  lemma {:induction false} WithinSteps(c: bv16, m: nat, k: nat)
    requires Within(Iter(BitStep, m, c), k) && k + m <= 16
    ensures Within(c, k + m)
  {
    hide BitStep, Within;
    if m > 0 {
      WithinStep(Iter(BitStep, m - 1, c), k);
      WithinSteps(c, m - 1, k + 1);
    }
  }

  /** n shifts carry the lowest set bit of an n-bit value out and leave the polynomial's top
      bit above the 16 - n lowest. */
  lemma {:induction false} LeavesHighBit(c: bv16, n: nat)
    requires c != 0 && Within(c, n) && n <= 8
    ensures !Within(Iter(BitStep, n, c), 16 - n)
    decreases n
  {
    hide BitStep, Halve, Odd, Xor;
    var d := BitStep(c);
    IterAdd(BitStep, 1, n - 1, c);
    assert Iter(BitStep, 1, c) == BitStep(Iter(BitStep, 0, c));
    if Odd(c) {
      if Within(Iter(BitStep, n, c), 16 - n) {
        WithinSteps(d, n - 1, 16 - n);
        OddStepIsHigh(c);
        WithinFifteen(d);
      }
    } else {
      BitStepCases(c);
      XorLaws(Halve(c), 0);
      HalveOfEven(c);
      LeavesHighBit(d, n - 1);
      if Within(Iter(BitStep, n, c), 16 - n) {
        WithinMore(Iter(BitStep, n, c), 16 - n, 17 - n);
      }
    }
  }

  lemma HalveOfEven(c: bv16)
    requires !Odd(c) && c != 0
    ensures Halve(c) != 0
  {
  }

  lemma ByteIsWithin(b: bv8)
    ensures Within(Widen(b), 8)
    ensures Widen(b) == 0 <==> b == 0
  {
    WithinEight(Widen(b));
  }

  lemma WithinEight(c: bv16)
    ensures Within(c, 8) <==> c >> 8 == 0
  {
    hide Halve, Halve3;
    WithinThree(c, 5);
    WithinThree(Halve3(c), 2);
    Halve3Shifts(c);
    Halve3Shifts(c >> 3);
    assert (c >> 3) >> 3 == c >> 6;
    WithinTwo(c >> 6);
    assert (c >> 6) >> 2 == c >> 8;
  }

  lemma WithinTwo(c: bv16)
    ensures Within(c, 2) <==> c >> 2 == 0
  {
    assert Within(c, 2) == Within(Halve(c), 1);
    assert Within(Halve(c), 1) == Within(Halve(Halve(c)), 0);
    assert Halve(Halve(c)) == c >> 2;
  }

  /** The low table vanishes only at index 0. */
  lemma HighByteAfterEight(index: bv8)
    requires Iter(BitStep, 8, Widen(index)) >> 8 == 0
    ensures index == 0
  {
    hide BitStep, Within, Widen;
    WithinEight(Iter(BitStep, 8, Widen(index)));
    ByteIsWithin(index);
    if index != 0 {
      LeavesHighBit(Widen(index), 8);
    }
  }

  lemma ByteStepZero(c: bv16, b: bv8)
    ensures ByteStep(c, b) == 0 <==> c == Widen(b)
  {
    hide BitStep, Xor, Widen, Linear;
    Crc16Laws();
    IterZero(Crc16(), 8, Xor(c, Widen(b)));
    GroupLaws();
    CancelXor(Crc16(), c, Widen(b));
  }

  lemma FirstByte(a: bv8)
    ensures ByteStep(0xFFFF, a) == Xor(0x00FF, Iter(BitStep, 8, Widen(0xFF ^ a)))
  {
    hide BitStep, Xor, Widen, Pack;
    AddByte(0xFF, 0xFF, a);
    PackOnes();
    StepLaws();
    IterXor(Crc16(), 8, Pack(0xFF, 0), Widen(0xFF ^ a));
    Step8IsIter(Pack(0xFF, 0));
    Step8OfHighByte(0xFF);
  }

  lemma PackOnes()
    ensures Pack(0xFF, 0xFF) == 0xFFFF && Widen(0xFF) == 0x00FF
  {
  }

  lemma HighOfXor(t: bv16, x: bv8)
    requires Xor(0x00FF, t) == Widen(x)
    ensures t >> 8 == 0
    ensures t == 0 ==> x == 0xFF
  {
  }

  lemma ComplementZero(a: bv8)
    ensures 0xFF ^ a == 0 <==> a == 0xFF
  {
  }

  /** A frame with fewer than two bytes after the address passes every check only when it is
      FF FF and the unit 255, which no configured slave (at most 247) has. The count of
      received bytes then goes below zero: mb_rtu_rx answers -1. */
  lemma ShortFrames(sent: seq<bv8>, listening: bv8)
    requires 1 <= |sent| <= 2
    ensures BitwiseCrc(sent, 0xFFFF) == 0 && (sent[0] == listening || sent[0] == 0)
      <==> sent == [0xFF, 0xFF] && listening == 0xFF
    ensures Outcome([0xFF, 0xFF], 0xFF) == -1
  {
    hide ByteStep, Widen, Xor, BitStep;
    var a := sent[0];
    OneByte(a);
    TwoBytes(0xFF, 0xFF);
    if |sent| == 1 {
      assert sent == [a];
    } else {
      assert sent == [a, sent[1]];
      TwoBytes(a, sent[1]);
    }
  }

  lemma OneByte(a: bv8)
    ensures BitwiseCrc([a], 0xFFFF) != 0
  {
    hide ByteStep;
    assert [a][..0] == [];
    assert BitwiseCrc([a], 0xFFFF) == ByteStep(BitwiseCrc([], 0xFFFF), a);
    ByteStepZero(0xFFFF, a);
  }

  lemma TwoBytes(a: bv8, x: bv8)
    ensures BitwiseCrc([a, x], 0xFFFF) == 0 <==> a == 0xFF && x == 0xFF
  {
    hide ByteStep, Widen, Xor, BitStep;
    assert [a, x][..1] == [a] && [a][..0] == [];
    assert BitwiseCrc([a], 0xFFFF) == ByteStep(BitwiseCrc([], 0xFFFF), a);
    assert BitwiseCrc([a, x], 0xFFFF) == ByteStep(BitwiseCrc([a], 0xFFFF), x);
    var c := ByteStep(0xFFFF, a);
    var t := Iter(BitStep, 8, Widen(0xFF ^ a));
    ByteStepZero(c, x);
    FirstByte(a);
    ComplementZero(a);
    if c == Widen(x) {
      HighOfXor(t, x);
      HighByteAfterEight(0xFF ^ a);
      WidenZero();
      Crc16Laws();
      IterZero(Crc16(), 8, 0);
    }
    if a == 0xFF && x == 0xFF {
      WidenZero();
      Crc16Laws();
      IterZero(Crc16(), 8, 0);
      XorLaws(0x00FF, 0);
      PackOnes();
    }
  }

  /** A slave whose unit is one mb_rtu_bringup allows never accepts a frame that is shorter
      than its own CRC. */
  lemma AcceptedHasCrc(sent: seq<bv8>, listening: bv8)
    requires sent != [] && listening <= 247
    ensures Outcome(sent, listening) >= 0 || Outcome(sent, listening) in {EFRAME_NOK, ESLAVE_ID, ECRC_FAIL}
  {
    hide BitwiseCrc;
    if |sent| <= 2 {
      ShortFrames(sent, listening);
    }
  }

  /** What the bytes between two silences deserve, by number: too long, for another unit, a sender's
      frame, or neither; but for the one short frame that passes. */
  lemma VerdictByNumber(sent: seq<bv8>, unit: bv8)
    requires sent != []
    ensures Outcome(sent, unit) ==
      if |sent| > 254 then -102
      else if sent[0] != unit && sent[0] != 0 then -103
      else if |sent| >= 3 && sent == Frame(sent[0], sent[1..|sent| - 2]) then |sent| - 3
      else if sent == [0xFF, 0xFF] then -1
      else -101
  {
    hide BitwiseCrc, Frame;
    if |sent| >= 3 {
      AcceptedIff(sent, unit);
    } else {
      ShortFrames(sent, unit);
    }
  }
}
