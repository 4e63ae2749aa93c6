/** The CRC register as a linear feedback register. */
module CrcAlgebra {
  import opened CrcSpec
  import opened Registers

  function Crc16(): Register<bv16> {
    Register(0, 1, Xor, BitStep)
  }

  lemma XorLaws(a: bv16, b: bv16)
    ensures Xor(a, 0) == a && Xor(0, a) == a && Xor(a, a) == 0 && Xor(Xor(a, b), b) == a
  {
  }

  lemma XorComm(a: bv16, b: bv16)
    ensures Xor(a, b) == Xor(b, a)
  {
  }

  lemma XorAssoc(a: bv16, b: bv16, c: bv16)
    ensures Xor(Xor(a, b), c) == Xor(a, Xor(b, c))
  {
  }

  lemma XorMedial(a: bv16, b: bv16, c: bv16, d: bv16)
    ensures Xor(Xor(a, b), Xor(c, d)) == Xor(Xor(a, c), Xor(b, d))
  {
    hide Xor;
    XorAssoc(a, b, Xor(c, d));
    XorAssoc(b, c, d);
    XorComm(b, c);
    XorAssoc(c, b, d);
    XorAssoc(a, c, Xor(b, d));
  }

  function Halve(c: bv16): bv16 { c >> 1 }

  predicate Odd(c: bv16) { c & 1 == 1 }

  lemma HalveXor(a: bv16, b: bv16)
    ensures Halve(Xor(a, b)) == Xor(Halve(a), Halve(b))
  {
  }

  lemma OddXor(a: bv16, b: bv16)
    ensures Odd(Xor(a, b)) <==> Odd(a) != Odd(b)
  {
  }

  lemma BitStepCases(c: bv16)
    ensures BitStep(c) == Xor(Halve(c), if Odd(c) then 0xA001 else 0)
  {
    hide BitStep, Xor, Halve, Odd;
    if Odd(c) {
      BitStepOdd(c);
    } else {
      BitStepEven(c);
    }
  }

  lemma BitStepOdd(c: bv16)
    requires Odd(c)
    ensures BitStep(c) == Xor(Halve(c), 0xA001)
  {
  }

  lemma BitStepEven(c: bv16)
    requires !Odd(c)
    ensures BitStep(c) == Xor(Halve(c), 0)
  {
  }

  /** Exclusive or passes through a shift. */
  lemma BitStepXor(a: bv16, b: bv16)
    ensures BitStep(Xor(a, b)) == Xor(BitStep(a), BitStep(b))
  {
    hide BitStep, Xor, Halve, Odd;
    var u, v: bv16 := if Odd(a) then 0xA001 else 0, if Odd(b) then 0xA001 else 0;
    BitStepCases(a);
    BitStepCases(b);
    BitStepCases(Xor(a, b));
    HalveXor(a, b);
    OddXor(a, b);
    XorMedial(Halve(a), u, Halve(b), v);
    XorLaws(u, v);
    XorLaws(v, u);
  }

  lemma BitStepZero(c: bv16)
    ensures BitStep(c) == 0 <==> c == 0
  {
  }

  lemma GroupLaws()
    ensures Group(Crc16())
  {
    hide Xor;
    forall a: bv16 ensures Xor(a, 0) == a && Xor(0, a) == a && Xor(a, a) == 0 {
      XorLaws(a, a);
    }
    forall a: bv16, b: bv16 ensures Xor(Xor(a, b), b) == a {
      XorLaws(a, b);
    }
  }

  lemma StepLaws()
    ensures Additive(Crc16())
    ensures forall a :: BitStep(a) == 0 ==> a == 0
  {
    hide BitStep, Xor;
    forall a, b ensures BitStep(Xor(a, b)) == Xor(BitStep(a), BitStep(b)) {
      BitStepXor(a, b);
    }
    forall a ensures BitStep(a) == 0 ==> a == 0 {
      BitStepZero(a);
    }
  }

  /** The CRC register obeys the laws from which everything in Registers follows. */
  lemma Crc16Laws()
    ensures Linear(Crc16())
  {
    hide BitStep, Xor;
    var r := Crc16();
    GroupLaws();
    StepLaws();
    assert forall a :: r.step(a) == BitStep(a);
    BitStepZero(0);
    forall a, b, c, d ensures MedialAt(r, a, b, c, d) {
      XorMedial(a, b, c, d);
    }
  }

  // ---- bytes ------------------------------------------------------------------------

  /** The n lowest bits of b in the order in which a serial line carries them. */
  function BitsOf(b: bv8, n: nat): (bits: seq<bool>)
    ensures |bits| == n
  {
    if n == 0 then [] else [b & 1 == 1] + BitsOf(b >> 1, n - 1)
  }

  function Bits(data: seq<bv8>): (bits: seq<bool>)
    ensures |bits| == 8 * |data|
  {
    if data == [] then [] else Bits(data[..|data| - 1]) + BitsOf(data[|data| - 1], 8)
  }

  lemma SplitByte(c: bv16, b: bv8)
    ensures Xor(c, Widen(b)) == Xor(Xor(c, Widen(b & 1)), Widen(b & 0xFE))
  {
  }

  lemma ShiftHighBits(b: bv8)
    ensures BitStep(Widen(b & 0xFE)) == Widen(b >> 1)
  {
  }

  lemma AddLowBit(c: bv16, b: bv8)
    ensures AddBit(Crc16(), c, b & 1 == 1) == Xor(c, Widen(b & 1))
  {
  }

  /** Adding the remaining bits of a byte all at once, or this one now and the others after
      the shift, is the same. */
  lemma PeelBit(c: bv16, b: bv8)
    ensures BitStep(Xor(c, Widen(b))) == Xor(BitStep(AddBit(Crc16(), c, b & 1 == 1)), Widen(b >> 1))
  {
    hide BitStep, AddBit, Xor, Widen;
    SplitByte(c, b);
    BitStepXor(Xor(c, Widen(b & 1)), Widen(b & 0xFE));
    ShiftHighBits(b);
    AddLowBit(c, b);
  }

  ghost predicate Fits(b: bv8, n: nat) {
    n <= 8 && b >> n == 0
  }

  lemma FitsShift(b: bv8, n: nat)
    requires n > 0 && Fits(b, n)
    ensures Fits(b >> 1, n - 1)
  {
  }

  lemma FitsNone(b: bv8)
    ensures Fits(b, 8) && (Fits(b, 0) ==> b == 0)
  {
  }

  lemma {:induction false} BitsOneByOne(c: bv16, b: bv8, n: nat)
    requires Fits(b, n)
    ensures Iter(BitStep, n, Xor(c, Widen(b))) == Feed(Crc16(), c, BitsOf(b, n))
    decreases n
  {
    hide BitStep, AddBit, Xor, Widen, Fits;
    var r := Crc16();
    if n == 0 {
      FitsNone(b);
      assert Xor(c, Widen(0)) == c by { XorLaws(c, 0); WidenZero(); }
    } else {
      var c' := BitStep(AddBit(r, c, b & 1 == 1));
      IterAdd(BitStep, 1, n - 1, Xor(c, Widen(b)));
      assert Iter(BitStep, 1, Xor(c, Widen(b))) == BitStep(Iter(BitStep, 0, Xor(c, Widen(b))));
      PeelBit(c, b);
      FitsShift(b, n);
      BitsOneByOne(c', b >> 1, n - 1);
      FeedCons(r, c, b & 1 == 1, BitsOf(b >> 1, n - 1));
    }
  }

  lemma WidenZero()
    ensures Widen(0) == 0
  {
  }

  /** The byte-wise CRC of a message is the register fed with its bits. */
  lemma {:induction false} CrcIsFeed(data: seq<bv8>, preload: bv16)
    ensures BitwiseCrc(data, preload) == Feed(Crc16(), preload, Bits(data))
    decreases |data|
  {
    hide BitStep, AddBit, Xor, Widen;
    if data != [] {
      var init, last := data[..|data| - 1], data[|data| - 1];
      CrcIsFeed(init, preload);
      FitsNone(last);
      BitsOneByOne(BitwiseCrc(init, preload), last, 8);
      FeedConcat(Crc16(), preload, Bits(init), BitsOf(last, 8));
    }
  }

  /** Chained calls, the second preloaded with the first's result, equal one call on the
      concatenation; mb_rtu.c computes the CRC of address and PDU this way. */
  lemma {:induction false} CrcConcat(a: seq<bv8>, b: seq<bv8>, preload: bv16)
    ensures BitwiseCrc(a + b, preload) == BitwiseCrc(b, BitwiseCrc(a, preload))
    decreases |b|
  {
    hide ByteStep;
    if b == [] {
      assert a + b == a;
    } else {
      var n := |b| - 1;
      assert (a + b)[..|a + b| - 1] == a + b[..n];
      CrcConcat(a, b[..n], preload);
    }
  }
}
