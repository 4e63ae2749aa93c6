/** Which corruptions of a frame the CRC of src/mb_crc.c detects. */
module CrcErrors {
  import opened CrcAlgebra
  import opened CrcOrder
  import opened CrcSpec
  import opened Registers

  /** The bit positions, in transmission order, where the received frame g differs from the
      sent frame f. */
  function Errors(f: seq<bv8>, g: seq<bv8>): (e: seq<bool>)
    requires |f| == |g|
    ensures |e| == 8 * |f|
  {
    Differ(Bits(f), Bits(g))
  }

  /** Whether a corrupted frame passes depends only on where its bits were flipped. */
  lemma MissedIff(f: seq<bv8>, g: seq<bv8>, preload: bv16)
    requires |f| == |g| && BitwiseCrc(f, preload) == 0
    ensures BitwiseCrc(g, preload) == 0 <==> Feed(Crc16(), 0, Errors(f, g)) == 0
  {
    hide BitStep, Xor, BitwiseCrc;
    Crc16Laws();
    CrcIsFeed(f, preload);
    CrcIsFeed(g, preload);
    XorLaws(preload, preload);
    XorLaws(Feed(Crc16(), preload, Bits(g)), 0);
    FeedXor(Crc16(), preload, preload, Bits(f), Bits(g));
  }

  // ---- parity -----------------------------------------------------------------------

  /** Only the k lowest bits of the register can be set. */
  ghost predicate Within(c: bv16, k: nat) {
    if k == 0 then c == 0 else Within(Halve(c), k - 1)
  }

  function Halve3(c: bv16): bv16 { Halve(Halve(Halve(c))) }

  lemma Halve3Shifts(c: bv16)
    ensures Halve3(c) == c >> 3
  {
  }

  lemma FifteenShifts(c: bv16)
    ensures Halve3(Halve3(Halve3(Halve3(Halve3(c))))) == c >> 15
  {
    hide Halve3;
    Halve3Shifts(c);
    Halve3Shifts(c >> 3);
    Halve3Shifts(c >> 6);
    Halve3Shifts(c >> 9);
    Halve3Shifts(c >> 12);
    assert (c >> 3) >> 3 == c >> 6 && (c >> 6) >> 3 == c >> 9;
    assert (c >> 9) >> 3 == c >> 12 && (c >> 12) >> 3 == c >> 15;
  }

  lemma TopShifts(c: bv16)
    ensures c >> 15 == 0 <==> !Top(c)
    ensures Halve(c) >> 15 == 0
  {
  }

  lemma WithinFifteen(c: bv16)
    ensures Within(c, 15) <==> !Top(c)
    ensures Within(Halve(c), 15)
  {
    hide Halve, Halve3, Top;
    AllButTop(c);
    AllButTop(Halve(c));
    TopShifts(c);
  }

  lemma AllButTop(c: bv16)
    ensures Within(c, 15) <==> c >> 15 == 0
  {
    hide Halve, Halve3;
    WithinThree(c, 12);
    WithinThree(Halve3(c), 9);
    WithinThree(Halve3(Halve3(c)), 6);
    WithinThree(Halve3(Halve3(Halve3(c))), 3);
    WithinThree(Halve3(Halve3(Halve3(Halve3(c)))), 0);
    FifteenShifts(c);
  }

  lemma WithinThree(c: bv16, k: nat)
    ensures Within(c, k + 3) == Within(Halve3(c), k)
  {
    hide Halve;
    assert Within(c, k + 3) == Within(Halve(c), k + 2);
    assert Within(Halve(c), k + 2) == Within(Halve(Halve(c)), k + 1);
  }

  predicate Top(c: bv16) { c & 0x8000 != 0 }

  lemma {:induction false} WithinMore(c: bv16, k: nat, n: nat)
    requires k <= n && Within(c, k)
    ensures Within(c, n)
    decreases n
  {
    hide Halve;
    if n > 0 {
      if k == 0 {
        assert Halve(0) == 0 by { HalveZero(); }
        WithinMore(Halve(c), 0, n - 1);
      } else {
        WithinMore(Halve(c), k - 1, n - 1);
      }
    }
  }

  lemma HalveZero()
    ensures Halve(0) == 0 && !Odd(0) && Halve(1) == 0 && Odd(1)
  {
  }

  /** Whether an odd number of the n lowest bits are set. */
  predicate OddOf(c: bv16, n: nat) {
    if n == 0 then false else Odd(c) != OddOf(Halve(c), n - 1)
  }

  /** Whether the register holds an odd number of set bits. */
  predicate OddParity(c: bv16) {
    OddOf(c, 16)
  }

  lemma {:induction false} OddOfXor(a: bv16, b: bv16, n: nat)
    ensures OddOf(Xor(a, b), n) == (OddOf(a, n) != OddOf(b, n))
    decreases n
  {
    hide Odd, Halve, Xor;
    if n > 0 {
      OddXor(a, b);
      HalveXor(a, b);
      OddOfXor(Halve(a), Halve(b), n - 1);
    }
  }

  lemma {:induction false} OddOfMore(c: bv16, n: nat)
    requires n < 16 && Within(c, n)
    ensures OddOf(c, n + 1) == OddOf(c, n)
    decreases n
  {
    hide Odd, Halve;
    if n == 0 {
      HalveZero();
      assert !OddOf(Halve(c), 0);
    } else {
      OddOfMore(Halve(c), n - 1);
    }
  }

  lemma {:induction false} EvenZero(n: nat)
    ensures !OddOf(0, n)
  {
    if n > 0 {
      HalveZero();
      EvenZero(n - 1);
    }
  }

  lemma PolynomialIsOdd()
    ensures OddOf(0xA001, 16) && !OddOf(0, 16) && OddOf(1, 16)
  {
    EvenZero(16);
    EvenZero(15);
    HalveZero();
    assert OddOf(1, 16) == (Odd(1) != OddOf(Halve(1), 15));
    assert !OddOf(0x0000, 0);
    assert OddOf(0x0001, 1);
    assert OddOf(0x0002, 2);
    assert !OddOf(0x0005, 3);
    assert !OddOf(0x000A, 4);
    assert !OddOf(0x0014, 5);
    assert !OddOf(0x0028, 6);
    assert !OddOf(0x0050, 7);
    assert !OddOf(0x00A0, 8);
    assert !OddOf(0x0140, 9);
    assert !OddOf(0x0280, 10);
    assert !OddOf(0x0500, 11);
    assert !OddOf(0x0A00, 12);
    assert !OddOf(0x1400, 13);
    assert !OddOf(0x2800, 14);
    assert !OddOf(0x5000, 15);
    assert OddOf(0xA001, 16);
  }

  lemma ShiftKeepsParity(c: bv16)
    ensures OddParity(BitStep(c)) == OddParity(c)
  {
    hide BitStep, Odd, Halve, Xor, Within;
    BitStepCases(c);
    OddOfXor(Halve(c), if Odd(c) then 0xA001 else 0, 16);
    PolynomialIsOdd();
    WithinFifteen(c);
    OddOfMore(Halve(c), 15);
  }

  lemma InputFlipsParity(c: bv16)
    ensures OddParity(Xor(c, 1)) != OddParity(c)
  {
    hide Xor;
    OddOfXor(c, 1, 16);
    PolynomialIsOdd();
  }

  /** The parity of the register is that of the preload, flipped once for every set bit of
      the message. */
  lemma ParityInvariant(data: seq<bv8>, preload: bv16)
    ensures OddParity(BitwiseCrc(data, preload))
      <==> OddParity(preload) != (Weight(Bits(data)) % 2 == 1)
  {
    hide BitStep, Xor, OddParity, BitwiseCrc;
    CrcIsFeed(data, preload);
    forall c: bv16 ensures OddParity(BitStep(c)) == OddParity(c) {
      ShiftKeepsParity(c);
    }
    forall c: bv16 ensures OddParity(Xor(c, 1)) != OddParity(c) {
      InputFlipsParity(c);
    }
    FeedParity(Crc16(), c => OddParity(c), preload, Bits(data));
  }

  /** An odd number of flipped bits is detected in a frame of any length. */
  lemma OddErrorsDetected(f: seq<bv8>, g: seq<bv8>, preload: bv16)
    requires |f| == |g| && BitwiseCrc(f, preload) == 0
    requires Weight(Errors(f, g)) % 2 == 1
    ensures BitwiseCrc(g, preload) != 0
  {
    hide BitStep, Xor, OddParity, BitwiseCrc;
    MissedIff(f, g, preload);
    forall c: bv16 ensures OddParity(BitStep(c)) == OddParity(c) {
      ShiftKeepsParity(c);
    }
    forall c: bv16 ensures OddParity(Xor(c, 1)) != OddParity(c) {
      InputFlipsParity(c);
    }
    FeedParity(Crc16(), c => OddParity(c), 0, Errors(f, g));
    assert !OddParity(0) by { PolynomialIsOdd(); ParityIs(0); }
  }

  lemma ParityIs(c: bv16)
    ensures OddParity(c) == OddOf(c, 16)
  {
    hide OddOf;
  }

  // ---- two bits ---------------------------------------------------------------------

  ghost predicate SetExactlyAt(e: seq<bool>, i: nat, j: nat) {
    i < j < |e| && e[i] && e[j] && forall k :: 0 <= k < |e| && k != i && k != j ==> !e[k]
  }

  /** Two flipped bits go unnoticed exactly when their distance is a multiple of 32767. */
  lemma TwoErrorsMissedIff(f: seq<bv8>, g: seq<bv8>, preload: bv16, i: nat, j: nat)
    requires |f| == |g| && BitwiseCrc(f, preload) == 0
    requires SetExactlyAt(Errors(f, g), i, j)
    ensures BitwiseCrc(g, preload) == 0 <==> (j - i) % 32767 == 0
  {
    hide BitStep, Xor, BitwiseCrc, Linear, Feed;
    var e := Errors(f, g);
    MissedIff(f, g, preload);
    Crc16Laws();
    var before, bits, after := e[..i], e[i..j + 1], e[j + 1..];
    assert e == before + bits + after;
    FeedPadded(Crc16(), before, bits, after);
    assert bits[0] == e[i] && bits[|bits| - 1] == e[j];
    assert bits[1..|bits| - 1] == e[i + 1..j];
    TwoBits(Crc16(), bits);
    Order(j - i);
  }

  // ---- bursts -----------------------------------------------------------------------

  lemma WithinStep(c: bv16, k: nat)
    requires Within(BitStep(c), k) && k < 16
    ensures Within(c, k + 1)
  {
    hide BitStep, Xor, Halve, Odd, Top;
    BitStepCases(c);
    if Odd(c) {
      if k < 16 {
        WithinMore(BitStep(c), k, 15);
        WithinFifteen(BitStep(c));
        OddStepIsHigh(c);
      }
    } else {
      XorLaws(Halve(c), 0);
    }
  }

  lemma OddStepIsHigh(c: bv16)
    requires Odd(c)
    ensures Top(BitStep(c))
  {
  }

  lemma HalveFlip(c: bv16)
    ensures Halve(Xor(c, 1)) == Halve(c)
  {
  }

  lemma WithinFlip(c: bv16, k: nat)
    requires k > 0 && Within(c, k)
    ensures Within(Xor(c, 1), k)
  {
    hide Halve, Xor;
    HalveFlip(c);
  }

  lemma FirstBitIsHigh()
    ensures !Within(BitStep(1), 15) && Within(0, 0)
  {
    hide Halve, Top;
    WithinFifteen(BitStep(1));
    assert Odd(1);
    OddStepIsHigh(1);
  }

  /** A burst: its first bit is set and it is at most sixteen bits long. */
  lemma BurstSeen(bits: seq<bool>)
    requires 1 <= |bits| <= 16 && bits[0]
    ensures Feed(Crc16(), 0, bits) != 0
  {
    hide BitStep, Xor, Within, Group, Feed;
    var r, rest := Crc16(), bits[1..];
    GroupLaws();
    assert bits == [true] + rest;
    FeedCons(r, 0, true, rest);
    XorLaws(1, 0);
    FirstBitIsHigh();
    forall c: bv16, k: nat | Within(BitStep(c), k) && k < 16 ensures Within(c, k + 1) {
      WithinStep(c, k);
    }
    forall c: bv16, k: nat | k > 0 && Within(c, k) ensures Within(Xor(c, 1), k) {
      WithinFlip(c, k);
    }
    if Feed(r, 0, bits) == 0 {
      FeedSize(r, (c, k) => Within(c, k), BitStep(1), rest);
      WithinMore(BitStep(1), |rest|, 15);
    }
  }

  /** Any corruption confined to sixteen consecutive bits, wherever it starts, is detected
      in a frame of any length. */
  lemma BurstDetected(f: seq<bv8>, g: seq<bv8>, preload: bv16, start: nat)
    requires |f| == |g| && f != g && BitwiseCrc(f, preload) == 0
    requires forall k :: 0 <= k < |Errors(f, g)| && Errors(f, g)[k] ==> start <= k < start + 16
    ensures BitwiseCrc(g, preload) != 0
  {
    hide BitStep, Xor, BitwiseCrc, Linear, Feed;
    var e := Errors(f, g);
    MissedIff(f, g, preload);
    Crc16Laws();
    BitsDiffer(f, g);
    var i := FirstSet(e);
    var end := if start + 16 <= |e| then start + 16 else |e|;
    var before, bits, after := e[..i], e[i..end], e[end..];
    assert e == before + bits + after;
    FeedPadded(Crc16(), before, bits, after);
    BurstSeen(bits);
  }

  function FirstSet(e: seq<bool>): (i: nat)
    requires !Clear(e)
    ensures i < |e| && e[i] && Clear(e[..i])
  {
    if e[0] then 0 else assert e == [false] + e[1..]; 1 + FirstSet(e[1..])
  }

  lemma ByteBits(a: bv8, b: bv8)
    requires BitsOf(a, 8) == BitsOf(b, 8)
    ensures a == b
  {
    FitsNone(a);
    FitsNone(b);
    BitsInjective(a, b, 8);
  }

  lemma {:induction false} BitsInjective(a: bv8, b: bv8, n: nat)
    requires Fits(a, n) && Fits(b, n) && BitsOf(a, n) == BitsOf(b, n)
    ensures a == b
    decreases n
  {
    hide Fits;
    if n == 0 {
      FitsNone(a);
      FitsNone(b);
    } else {
      FitsShift(a, n);
      FitsShift(b, n);
      assert BitsOf(a, n)[0] == BitsOf(b, n)[0] && BitsOf(a, n)[1..] == BitsOf(b, n)[1..];
      BitsInjective(a >> 1, b >> 1, n - 1);
      SameByte(a, b);
    }
  }

  lemma SameByte(a: bv8, b: bv8)
    requires a >> 1 == b >> 1 && (a & 1 == 1 <==> b & 1 == 1)
    ensures a == b
  {
  }

  lemma {:induction false} BitsDiffer(f: seq<bv8>, g: seq<bv8>)
    requires |f| == |g| && f != g
    ensures !Clear(Errors(f, g))
  {
    if Clear(Errors(f, g)) {
      assert Bits(f) == Bits(g);
      SameBits(f, g);
    }
  }

  lemma {:induction false} SameBits(f: seq<bv8>, g: seq<bv8>)
    requires |f| == |g| && Bits(f) == Bits(g)
    ensures f == g
    decreases |f|
  {
    if f != [] {
      var n := |f| - 1;
      assert Bits(f)[..8 * n] == Bits(f[..n]) && Bits(g)[..8 * n] == Bits(g[..n]);
      assert Bits(f)[8 * n..] == BitsOf(f[n], 8) && Bits(g)[8 * n..] == BitsOf(g[n], 8);
      SameBits(f[..n], g[..n]);
      ByteBits(f[n], g[n]);
    }
  }

  // ---- one, two or three bits -------------------------------------------------------

  /** The positions of two set bits in a string that has no other. */
  lemma {:induction false} Pair(e: seq<bool>) returns (i: nat, j: nat)
    requires Weight(e) == 2
    ensures SetExactlyAt(e, i, j)
    decreases |e|
  {
    var n := |e| - 1;
    if e[n] {
      i := Single(e[..n]);
      j := n;
    } else {
      i, j := Pair(e[..n]);
    }
  }

  lemma {:induction false} Single(e: seq<bool>) returns (i: nat)
    requires Weight(e) == 1
    ensures i < |e| && e[i] && forall k :: 0 <= k < |e| && k != i ==> !e[k]
    decreases |e|
  {
    var n := |e| - 1;
    if e[n] {
      NoWeight(e[..n]);
      i := n;
    } else {
      i := Single(e[..n]);
    }
  }

  lemma {:induction false} NoWeight(e: seq<bool>)
    requires Weight(e) == 0
    ensures Clear(e)
    decreases |e|
  {
    if e != [] {
      NoWeight(e[..|e| - 1]);
    }
  }

  /** One, two or three flipped bits are detected in every frame of at most 4095 bytes, which
      includes every RTU frame (at most 256). */
  lemma UpToThreeErrorsDetected(f: seq<bv8>, g: seq<bv8>, preload: bv16)
    requires |f| == |g| <= 4095 && BitwiseCrc(f, preload) == 0
    requires 1 <= Weight(Errors(f, g)) <= 3
    ensures BitwiseCrc(g, preload) != 0
  {
    hide BitStep, BitwiseCrc;
    if Weight(Errors(f, g)) == 2 {
      var i, j := Pair(Errors(f, g));
      TwoErrorsMissedIff(f, g, preload, i, j);
    } else {
      OddErrorsDetected(f, g, preload);
    }
  }
}
