/** After how many shifts the CRC register repeats.

    The polynomial factors as (x + 1)(x^15 + x + 1), so the order should be 2^15 - 1 = 7 * 31 * 151.
    Powers of the shift are computed by repeated squaring, for squaring is itself linear; that
    32767 shifts change nothing and that a seventh, a thirty-first or a hundred-and-fifty-first
    of them do then settles every other number. */
module CrcOrder {
  import opened CrcAlgebra
  import opened CrcSpec
  import opened Registers

  // ---- squaring ---------------------------------------------------------------------

  // Bit 15 is the constant term, bit 0 the coefficient of x^15; a shift multiplies by x.

  /** What the coefficient marked in m contributes when its power of x is sent to k. */
  function Part(c: bv16, m: bv16, k: bv16): bv16 {
    if c & m == 0 then 0 else k
  }

  function Quad(c: bv16, m: bv16, k0: bv16, k1: bv16, k2: bv16, k3: bv16): bv16 {
    Xor(Xor(Part(c, m, k0), Part(c, m >> 1, k1)), Xor(Part(c, m >> 2, k2), Part(c, m >> 3, k3)))
  }

  /** The square: x^i is sent to x^2i, reduced by the polynomial. */
  function Square(c: bv16): bv16 {
    Xor(Xor(Quad(c, 0x8000, 0x8000, 0x2000, 0x0800, 0x0200), Quad(c, 0x0800, 0x0080, 0x0020, 0x0008, 0x0002)),
        Xor(Quad(c, 0x0080, 0xA001, 0xD801, 0xC601, 0xC181), Quad(c, 0x0008, 0xC061, 0xC019, 0xC007, 0x6001)))
  }

  ghost predicate OneBit(m: bv16) {
    || m == 0x8000 || m == 0x4000 || m == 0x2000 || m == 0x1000
    || m == 0x0800 || m == 0x0400 || m == 0x0200 || m == 0x0100
    || m == 0x0080 || m == 0x0040 || m == 0x0020 || m == 0x0010
    || m == 0x0008 || m == 0x0004 || m == 0x0002 || m == 0x0001
  }

  lemma MaskXor(a: bv16, b: bv16, m: bv16)
    requires OneBit(m)
    ensures Xor(a, b) & m == 0 <==> (a & m == 0 <==> b & m == 0)
  {
    match m
    case 0x8000 => case 0x4000 => case 0x2000 => case 0x1000 =>
    case 0x0800 => case 0x0400 => case 0x0200 => case 0x0100 =>
    case 0x0080 => case 0x0040 => case 0x0020 => case 0x0010 =>
    case 0x0008 => case 0x0004 => case 0x0002 => case _ =>
  }

  lemma PartXor(a: bv16, b: bv16, m: bv16, k: bv16)
    requires OneBit(m)
    ensures Part(Xor(a, b), m, k) == Xor(Part(a, m, k), Part(b, m, k))
  {
    hide Xor;
    MaskXor(a, b, m);
    XorLaws(0, 0);
    XorLaws(k, k);
  }

  lemma QuadXor(a: bv16, b: bv16, m: bv16, k0: bv16, k1: bv16, k2: bv16, k3: bv16)
    requires m == 0x8000 || m == 0x0800 || m == 0x0080 || m == 0x0008
    ensures Quad(Xor(a, b), m, k0, k1, k2, k3) == Xor(Quad(a, m, k0, k1, k2, k3), Quad(b, m, k0, k1, k2, k3))
  {
    hide Xor, Part;
    PartXor(a, b, m, k0);
    PartXor(a, b, m >> 1, k1);
    PartXor(a, b, m >> 2, k2);
    PartXor(a, b, m >> 3, k3);
    var p0, q0 := Part(a, m, k0), Part(b, m, k0);
    var p1, q1 := Part(a, m >> 1, k1), Part(b, m >> 1, k1);
    var p2, q2 := Part(a, m >> 2, k2), Part(b, m >> 2, k2);
    var p3, q3 := Part(a, m >> 3, k3), Part(b, m >> 3, k3);
    XorMedial(p0, q0, p1, q1);
    XorMedial(p2, q2, p3, q3);
    XorMedial(Xor(p0, p1), Xor(q0, q1), Xor(p2, p3), Xor(q2, q3));
  }

  lemma SquareXor(a: bv16, b: bv16)
    ensures Square(Xor(a, b)) == Xor(Square(a), Square(b))
  {
    hide Xor, Quad;
    QuadXor(a, b, 0x8000, 0x8000, 0x2000, 0x0800, 0x0200);
    QuadXor(a, b, 0x0800, 0x0080, 0x0020, 0x0008, 0x0002);
    QuadXor(a, b, 0x0080, 0xA001, 0xD801, 0xC601, 0xC181);
    QuadXor(a, b, 0x0008, 0xC061, 0xC019, 0xC007, 0x6001);
    var p0, q0 := Quad(a, 0x8000, 0x8000, 0x2000, 0x0800, 0x0200), Quad(b, 0x8000, 0x8000, 0x2000, 0x0800, 0x0200);
    var p1, q1 := Quad(a, 0x0800, 0x0080, 0x0020, 0x0008, 0x0002), Quad(b, 0x0800, 0x0080, 0x0020, 0x0008, 0x0002);
    var p2, q2 := Quad(a, 0x0080, 0xA001, 0xD801, 0xC601, 0xC181), Quad(b, 0x0080, 0xA001, 0xD801, 0xC601, 0xC181);
    var p3, q3 := Quad(a, 0x0008, 0xC061, 0xC019, 0xC007, 0x6001), Quad(b, 0x0008, 0xC061, 0xC019, 0xC007, 0x6001);
    XorMedial(p0, q0, p1, q1);
    XorMedial(p2, q2, p3, q3);
    XorMedial(Xor(p0, p1), Xor(q0, q1), Xor(p2, p3), Xor(q2, q3));
  }

  /** Multiplying c by x multiplies its square by x squared. */
  ghost predicate SquaresStep(c: bv16) {
    Square(BitStep(c)) == BitStep(BitStep(Square(c)))
  }

  lemma SquaresStepXor(a: bv16, b: bv16)
    requires SquaresStep(a) && SquaresStep(b)
    ensures SquaresStep(Xor(a, b))
  {
    hide BitStep, Xor, Square;
    BitStepXor(a, b);
    SquareXor(BitStep(a), BitStep(b));
    SquareXor(a, b);
    BitStepXor(Square(a), Square(b));
    BitStepXor(BitStep(Square(a)), BitStep(Square(b)));
  }

  lemma SquaresStepOfPowers()
    ensures SquaresStep(0)
    ensures SquaresStep(0x8000) && SquaresStep(0x4000) && SquaresStep(0x2000) && SquaresStep(0x1000)
    ensures SquaresStep(0x0800) && SquaresStep(0x0400) && SquaresStep(0x0200) && SquaresStep(0x0100)
    ensures SquaresStep(0x0080) && SquaresStep(0x0040) && SquaresStep(0x0020) && SquaresStep(0x0010)
    ensures SquaresStep(0x0008) && SquaresStep(0x0004) && SquaresStep(0x0002) && SquaresStep(0x0001)
  {
    hide SquaresStep;
    SquaresStepOfPowers0();
    SquaresStepOfPowers4();
    SquaresStepOfPowers8();
    SquaresStepOfPowers12();
    SquaresStepOfPower14();
    SquaresStepOfPower15();
  }

  lemma SquaresStepOfPowers0()
    ensures SquaresStep(0)
    ensures SquaresStep(0x8000) && SquaresStep(0x4000) && SquaresStep(0x2000) && SquaresStep(0x1000)
  {
  }

  lemma SquaresStepOfPowers4()
    ensures SquaresStep(0x0800) && SquaresStep(0x0400) && SquaresStep(0x0200) && SquaresStep(0x0100)
  {
  }

  lemma SquaresStepOfPowers8()
    ensures SquaresStep(0x0080) && SquaresStep(0x0040) && SquaresStep(0x0020) && SquaresStep(0x0010)
  {
  }

  lemma SquaresStepOfPowers12()
    ensures SquaresStep(0x0008) && SquaresStep(0x0004)
  {
  }

  lemma SquaresStepOfPower14()
    ensures SquaresStep(0x0002)
  {
    assert Square(0x0002) == 0xC007 && Square(0x0001) == 0x6001;
    assert BitStep(0x0002) == 0x0001 && BitStep(0xC007) == 0xC002 && BitStep(0xC002) == 0x6001;
    hide Square, BitStep;
  }

  lemma SquaresStepOfPower15()
    ensures SquaresStep(0x0001)
  {
  }

  lemma QuadStep(c: bv16, m: bv16)
    requires SquaresStep(0)
    requires SquaresStep(m) && SquaresStep(m >> 1) && SquaresStep(m >> 2) && SquaresStep(m >> 3)
    ensures SquaresStep(Quad(c, m, m, m >> 1, m >> 2, m >> 3))
  {
    hide Xor, SquaresStep;
    var p0, p1 := Part(c, m, m), Part(c, m >> 1, m >> 1);
    var p2, p3 := Part(c, m >> 2, m >> 2), Part(c, m >> 3, m >> 3);
    SquaresStepXor(p0, p1);
    SquaresStepXor(p2, p3);
    SquaresStepXor(Xor(p0, p1), Xor(p2, p3));
  }

  lemma QuadSelects(c: bv16)
    ensures Quad(c, 0x8000, 0x8000, 0x4000, 0x2000, 0x1000) == c & 0xF000
    ensures Quad(c, 0x0800, 0x0800, 0x0400, 0x0200, 0x0100) == c & 0x0F00
    ensures Quad(c, 0x0080, 0x0080, 0x0040, 0x0020, 0x0010) == c & 0x00F0
    ensures Quad(c, 0x0008, 0x0008, 0x0004, 0x0002, 0x0001) == c & 0x000F
  {
  }

  lemma SumOfQuads(c: bv16)
    ensures Xor(Xor(c & 0xF000, c & 0x0F00), Xor(c & 0x00F0, c & 0x000F)) == c
  {
  }

  lemma SquareStep(c: bv16)
    ensures SquaresStep(c)
  {
    hide Xor, Quad, Square, BitStep, SquaresStep;
    SquaresStepOfPowers();
    QuadStep(c, 0x8000);
    QuadStep(c, 0x0800);
    QuadStep(c, 0x0080);
    QuadStep(c, 0x0008);
    QuadSelects(c);
    SumOfQuads(c);
    var q0, q1 := Quad(c, 0x8000, 0x8000, 0x4000, 0x2000, 0x1000), Quad(c, 0x0800, 0x0800, 0x0400, 0x0200, 0x0100);
    var q2, q3 := Quad(c, 0x0080, 0x0080, 0x0040, 0x0020, 0x0010), Quad(c, 0x0008, 0x0008, 0x0004, 0x0002, 0x0001);
    SquaresStepXor(q0, q1);
    SquaresStepXor(q2, q3);
    SquaresStepXor(Xor(q0, q1), Xor(q2, q3));
  }

  // ---- powers of the shift ----------------------------------------------------------

  /** x^n, as n shifts of the constant polynomial 1. */
  function Power(n: nat): bv16 {
    Iter(BitStep, n, 0x8000)
  }

  lemma {:induction false} SquareOfPower(n: nat)
    ensures Square(Power(n)) == Power(2 * n)
  {
    hide BitStep, Xor, Square;
    if n == 0 {
      SquareOfOne();
    } else {
      SquareOfPower(n - 1);
      SquareStep(Power(n - 1));
      assert Power(2 * n - 1) == BitStep(Power(2 * n - 2));
    }
  }

  lemma SquareOfOne()
    ensures Square(0x8000) == 0x8000
  {
  }

  lemma Double(n: nat, v: bv16, odd: bool, w: bv16)
    requires Power(n) == v
    requires w == if odd then BitStep(Square(v)) else Square(v)
    ensures Power(2 * n + if odd then 1 else 0) == w
  {
    hide BitStep, Square;
    SquareOfPower(n);
  }

  lemma Power1()
    ensures Power(1) == 0x4000
  {
    assert Power(1) == BitStep(Power(0));
  }

  lemma Squares15()
    ensures BitStep(Square(0x4000)) == 0x1000
    ensures BitStep(Square(0x1000)) == 0x0100
    ensures BitStep(Square(0x0100)) == 0x0001
  {
  }

  lemma Power15()
    ensures Power(15) == 0x0001
  {
    hide Power, Square, BitStep;
    Squares15();
    Power1();
    Double(1, 0x4000, true, 0x1000);
    Double(3, 0x1000, true, 0x0100);
    Double(7, 0x0100, true, 0x0001);
  }

  lemma Squares255()
    ensures BitStep(Square(0x0001)) == 0x9001
    ensures BitStep(Square(0x9001)) == 0xD101
    ensures BitStep(Square(0xD101)) == 0xC100
    ensures BitStep(Square(0xC100)) == 0x5001
  {
  }

  lemma Power255()
    ensures Power(255) == 0x5001
  {
    hide Power, Square, BitStep;
    Squares255();
    Power15();
    Double(15, 0x0001, true, 0x9001);
    Double(31, 0x9001, true, 0xD101);
    Double(63, 0xD101, true, 0xC100);
    Double(127, 0xC100, true, 0x5001);
  }

  lemma Squares1023()
    ensures BitStep(Square(0x5001)) == 0x8101
    ensures BitStep(Square(0x8101)) == 0xD000
  {
  }

  lemma Squares4095()
    ensures BitStep(Square(0xD000)) == 0x5100
    ensures BitStep(Square(0x5100)) == 0x1101
  {
  }

  lemma Power4095()
    ensures Power(4095) == 0x1101
  {
    hide Power, Square, BitStep;
    Squares1023();
    Squares4095();
    Power255();
    Double(255, 0x5001, true, 0x8101);
    Double(511, 0x8101, true, 0xD000);
    Double(1023, 0xD000, true, 0x5100);
    Double(2047, 0x5100, true, 0x1101);
  }

  lemma Squares32767()
    ensures BitStep(Square(0x1101)) == 0x9100
    ensures BitStep(Square(0x9100)) == 0x4101
    ensures BitStep(Square(0x4101)) == 0x8000
  {
  }

  lemma Power32767()
    ensures Power(32767) == 0x8000
  {
    hide Power, Square, BitStep;
    Squares32767();
    Power4095();
    Double(4095, 0x1101, true, 0x9100);
    Double(8191, 0x9100, true, 0x4101);
    Double(16383, 0x4101, true, 0x8000);
  }

  lemma Squares9()
    ensures Square(0x4000) == 0x2000
    ensures Square(0x2000) == 0x0800
    ensures BitStep(Square(0x0800)) == 0x0040
  {
  }

  lemma Power9()
    ensures Power(9) == 0x0040
  {
    hide Power, Square, BitStep;
    Squares9();
    Power1();
    Double(1, 0x4000, false, 0x2000);
    Double(2, 0x2000, false, 0x0800);
    Double(4, 0x0800, true, 0x0040);
  }

  lemma Squares18()
    ensures Square(0x0040) == 0xD801
  {
  }

  lemma Power18()
    ensures Power(18) == 0xD801
  {
    hide Power, Square, BitStep;
    Squares18();
    Power9();
    Double(9, 0x0040, false, 0xD801);
  }

  lemma Squares36()
    ensures Square(0xD801) == 0xC281
  {
  }

  lemma Power36()
    ensures Power(36) == 0xC281
  {
    hide Power, Square, BitStep;
    Squares36();
    Power18();
    Double(18, 0xD801, false, 0xC281);
  }

  lemma Squares73()
    ensures BitStep(Square(0xC281)) == 0x3004
  {
  }

  lemma Power73()
    ensures Power(73) == 0x3004
  {
    hide Power, Square, BitStep;
    Squares73();
    Power36();
    Double(36, 0xC281, true, 0x3004);
  }

  lemma Squares146()
    ensures Square(0x3004) == 0xCA19
  {
  }

  lemma Power146()
    ensures Power(146) == 0xCA19
  {
    hide Power, Square, BitStep;
    Squares146();
    Power73();
    Double(73, 0x3004, false, 0xCA19);
  }

  lemma Squares2340()
    ensures Square(0xCA19) == 0xC169
    ensures BitStep(Square(0xC169)) == 0x0F31
    ensures Square(0x0F31) == 0x672B
    ensures Square(0x672B) == 0x8E4C
  {
  }

  lemma Power2340()
    ensures Power(2340) == 0x8E4C
  {
    hide Power, Square, BitStep;
    Squares2340();
    Power146();
    Double(146, 0xCA19, false, 0xC169);
    Double(292, 0xC169, true, 0x0F31);
    Double(585, 0x0F31, false, 0x672B);
    Double(1170, 0x672B, false, 0x8E4C);
  }

  lemma Squares4681()
    ensures BitStep(Square(0x8E4C)) == 0x8C69
  {
    assert Square(0x8E4C) == 0x58D1;
    assert BitStep(0x58D1) == 0x8C69;
  }

  lemma Power4681()
    ensures Power(4681) == 0x8C69
  {
    hide Power, Square, BitStep;
    Squares4681();
    Power2340();
    Double(2340, 0x8E4C, true, 0x8C69);
  }

  lemma Squares16()
    ensures Square(0x4000) == 0x2000
    ensures Square(0x2000) == 0x0800
    ensures Square(0x0800) == 0x0080
    ensures Square(0x0080) == 0xA001
  {
  }

  lemma Power16()
    ensures Power(16) == 0xA001
  {
    hide Power, Square, BitStep;
    Squares16();
    Power1();
    Double(1, 0x4000, false, 0x2000);
    Double(2, 0x2000, false, 0x0800);
    Double(4, 0x0800, false, 0x0080);
    Double(8, 0x0080, false, 0xA001);
  }

  lemma Squares264()
    ensures BitStep(Square(0xA001)) == 0xD401
    ensures Square(0xD401) == 0xC221
    ensures Square(0xC221) == 0x0608
    ensures Square(0x0608) == 0xC049
  {
  }

  lemma Power264()
    ensures Power(264) == 0xC049
  {
    hide Power, Square, BitStep;
    Squares264();
    Power16();
    Double(16, 0xA001, true, 0xD401);
    Double(33, 0xD401, false, 0xC221);
    Double(66, 0xC221, false, 0x0608);
    Double(132, 0x0608, false, 0xC049);
  }

  lemma Squares528()
    ensures Square(0xC049) == 0xD861
  {
  }

  lemma Power528()
    ensures Power(528) == 0xD861
  {
    hide Power, Square, BitStep;
    Squares528();
    Power264();
    Double(264, 0xC049, false, 0xD861);
  }

  lemma Squares1057()
    ensures BitStep(Square(0xD861)) == 0xCE41
  {
  }

  lemma Power1057()
    ensures Power(1057) == 0xCE41
  {
    hide Power, Square, BitStep;
    Squares1057();
    Power528();
    Double(528, 0xD861, true, 0xCE41);
  }

  lemma Squares13()
    ensures BitStep(Square(0x4000)) == 0x1000
    ensures Square(0x1000) == 0x0200
    ensures BitStep(Square(0x0200)) == 0x0004
  {
  }

  lemma Power13()
    ensures Power(13) == 0x0004
  {
    hide Power, Square, BitStep;
    Squares13();
    Power1();
    Double(1, 0x4000, true, 0x1000);
    Double(3, 0x1000, false, 0x0200);
    Double(6, 0x0200, true, 0x0004);
  }

  lemma Squares217()
    ensures BitStep(Square(0x0004)) == 0xC00D
    ensures Square(0xC00D) == 0xC079
    ensures Square(0xC079) == 0xDFE1
    ensures BitStep(Square(0xDFE1)) == 0x3E55
  {
  }

  lemma Power217()
    ensures Power(217) == 0x3E55
  {
    hide Power, Square, BitStep;
    Squares217();
    Power13();
    Double(13, 0x0004, true, 0xC00D);
    Double(27, 0xC00D, false, 0xC079);
    Double(54, 0xC079, false, 0xDFE1);
    Double(108, 0xDFE1, true, 0x3E55);
  }

  // ---- the order --------------------------------------------------------------------

  ghost predicate Returns(n: nat) {
    Power(n) == 0x8000
  }

  lemma ReturnsRest(m: nat, n: nat)
    requires Returns(m)
    ensures Returns(m + n) <==> Returns(n)
  {
    hide BitStep;
    IterAdd(BitStep, m, n, 0x8000);
  }

  lemma {:induction false} ReturnsTimes(m: nat, k: nat)
    requires Returns(m)
    ensures Returns(k * m)
  {
    hide Returns;
    if k == 0 {
      assert Returns(0) by { ReturnsNone(); }
    } else {
      ReturnsTimes(m, k - 1);
      ReturnsRest(m, (k - 1) * m);
      assert k * m == m + (k - 1) * m;
    }
  }

  lemma ReturnsNone()
    ensures Returns(0)
  {
  }

  ghost predicate Prime(p: nat) {
    p > 1 && forall m: nat :: 1 < m < p ==> p % m != 0
  }

  lemma SmallFactors(p: nat, m: nat)
    requires p == 7 || p == 31 || p == 151
    requires 1 < m < p
    ensures p % m != 0
  {
    var k := p / m;
    if p % m == 0 {
      assert p == k * m;
      NotProduct(p, k, m);
    }
  }

  lemma NotProduct(p: nat, k: nat, m: nat)
    requires p == 7 || p == 31 || p == 151
    requires 1 < m < p
    ensures p != k * m
  {
    if m > 12 && k > 12 {
      Monotone(13, k, m);
    } else if k <= 12 {
      assert k == 0 || k == 1 || k == 2 || k == 3 || k == 4 || k == 5 || k == 6 || k == 7
        || k == 8 || k == 9 || k == 10 || k == 11 || k == 12;
    } else {
      assert m == 2 || m == 3 || m == 4 || m == 5 || m == 6 || m == 7
        || m == 8 || m == 9 || m == 10 || m == 11 || m == 12;
    }
  }

  lemma Monotone(a: nat, b: nat, m: nat)
    requires a <= b
    ensures a * m <= b * m
  {
  }

  /** Euclid's argument: if p * q and q * r shifts both return, r not a multiple of the prime
      p, then so do q shifts. */
  lemma {:induction false} Descend(p: nat, q: nat, r: nat)
    requires Prime(p) && 0 < r < p
    requires Returns(p * q) && Returns(r * q)
    ensures Returns(q)
    decreases r
  {
    hide Returns;
    if r > 1 {
      var k, r' := p / r, p % r;
      assert p == k * r + r';
      ReturnsTimes(r * q, k);
      assert p * q == k * (r * q) + r' * q by {
        assert (k * r + r') * q == k * r * q + r' * q;
        assert k * r * q == k * (r * q);
      }
      ReturnsRest(k * (r * q), r' * q);
      Descend(p, q, r');
    } else {
      assert r * q == q;
    }
  }

  lemma DividesByPrime(d: nat, p: nat, q: nat)
    requires Prime(p) && Returns(p * q) && Returns(d) && !Returns(q)
    ensures d % p == 0
  {
    hide Returns;
    var k, r := d / p, d % p;
    if r != 0 {
      ReturnsTimes(d, q);
      ReturnsTimes(p * q, k);
      assert q * d == k * (p * q) + r * q by {
        assert d == k * p + r;
        assert q * (k * p + r) == k * (p * q) + r * q;
      }
      ReturnsRest(k * (p * q), r * q);
      Descend(p, q, r);
    }
  }

  lemma Primes()
    ensures Prime(7) && Prime(31) && Prime(151)
  {
    forall p: nat, m: nat | (p == 7 || p == 31 || p == 151) && 1 < m < p
      ensures p % m != 0
    {
      SmallFactors(p, m);
    }
  }

  lemma FromOne(d: nat)
    ensures Iter(BitStep, d, 1) == 1 <==> Returns(d)
  {
    hide BitStep;
    Power15();
    IterAdd(BitStep, 15, d, 0x8000);
    IterAdd(BitStep, d, 15, 0x8000);
    Crc16Laws();
    IterInjective(Crc16(), 15, Power(d), 0x8000);
  }

  lemma Cycle()
    ensures Returns(32767) && !Returns(4681) && !Returns(1057) && !Returns(217)
  {
    hide Power;
    Power32767();
    Power4681();
    Power1057();
    Power217();
  }

  /** The CRC register comes back to where one bit put it after the multiples of 32767
      shifts and after no other number of them. */
  lemma Order(d: nat)
    ensures Iter(BitStep, d, 1) == 1 <==> d % 32767 == 0
  {
    hide BitStep, Returns, Prime;
    FromOne(d);
    Cycle();
    if d % 32767 == 0 {
      ReturnsTimes(32767, d / 32767);
    } else if Returns(d) {
      Primes();
      DividesByPrime(d, 7, 4681);
      DividesByPrime(d, 31, 1057);
      DividesByPrime(d, 151, 217);
      ProductDivides(d);
    }
  }

  lemma ProductDivides(d: nat)
    requires d % 7 == 0 && d % 31 == 0 && d % 151 == 0
    ensures d % 32767 == 0
  {
    Bezout(d, d / 7, d / 31, d / 151);
  }

  lemma Bezout(d: int, a: int, b: int, c: int)
    requires d == 7 * a && d == 31 * b && d == 151 * c
    ensures d % 32767 == 0
  {
    // 9 * 7 - 2 * 31 == 1 and 23 * 151 - 16 * 217 == 1
    var e := 9 * b - 2 * a;
    assert d == 217 * e;
    var k := 23 * e - 16 * c;
    assert d == 32767 * k;
  }
}
