/** mb_crc, src/mb_crc.c:71-85. */
module Crc {
  import opened CrcAlgebra
  import opened CrcSpec
  import opened CrcTables
  import opened Registers

  /** The register whose halves are hi and lo. */
  function Pack(hi: bv8, lo: bv8): bv16 {
    ((hi as bv16) << 8) | (lo as bv16)
  }

  function High(c: bv16): bv8 { (c >> 8) as bv8 }

  function Low(c: bv16): bv8 { (c & 0xFF) as bv8 }

  lemma PackHalves(c: bv16)
    ensures Pack(High(c), Low(c)) == c
  {
  }

  lemma HalvesPack(hi: bv8, lo: bv8)
    ensures High(Pack(hi, lo)) == hi && Low(Pack(hi, lo)) == lo
  {
  }

  // ---- one round of the loop --------------------------------------------------------

  lemma Iter8<T>(f: T -> T, x: T)
    ensures Iter(f, 8, x) == f(f(f(f(f(f(f(f(x))))))))
  {
    assert Iter(f, 2, x) == f(f(x));
    assert Iter(f, 4, x) == f(f(Iter(f, 2, x)));
    assert Iter(f, 6, x) == f(f(Iter(f, 4, x)));
  }

  lemma Step8IsIter(c: bv16)
    ensures Step8(c) == Iter(BitStep, 8, c)
  {
    hide BitStep;
    Iter8(BitStep, c);
  }

  lemma Step8OfHighByte(hi: bv8)
    ensures Step8(Pack(hi, 0)) == Widen(hi)
  {
  }

  lemma AddByte(hi: bv8, lo: bv8, b: bv8)
    ensures Xor(Pack(hi, lo), Widen(b)) == Xor(Pack(hi, 0), Widen(lo ^ b))
  {
  }

  lemma SplitRound(hi: bv8, index: bv8)
    ensures Pack(StepsLo(index), hi ^ StepsHi(index)) == Xor(Widen(hi), Step8(Widen(index)))
  {
    hide Step8;
  }

  /** One round of the table loop is one byte of the bit-by-bit algorithm: the low half
      selects what eight steps make of it, the high half just moves down. */
  lemma TableRound(hi: bv8, lo: bv8, b: bv8)
    ensures var index := lo ^ b;
      Pack(TableLo(index), hi ^ TableHi(index)) == ByteStep(Pack(hi, lo), b)
  {
    hide BitStep, Xor, Widen, Pack, Step8, TableHi, TableLo, StepsHi, StepsLo;
    var index := lo ^ b;
    TableHiIsSteps(index);
    TableLoIsSteps(index);
    AddByte(hi, lo, b);
    StepLaws();
    IterXor(Crc16(), 8, Pack(hi, 0), Widen(index));
    Step8IsIter(Pack(hi, 0));
    Step8IsIter(Widen(index));
    Step8OfHighByte(hi);
    SplitRound(hi, index);
  }

  lemma CrcEmpty(preload: bv16)
    ensures BitwiseCrc([], preload) == preload
  {
  }

  lemma CrcSnoc(data: seq<bv8>, b: bv8, preload: bv16)
    ensures BitwiseCrc(data + [b], preload) == ByteStep(BitwiseCrc(data, preload), b)
  {
    hide ByteStep;
    assert (data + [b])[..|data|] == data;
  }

  type uint8 = x: int | 0 <= x < 0x100

  /** The loop body of mb_crc, lines 79-81. */
  method Round(crcHi: bv8, crcLo: bv8, b: bv8) returns (hi: bv8, lo: bv8)
    ensures Pack(hi, lo) == ByteStep(Pack(crcHi, crcLo), b)
  {
    hide ByteStep, TableHi, TableLo, Pack;
    TableRound(crcHi, crcLo, b);
    var index := crcLo ^ b;
    lo := crcHi ^ TableHi(index);
    hi := TableLo(index);
  }

  /** mb_crc. The buffer pointer is an index into the array it points into. */
  method MbCrc(buffer: array<bv8>, from: nat, len: uint8, preload: bv16) returns (crc: bv16)
    requires from + len <= buffer.Length
    ensures crc == BitwiseCrc(buffer[from..from + len], preload)
  {
    hide BitwiseCrc, ByteStep, Pack, High, Low;
    var crcHi, crcLo := High(preload), Low(preload);
    PackHalves(preload);
    CrcEmpty(preload);
    var p, n := from, len as int;
    assert buffer[from..p] == [];
    while n > 0
      invariant 0 <= n && from <= p && p + n == from + len
      invariant Pack(crcHi, crcLo) == BitwiseCrc(buffer[from..p], preload)
    {
      n := n - 1;
      CrcSnoc(buffer[from..p], buffer[p], preload);
      assert buffer[from..p + 1] == buffer[from..p] + [buffer[p]];
      crcHi, crcLo := Round(crcHi, crcLo, buffer[p]);
      p := p + 1;
    }
    crc := Pack(crcHi, crcLo);
  }

  // ---- the trailing CRC -------------------------------------------------------------

  /** Sending the low half and then the high half of the CRC brings the receiver's CRC of
      the whole to zero, and nothing else does. */
  lemma ZeroResidue(data: seq<bv8>, lo: bv8, hi: bv8, preload: bv16)
    ensures BitwiseCrc(data + [lo, hi], preload) == 0
      <==> lo == Low(BitwiseCrc(data, preload)) && hi == High(BitwiseCrc(data, preload))
  {
    hide BitStep, Xor, Widen, Pack, High, Low, ByteStep;
    var c := BitwiseCrc(data, preload);
    CrcConcat(data, [lo, hi], preload);
    CrcIsFeed([lo, hi], c);
    CrcIsFeed([lo, hi], Pack(hi, lo));
    ResidueOfPack(lo, hi);
    HalvesPack(hi, lo);
    PackHalves(c);
    Crc16Laws();
    FeedInjective(Crc16(), c, Pack(hi, lo), Bits([lo, hi]));
  }

  lemma ResidueOfPack(lo: bv8, hi: bv8)
    ensures BitwiseCrc([lo, hi], Pack(hi, lo)) == 0
  {
    hide BitStep, Xor, Widen, Pack, Step8, TableHi, TableLo;
    assert [lo, hi][..1] == [lo] && [lo][..0] == [];
    assert BitwiseCrc([lo], Pack(hi, lo)) == ByteStep(BitwiseCrc([], Pack(hi, lo)), lo);
    AddByte(hi, lo, lo);
    assert lo ^ lo == 0;
    WidenZero();
    GroupLaws();
    Step8IsIter(Pack(hi, 0));
    Step8OfHighByte(hi);
    Crc16Laws();
    IterZero(Crc16(), 8, 0);
  }
}
