/** Section 6.2.2's bit-by-bit CRC, and the proof that both lookup tables hold what eight of
    its steps do to an index. */
module CrcSpec {
  import opened CrcTables
  import opened Registers

  /** One shift of the register: the bit shifted out decides whether the reflected polynomial
      0xA001 is added. */
  function BitStep(c: bv16): (r: bv16)
  {
    if c & 1 == 1 then (c >> 1) ^ 0xA001 else c >> 1
  }

  function Xor(a: bv16, b: bv16): bv16 { a ^ b }

  function Widen(b: bv8): bv16 { b as bv16 }

  function Step8(c: bv16): bv16 {
    BitStep(BitStep(BitStep(BitStep(BitStep(BitStep(BitStep(BitStep(c))))))))
  }

  /** A byte is added to the low half of the register, which is then shifted eight times. */
  function ByteStep(c: bv16, b: bv8): bv16 {
    Iter(BitStep, 8, Xor(c, Widen(b)))
  }

  /** The specification of mb_crc. */
  function BitwiseCrc(data: seq<bv8>, preload: bv16): bv16
    decreases |data|
  {
    if data == [] then preload
    else ByteStep(BitwiseCrc(data[..|data| - 1], preload), data[|data| - 1])
  }

  // ---- the tables -------------------------------------------------------------------

  function StepsHi(index: bv8): bv8 { (Step8(index as bv16) & 0xFF) as bv8 }

  function StepsLo(index: bv8): bv8 { (Step8(index as bv16) >> 8) as bv8 }

  function Sixteen(g: bv8 -> bv8): (row: seq<bv8>)
    ensures |row| == 16
  {
    [g(0), g(1), g(2), g(3), g(4), g(5), g(6), g(7), g(8), g(9), g(10), g(11), g(12), g(13), g(14), g(15)]
  }

  lemma SixteenAt(g: bv8 -> bv8, k: bv8)
    requires k < 16
    ensures Sixteen(g)[k as int] == g(k)
  {
    match k
    case 0 => case 1 => case 2 => case 3 => case 4 => case 5 => case 6 => case 7 =>
    case 8 => case 9 => case 10 => case 11 => case 12 => case 13 => case 14 => case _ =>
  }

  /** The sixteen values of f on the indices whose high half is that of h. */
  function RowOf(f: bv8 -> bv8, h: bv8): (row: seq<bv8>)
    ensures |row| == 16
  {
    [f(h), f(h | 1), f(h | 2), f(h | 3), f(h | 4), f(h | 5), f(h | 6), f(h | 7),
     f(h | 8), f(h | 9), f(h | 10), f(h | 11), f(h | 12), f(h | 13), f(h | 14), f(h | 15)]
  }

  lemma RowIsSixteen(f: bv8 -> bv8, h: bv8, g: bv8 -> bv8)
    requires forall x :: g(x) == f(h | x)
    ensures RowOf(f, h) == Sixteen(g)
  {
    assert g(0) == f(h | 0);
  }

  lemma RowAt(f: bv8 -> bv8, h: bv8, k: bv8)
    requires k < 16
    ensures RowOf(f, h)[k as int] == f(h | k)
  {
    hide RowOf, Sixteen;
    var g := x => f(h | x);
    RowIsSixteen(f, h, g);
    SixteenAt(g, k);
  }

  lemma Lookup(rowOf: bv8 -> Row, f: bv8 -> bv8, index: bv8)
    requires rowOf(0x0) == RowOf(f, 0x00) && rowOf(0x1) == RowOf(f, 0x10)
    requires rowOf(0x2) == RowOf(f, 0x20) && rowOf(0x3) == RowOf(f, 0x30)
    requires rowOf(0x4) == RowOf(f, 0x40) && rowOf(0x5) == RowOf(f, 0x50)
    requires rowOf(0x6) == RowOf(f, 0x60) && rowOf(0x7) == RowOf(f, 0x70)
    requires rowOf(0x8) == RowOf(f, 0x80) && rowOf(0x9) == RowOf(f, 0x90)
    requires rowOf(0xA) == RowOf(f, 0xA0) && rowOf(0xB) == RowOf(f, 0xB0)
    requires rowOf(0xC) == RowOf(f, 0xC0) && rowOf(0xD) == RowOf(f, 0xD0)
    requires rowOf(0xE) == RowOf(f, 0xE0) && rowOf(0xF) == RowOf(f, 0xF0)
    ensures rowOf(index >> 4)[(index & 0x0F) as int] == f(index)
  {
    RowAt(f, index & 0xF0, index & 0x0F);
    assert index == (index & 0xF0) | (index & 0x0F);
    match index >> 4
    case 0 => case 1 => case 2 => case 3 => case 4 => case 5 => case 6 => case 7 =>
    case 8 => case 9 => case 10 => case 11 => case 12 => case 13 => case 14 => case _ =>
  }

  lemma Hi0() ensures HiRow(0x0) == RowOf(StepsHi, 0x00) {}
  lemma Hi1() ensures HiRow(0x1) == RowOf(StepsHi, 0x10) {}
  lemma Hi2() ensures HiRow(0x2) == RowOf(StepsHi, 0x20) {}
  lemma Hi3() ensures HiRow(0x3) == RowOf(StepsHi, 0x30) {}
  lemma Hi4() ensures HiRow(0x4) == RowOf(StepsHi, 0x40) {}
  lemma Hi5() ensures HiRow(0x5) == RowOf(StepsHi, 0x50) {}
  lemma Hi6() ensures HiRow(0x6) == RowOf(StepsHi, 0x60) {}
  lemma Hi7() ensures HiRow(0x7) == RowOf(StepsHi, 0x70) {}
  lemma Hi8() ensures HiRow(0x8) == RowOf(StepsHi, 0x80) {}
  lemma Hi9() ensures HiRow(0x9) == RowOf(StepsHi, 0x90) {}
  lemma HiA() ensures HiRow(0xA) == RowOf(StepsHi, 0xA0) {}
  lemma HiB() ensures HiRow(0xB) == RowOf(StepsHi, 0xB0) {}
  lemma HiC() ensures HiRow(0xC) == RowOf(StepsHi, 0xC0) {}
  lemma HiD() ensures HiRow(0xD) == RowOf(StepsHi, 0xD0) {}
  lemma HiE() ensures HiRow(0xE) == RowOf(StepsHi, 0xE0) {}
  lemma HiF() ensures HiRow(0xF) == RowOf(StepsHi, 0xF0) {}

  lemma TableHiIsSteps(index: bv8)
    ensures TableHi(index) == StepsHi(index)
  {
    Hi0(); Hi1(); Hi2(); Hi3(); Hi4(); Hi5(); Hi6(); Hi7();
    Hi8(); Hi9(); HiA(); HiB(); HiC(); HiD(); HiE(); HiF();
    Lookup(HiRow, StepsHi, index);
  }

  lemma Lo0() ensures LoRow(0x0) == RowOf(StepsLo, 0x00) {}
  lemma Lo1() ensures LoRow(0x1) == RowOf(StepsLo, 0x10) {}
  lemma Lo2() ensures LoRow(0x2) == RowOf(StepsLo, 0x20) {}
  lemma Lo3() ensures LoRow(0x3) == RowOf(StepsLo, 0x30) {}
  lemma Lo4() ensures LoRow(0x4) == RowOf(StepsLo, 0x40) {}
  lemma Lo5() ensures LoRow(0x5) == RowOf(StepsLo, 0x50) {}
  lemma Lo6() ensures LoRow(0x6) == RowOf(StepsLo, 0x60) {}
  lemma Lo7() ensures LoRow(0x7) == RowOf(StepsLo, 0x70) {}
  lemma Lo8() ensures LoRow(0x8) == RowOf(StepsLo, 0x80) {}
  lemma Lo9() ensures LoRow(0x9) == RowOf(StepsLo, 0x90) {}
  lemma LoA() ensures LoRow(0xA) == RowOf(StepsLo, 0xA0) {}
  lemma LoB() ensures LoRow(0xB) == RowOf(StepsLo, 0xB0) {}
  lemma LoC() ensures LoRow(0xC) == RowOf(StepsLo, 0xC0) {}
  lemma LoD() ensures LoRow(0xD) == RowOf(StepsLo, 0xD0) {}
  lemma LoE() ensures LoRow(0xE) == RowOf(StepsLo, 0xE0) {}
  lemma LoF() ensures LoRow(0xF) == RowOf(StepsLo, 0xF0) {}

  lemma TableLoIsSteps(index: bv8)
    ensures TableLo(index) == StepsLo(index)
  {
    Lo0(); Lo1(); Lo2(); Lo3(); Lo4(); Lo5(); Lo6(); Lo7();
    Lo8(); Lo9(); LoA(); LoB(); LoC(); LoD(); LoE(); LoF();
    Lookup(LoRow, StepsLo, index);
  }

}
