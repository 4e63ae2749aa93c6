/** Bits, registers and big-endian words in PDU bytes: src/mb_slave.c:35-68, src/mb_pdu.h. */
module Pdu {
  const MAX_PDU_SIZE := 253

  type uint16 = x: int | 0 <= x < 0x1_0000

  // ---- bytes ------------------------------------------------------------------------

  function Nibble(n: nat): bv8
    requires n < 16
  {
    match n
    case 0 => 0 case 1 => 1 case 2 => 2 case 3 => 3 case 4 => 4 case 5 => 5 case 6 => 6 case 7 => 7
    case 8 => 8 case 9 => 9 case 10 => 10 case 11 => 11 case 12 => 12 case 13 => 13 case 14 => 14 case _ => 15
  }

  /** The byte of value n. */
  function ByteOf(n: nat): bv8
    requires n < 256
  {
    (Nibble(n / 16) << 4) | Nibble(n % 16)
  }

  lemma ByteOfInt(n: nat)
    requires n < 256
    ensures ByteOf(n) as int == n
  {
    NibbleOfInt(n / 16);
    NibbleOfInt(n % 16);
    JoinNibbles(Nibble(n / 16), Nibble(n % 16));
  }

  lemma NibbleOfInt(n: nat)
    requires n < 16
    ensures Nibble(n) as int == n && Nibble(n) < 16
  {
  }

  lemma JoinNibbles(high: bv8, low: bv8)
    requires high < 16 && low < 16
    ensures ((high << 4) | low) as int == high as int * 16 + low as int
  {
  }

  // ---- bits -------------------------------------------------------------------------

  /** BIT (k) */
  function Bit(k: nat): bv8
    requires k < 8
  {
    match k
    case 0 => 0x01 case 1 => 0x02 case 2 => 0x04 case 3 => 0x08
    case 4 => 0x10 case 5 => 0x20 case 6 => 0x40 case _ => 0x80
  }

  predicate Has(b: bv8, k: nat)
    requires k < 8
  {
    b & Bit(k) != 0
  }

  function With(b: bv8, k: nat, value: bool): bv8
    requires k < 8
  {
    if value then b | Bit(k) else b & !Bit(k)
  }

  lemma WithHas(b: bv8, k: nat, value: bool, j: nat)
    requires k < 8 && j < 8
    ensures Has(With(b, k, value), j) == if j == k then value else Has(b, j)
  {
    BitsApart(k, j);
    if value { OrHas(b, Bit(k), Bit(j)); } else { AndHas(b, Bit(k), Bit(j)); }
  }

  lemma BitsApart(k: nat, j: nat)
    requires k < 8 && j < 8
    ensures Bit(k) & Bit(j) == if j == k then Bit(j) else 0
    ensures Bit(j) != 0
  {
    match k
    case 0 => case 1 => case 2 => case 3 => case 4 => case 5 => case 6 => case _ =>
  }

  function Power2(k: nat): (n: nat)
    ensures n > 0
  {
    if k == 0 then 1 else 2 * Power2(k - 1)
  }

  /** 2^k is one of the powers of two that add up to n. */
  predicate HasPower(n: nat, k: nat) {
    (n / Power2(k)) % 2 == 1
  }

  /** Bit k is the one of value 2^k. */
  lemma HasValue(b: bv8, k: nat)
    requires k < 8
    ensures Has(b, k) <==> HasPower(b as int, k)
  {
    ByteDigits(b);
    hide Bit, Has;
    DigitOf(b as int, k, Digit(b, 0), Digit(b, 1), Digit(b, 2), Digit(b, 3),
      Digit(b, 4), Digit(b, 5), Digit(b, 6), Digit(b, 7));
  }

  function Digit(b: bv8, k: nat): (d: nat)
    requires k < 8
    ensures d <= 1
  {
    if Has(b, k) then 1 else 0
  }

  lemma ByteDigits(b: bv8)
    ensures b as int ==
      Digit(b, 0) + 2 * Digit(b, 1) + 4 * Digit(b, 2) + 8 * Digit(b, 3)
      + 16 * Digit(b, 4) + 32 * Digit(b, 5) + 64 * Digit(b, 6) + 128 * Digit(b, 7)
  {
  }

  lemma DigitOf(n: nat, k: nat, c0: nat, c1: nat, c2: nat, c3: nat, c4: nat, c5: nat, c6: nat, c7: nat)
    requires k < 8 && c0 <= 1 && c1 <= 1 && c2 <= 1 && c3 <= 1 && c4 <= 1 && c5 <= 1 && c6 <= 1 && c7 <= 1
    requires n == c0 + 2 * c1 + 4 * c2 + 8 * c3 + 16 * c4 + 32 * c5 + 64 * c6 + 128 * c7
    ensures HasPower(n, k) <==>
      (if k == 0 then c0 else if k == 1 then c1 else if k == 2 then c2 else if k == 3 then c3
       else if k == 4 then c4 else if k == 5 then c5 else if k == 6 then c6 else c7) == 1
  {
    PowersTo7();
    hide Power2;
    match k
    case 0 => Quotient(n, 1, c1 + 2 * c2 + 4 * c3 + 8 * c4 + 16 * c5 + 32 * c6 + 64 * c7, c0, 0);
    case 1 => Quotient(n, 2, c2 + 2 * c3 + 4 * c4 + 8 * c5 + 16 * c6 + 32 * c7, c1, c0);
    case 2 => Quotient(n, 4, c3 + 2 * c4 + 4 * c5 + 8 * c6 + 16 * c7, c2, c0 + 2 * c1);
    case 3 => Quotient(n, 8, c4 + 2 * c5 + 4 * c6 + 8 * c7, c3, c0 + 2 * c1 + 4 * c2);
    case 4 => Quotient(n, 16, c5 + 2 * c6 + 4 * c7, c4, c0 + 2 * c1 + 4 * c2 + 8 * c3);
    case 5 => Quotient(n, 32, c6 + 2 * c7, c5, c0 + 2 * c1 + 4 * c2 + 8 * c3 + 16 * c4);
    case 6 => Quotient(n, 64, c7, c6, c0 + 2 * c1 + 4 * c2 + 8 * c3 + 16 * c4 + 32 * c5);
    case _ => Quotient(n, 128, 0, c7, c0 + 2 * c1 + 4 * c2 + 8 * c3 + 16 * c4 + 32 * c5 + 64 * c6);
  }

  lemma PowersTo7()
    ensures Power2(0) == 1 && Power2(1) == 2 && Power2(2) == 4 && Power2(3) == 8
    ensures Power2(4) == 16 && Power2(5) == 32 && Power2(6) == 64 && Power2(7) == 128
  {
    assert Power2(3) == 8 && Power2(5) == 32;
  }

  lemma Quotient(n: nat, m: nat, high: nat, c: nat, low: nat)
    requires m > 0 && low < m && c <= 1 && n == (2 * high + c) * m + low
    ensures n / m == 2 * high + c && (n / m) % 2 == c
  {
    var q, q' := n / m, 2 * high + c;
    if q < q' {
      Grows(q + 1, q', m);
    } else if q > q' {
      Grows(q' + 1, q, m);
    }
  }

  lemma Grows(a: nat, b: nat, m: nat)
    requires a <= b
    ensures a * m <= b * m
  {
  }

  lemma OrHas(b: bv8, m: bv8, n: bv8)
    ensures (b | m) & n == (b & n) | (m & n)
    ensures m & n == 0 ==> (b | m) & n == b & n
    ensures m & n == n && n != 0 ==> (b | m) & n != 0
  {
  }

  lemma AndHas(b: bv8, m: bv8, n: bv8)
    ensures m & n == 0 ==> b & !m & n == b & n
    ensures m & n == n ==> b & !m & n == 0
  {
  }

  lemma SameByte(a: bv8, b: bv8)
    requires forall k: nat :: k < 8 ==> Has(a, k) == Has(b, k)
    ensures a == b
  {
    assert Has(a, 0) == Has(b, 0) && Has(a, 1) == Has(b, 1) && Has(a, 2) == Has(b, 2) && Has(a, 3) == Has(b, 3);
    assert Has(a, 4) == Has(b, 4) && Has(a, 5) == Has(b, 5) && Has(a, 6) == Has(b, 6) && Has(a, 7) == Has(b, 7);
  }

  /** mb_slave_bit_get */
  predicate BitAt(data: seq<bv8>, i: nat)
    requires i / 8 < |data|
  {
    Has(data[i / 8], i % 8)
  }

  /** The bit string of n bits that data holds. */
  function Unpack(data: seq<bv8>, n: nat): (bits: seq<bool>)
    requires n <= 8 * |data|
    ensures |bits| == n
  {
    seq(n, i requires 0 <= i < n => BitAt(data, i))
  }

  function ByteCount(bits: nat): nat {
    (bits + 7) / 8
  }

  /** The count field of a PDU. */
  function CountByte(n: nat): bv8 {
    ByteOf(n % 256)
  }

  lemma CountByteValue(n: nat)
    requires n < 256
    ensures CountByte(n) as int == n
  {
    hide ByteOf;
    assert n % 256 == n;
    assert CountByte(n) == ByteOf(n);
    ByteOfInt(n);
  }

  function PackByte(bits: seq<bool>, from: nat, n: nat): bv8
    requires n <= 8
  {
    if n == 0 then 0
    else With(PackByte(bits, from, n - 1), n - 1, from + n - 1 < |bits| && bits[from + n - 1])
  }

  lemma {:induction false} PackByteHas(bits: seq<bool>, from: nat, n: nat, j: nat)
    requires n <= 8 && j < 8
    ensures Has(PackByte(bits, from, n), j) == (j < n && from + j < |bits| && bits[from + j])
    decreases n
  {
    hide With, Has;
    if n == 0 {
      NoBits(j);
    } else {
      PackByteHas(bits, from, n - 1, j);
      WithHas(PackByte(bits, from, n - 1), n - 1, from + n - 1 < |bits| && bits[from + n - 1], j);
    }
  }

  lemma NoBits(j: nat)
    requires j < 8
    ensures !Has(0, j)
  {
  }

  /** The bytes of a bit string, lowest bit first, the last byte padded with zeros. */
  function Pack(bits: seq<bool>): (data: seq<bv8>)
    ensures |data| == ByteCount(|bits|)
  {
    seq(ByteCount(|bits|), j requires 0 <= j < ByteCount(|bits|) => PackByte(bits, 8 * j, 8))
  }

  lemma PackBitAt(bits: seq<bool>, i: nat)
    requires i / 8 < ByteCount(|bits|)
    ensures BitAt(Pack(bits), i) == (i < |bits| && bits[i])
  {
    hide Has, With;
    PackByteHas(bits, 8 * (i / 8), 8, i % 8);
    assert 8 * (i / 8) + i % 8 == i;
  }

  /** Bytes are determined by their bits. */
  lemma SameBytes(a: seq<bv8>, b: seq<bv8>)
    requires |a| == |b|
    requires forall i: nat :: i < 8 * |a| ==> BitAt(a, i) == BitAt(b, i)
    ensures a == b
  {
    hide Has;
    forall j | 0 <= j < |a| ensures a[j] == b[j] {
      forall k: nat | k < 8 ensures Has(a[j], k) == Has(b[j], k) {
        assert BitAt(a, 8 * j + k) == BitAt(b, 8 * j + k);
        assert (8 * j + k) / 8 == j && (8 * j + k) % 8 == k;
      }
      SameByte(a[j], b[j]);
    }
  }

  /** Packing and unpacking are inverse, in both directions. */
  lemma UnpackPack(bits: seq<bool>)
    ensures Unpack(Pack(bits), |bits|) == bits
  {
    forall i | 0 <= i < |bits| ensures BitAt(Pack(bits), i) == bits[i] {
      PackBitAt(bits, i);
    }
  }

  lemma PackUnpack(data: seq<bv8>, n: nat)
    requires ByteCount(n) == |data|
    requires forall i: nat :: n <= i < 8 * |data| ==> !BitAt(data, i)
    ensures Pack(Unpack(data, n)) == data
  {
    var bits := Unpack(data, n);
    forall i: nat | i < 8 * |data| ensures BitAt(Pack(bits), i) == BitAt(data, i) {
      PackBitAt(bits, i);
    }
    SameBytes(Pack(bits), data);
  }

  // ---- big-endian words ---------------------------------------------------------------

  /** CC_FROM_BE16 of the two bytes at i. */
  function Be16(data: seq<bv8>, i: nat): (w: uint16)
    requires i + 1 < |data|
  {
    data[i] as int * 256 + data[i + 1] as int
  }

  function HighByte(n: uint16): bv8 { ByteOf(n / 256) }

  function LowByte(n: uint16): bv8 { ByteOf(n % 256) }

  lemma Be16Of(n: uint16)
    ensures HighByte(n) as int * 256 + LowByte(n) as int == n
  {
    hide ByteOf;
    ByteOfInt(n / 256);
    ByteOfInt(n % 256);
  }

  /** mb_slave_reg_get */
  function RegAt(data: seq<bv8>, i: nat): bv16
    requires 2 * i + 1 < |data|
  {
    Word(data[2 * i], data[2 * i + 1])
  }

  function Word(high: bv8, low: bv8): bv16 {
    ((high as bv16) << 8) | (low as bv16)
  }

  /** The register of value n, by its bytes. */
  function WordOf(n: uint16): bv16 {
    Word(HighByte(n), LowByte(n))
  }

  function WordHigh(w: bv16): bv8 { (w >> 8) as bv8 }

  function WordLow(w: bv16): bv8 { (w & 0xFF) as bv8 }

  /** A register's value is 256 times its high byte plus its low byte. */
  lemma WordValue(high: bv8, low: bv8)
    ensures Word(high, low) as int == 256 * high as int + low as int
  {
    WordSplit(Word(high, low));
    HalvesOfWord(high, low);
    hide Word, WordHigh, WordLow;
  }

  lemma WordSplit(w: bv16)
    ensures w as int == WordHigh(w) as int * 256 + WordLow(w) as int
  {
    assert w as int == ((w >> 8) as bv8) as int * 256 + ((w & 0xFF) as bv8) as int;
  }

  lemma HalvesOfWord(high: bv8, low: bv8)
    ensures WordHigh(Word(high, low)) == high && WordLow(Word(high, low)) == low
  {
  }

  lemma WordOfValue(n: uint16)
    ensures WordOf(n) as int == n
  {
    hide HighByte, LowByte, Word;
    Be16Of(n);
    WordValue(HighByte(n), LowByte(n));
  }

  lemma WordHalves(w: bv16)
    ensures Word(WordHigh(w), WordLow(w)) == w
  {
  }

  function Regs(data: seq<bv8>, n: nat): (words: seq<bv16>)
    requires 2 * n <= |data|
    ensures |words| == n
  {
    seq(n, i requires 0 <= i < n => RegAt(data, i))
  }

  /** Registers in network byte order. */
  function PackRegs(words: seq<bv16>): (data: seq<bv8>)
    ensures |data| == 2 * |words|
  {
    seq(2 * |words|, j requires 0 <= j < 2 * |words| =>
      if j % 2 == 0 then WordHigh(words[j / 2]) else WordLow(words[j / 2]))
  }

  lemma RegsPack(words: seq<bv16>)
    ensures Regs(PackRegs(words), |words|) == words
  {
    hide Word, WordHigh, WordLow;
    forall i | 0 <= i < |words| ensures RegAt(PackRegs(words), i) == words[i] {
      WordHalves(words[i]);
    }
  }
}
