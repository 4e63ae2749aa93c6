/** What a slave answers, in numbers: each request of section 6 of "MODBUS Application Protocol
    Specification V1.1b3" by its function code, its bytes as values, and the exception codes of
    section 7, in the order in which src/mb_slave.c finds out. */
module SlaveBytes {
  import opened Pdu
  import opened SlaveProperties
  import opened SlaveSpec
  import opened Tables

  /** The value of the two bytes from i on, the high byte first. */
  function Value(data: seq<bv8>, i: nat): nat
    requires i + 1 < |data|
  {
    256 * data[i] as int + data[i + 1] as int
  }

  lemma ValueIsBe16(buf: seq<bv8>)
    requires |buf| == MAX_PDU_SIZE
    ensures Value(buf, 1) == Be16(buf, 1) && Value(buf, 3) == Be16(buf, 3)
    ensures Value(buf, 5) == Be16(buf, 5) && Value(buf, 7) == Be16(buf, 7)
  {
  }

  /** The exception response: the function with 128 added and the code; no table changes. */
  predicate Refuses(s: Store, buf: seq<bv8>, n: nat, code: int)
    requires |buf| == MAX_PDU_SIZE && n <= MAX_PDU_SIZE && ValidStore(s)
  {
    var (s', r) := Handle(s, buf, n, false);
    s' == s && |r| == 2 && r[0] as int == buf[0] as int + 128 && 1 <= r[1] as int <= 4 && r[1] as int == code
  }

  lemma RefusedRefuses(s: Store, buf: seq<bv8>, n: nat, e: int)
    requires |buf| == MAX_PDU_SIZE && n <= MAX_PDU_SIZE && ValidStore(s) && buf[0] < 0x80
    requires Refused(s, buf, n, e)
    ensures Refuses(s, buf, n, -e)
  {
    hide Handle, ValidStore;
    TopBit(buf[0]);
  }

  lemma TopBit(f: bv8)
    requires f < 0x80
    ensures (f | 0x80) as int == f as int + 128
  {
  }

  /** The exception code of a read of q cells from a on, 0 if it is not refused. */
  function ReadCode<T>(t: Table<T>, a: nat, q: nat, max: nat): int {
    if q == 0 || q > max then 3 else if a + q > |t.cells| then 2 else if !t.canGet then 1 else -t.getAnswer
  }

  /** And of a write. */
  function WriteCode<T>(t: Table<T>, a: nat, q: nat, max: nat, countOk: bool, lengthOk: bool): int {
    if q == 0 || q > max || !countOk then 3
    else if a + q > |t.cells| then 2
    else if !lengthOk then 3
    else if !t.canSet then 1
    else -t.setAnswer
  }

  lemma ReadCodes<T>(t: Table<T>, a: nat, q: nat, max: nat)
    ensures ReadCode(t, a, q, max) == -ReadRefusal(t, a, q, max)
  {
  }

  lemma WriteCodes<T>(t: Table<T>, a: nat, q: nat, max: nat, countOk: bool, lengthOk: bool)
    ensures WriteCode(t, a, q, max, countOk, lengthOk) == -WriteRefusal(t, a, q, max, countOk, lengthOk)
  {
  }

  /** The exception code of a read/write: all checks come before the write. */
  function ReadWriteCode(t: Table<bv16>, ra: nat, rq: nat, a: nat, q: nat, countOk: bool, lengthOk: bool): int {
    if q == 0 || q > 121 || !countOk then 3
    else if a + q > |t.cells| then 2
    else if !lengthOk then 3
    else if !t.canSet then 1
    else if rq == 0 || rq > 125 then 3
    else if ra + rq > |t.cells| then 2
    else if !t.canGet then 1
    else -t.setAnswer
  }

  lemma ReadWriteCodes(t: Table<bv16>, buf: seq<bv8>, n: nat)
    requires |buf| == MAX_PDU_SIZE
    ensures var count := buf[9] as int;
      -ReadWriteRefusal(t, buf, n) ==
        ReadWriteCode(t, Value(buf, 1), Value(buf, 3), Value(buf, 5), Value(buf, 7),
          count == 2 * Value(buf, 7), n == 10 + count)
  {
  }

  /** Cell i of a table of bits is bit i % 8 of byte i / 8 of the user's memory. */
  lemma CellsByValue(bytes: seq<bv8>, size: nat, i: nat)
    requires i < size <= 8 * |bytes|
    ensures Unpack(bytes, size)[i] <==> HasPower(bytes[i / 8] as int, i % 8)
  {
    hide Has, HasPower;
    HasValue(bytes[i / 8], i % 8);
  }

  /** Functions 1 and 2: coil or input address + i is bit i % 8 of data byte i / 8. */
  lemma ReadBitsByValue(s: Store, buf: seq<bv8>, n: nat, t: Table<bool>)
    requires |buf| == MAX_PDU_SIZE && n <= MAX_PDU_SIZE && ValidStore(s)
    requires (buf[0] == 1 && t == s.coils) || (buf[0] == 2 && t == s.inputs)
    ensures var (a, q) := (Value(buf, 1), Value(buf, 3));
      var (s', r) := Handle(s, buf, n, false);
      var code := ReadCode(t, a, q, 2000);
      if code != 0 then Refuses(s, buf, n, code)
      else
        && s' == s && |r| == 2 + (q + 7) / 8 && r[0] == buf[0] && r[1] as int == (q + 7) / 8
        && ShowsBits(r, 2, t.cells, a, q)
  {
    ValueIsBe16(buf);
    hide Value, Be16;
    var (a, q) := (Value(buf, 1), Value(buf, 3));
    ReadCodes(t, a, q, 2000);
    hide Handle, ValidStore, Refused, Refuses, ReadRefusal, ReadCode, ShowsBits;
    var e := ReadRefusal(t, a, q, 2000);
    if e != 0 {
      BitsRefused(s, buf, n, t, e);
      RefusedRefuses(s, buf, n, e);
    } else {
      BitsShown(s, buf, n, t, a, q);
    }
  }

  lemma BitsRefused(s: Store, buf: seq<bv8>, n: nat, t: Table<bool>, e: int)
    requires |buf| == MAX_PDU_SIZE && n <= MAX_PDU_SIZE && ValidStore(s) && e != 0
    requires (buf[0] == 1 && t == s.coils) || (buf[0] == 2 && t == s.inputs)
    requires e == ReadRefusal(t, Be16(buf, 1), Be16(buf, 3), 2000)
    ensures Refused(s, buf, n, e)
  {
    hide Be16, Handle, ValidStore, Refused, ReadRefusal, BitAt;
    BitsAreRead(s, buf, n, t);
  }

  lemma BitsShown(s: Store, buf: seq<bv8>, n: nat, t: Table<bool>, a: nat, q: nat)
    requires |buf| == MAX_PDU_SIZE && n <= MAX_PDU_SIZE && ValidStore(s)
    requires (buf[0] == 1 && t == s.coils) || (buf[0] == 2 && t == s.inputs)
    requires a == Be16(buf, 1) && q == Be16(buf, 3) && ReadRefusal(t, a, q, 2000) == 0
    ensures var (s', r) := Handle(s, buf, n, false);
      && s' == s && |r| == 2 + (q + 7) / 8 && r[0] == buf[0] && r[1] as int == (q + 7) / 8
      && a + q <= |t.cells| && ShowsBits(r, 2, t.cells, a, q)
  {
    hide Be16, Handle, ValidStore, Refused, ReadRefusal, BitAt, ShowsBits;
    BitsAreRead(s, buf, n, t);
    var r := Handle(s, buf, n, false).1;
    RoundedUp(q, |r| - 2);
    BitsByValue(r, t.cells, a, q, |r| - 2);
  }

  lemma RoundedUp(q: nat, count: nat)
    requires q <= 8 * count < q + 8
    ensures count == (q + 7) / 8
  {
  }

  /** Bit i % 8 of byte i / 8 from a byte on is the cell a + i, or 0 after q cells. */
  predicate ShowsBits(pdu: seq<bv8>, from: nat, cells: seq<bool>, a: nat, q: nat)
    requires from <= |pdu| && a + q <= |cells|
  {
    forall i :: 0 <= i < 8 * (|pdu| - from) ==> (HasPower(pdu[from + i / 8] as int, i % 8) <==> i < q && cells[a + i])
  }

  lemma BitsByValue(r: seq<bv8>, cells: seq<bool>, a: nat, q: nat, count: nat)
    requires |r| == 2 + count && q <= 8 * count && a + q <= |cells|
    requires forall i :: 0 <= i < 8 * count ==> BitAt(r[2..], i) == (i < q && cells[a + i])
    ensures ShowsBits(r, 2, cells, a, q)
  {
    hide Has, HasPower;
    forall i | 0 <= i < 8 * count ensures HasPower(r[2 + i / 8] as int, i % 8) <==> i < q && cells[a + i] {
      HasValue(r[2 + i / 8], i % 8);
      assert BitAt(r[2..], i) == Has(r[2 + i / 8], i % 8);
    }
  }

  /** Functions 3 and 4: register address + i has the value of data bytes 2i and 2i + 1. */
  lemma ReadRegistersByValue(s: Store, buf: seq<bv8>, n: nat, t: Table<bv16>)
    requires |buf| == MAX_PDU_SIZE && n <= MAX_PDU_SIZE && ValidStore(s)
    requires (buf[0] == 3 && t == s.holding) || (buf[0] == 4 && t == s.inputRegs)
    ensures var (a, q) := (Value(buf, 1), Value(buf, 3));
      var (s', r) := Handle(s, buf, n, false);
      var code := ReadCode(t, a, q, 125);
      if code != 0 then Refuses(s, buf, n, code)
      else
        && s' == s && |r| == 2 + 2 * q && r[0] == buf[0] && r[1] as int == 2 * q
        && Shows(r, 2, t.cells, a, q)
  {
    ValueIsBe16(buf);
    hide Value, Be16;
    RegistersAreRead(s, buf, n, t);
    var (a, q) := (Value(buf, 1), Value(buf, 3));
    var e := ReadRefusal(t, a, q, 125);
    ReadCodes(t, a, q, 125);
    var r := Handle(s, buf, n, false).1;
    hide Handle, ValidStore, WordsIn, Refused, Refuses, ReadRefusal, WriteRefusal, ReadWriteRefusal, Stored, Shows;
    if e != 0 {
      RefusedRefuses(s, buf, n, e);
    } else {
      WordsByValue(r, 2, t.cells, a, q);
    }
  }

  /** The byte pairs of a PDU from a byte on have the values of q cells from a on. */
  predicate Shows(pdu: seq<bv8>, from: nat, cells: seq<bv16>, a: nat, q: nat)
    requires from + 2 * q <= |pdu| && a + q <= |cells|
  {
    forall i :: 0 <= i < q ==> Value(pdu, from + 2 * i) == cells[a + i] as int
  }

  lemma WordsByValue(pdu: seq<bv8>, from: nat, cells: seq<bv16>, a: nat, q: nat)
    requires from + 2 * q <= |pdu| && a + q <= |cells|
    requires WordsIn(pdu, from, q) == cells[a..a + q]
    ensures Shows(pdu, from, cells, a, q)
  {
    hide Word;
    forall i | 0 <= i < q ensures Value(pdu, from + 2 * i) == cells[a + i] as int {
      assert WordsIn(pdu, from, q)[i] == cells[a + i];
      WordValue(pdu[from + 2 * i], pdu[from + 2 * i + 1]);
    }
  }

  /** Function 5: FF00 sets and 0000 clears the coil, and the request is echoed. */
  lemma WriteCoilByValue(s: Store, buf: seq<bv8>, n: nat)
    requires |buf| == MAX_PDU_SIZE && n <= MAX_PDU_SIZE && ValidStore(s) && buf[0] == 5
    ensures var (a, v, t) := (Value(buf, 1), Value(buf, 3), s.coils);
      var code := WriteCode(t, a, 1, 1, v == 0 || v == 65280, true);
      if code != 0 then Refuses(s, buf, n, code)
      else Handle(s, buf, n, false) == (s.(coils := t.(cells := t.cells[a := v == 65280])), buf[..5])
  {
    ValueIsBe16(buf);
    hide Value, Be16;
    CoilIsWritten(s, buf, n);
    var (a, v, t) := (Value(buf, 1), Value(buf, 3), s.coils);
    var e := WriteRefusal(t, a, 1, 1, v == 0 || v == 0xFF00, true);
    WriteCodes(t, a, 1, 1, v == 0 || v == 0xFF00, true);
    var s' := Handle(s, buf, n, false).0;
    hide Handle, ValidStore;
    if e != 0 {
      RefusedRefuses(s, buf, n, e);
    } else {
      assert s'.coils.cells == t.cells[a := v == 65280];
    }
  }

  /** t' is t but for q cells from a on, whose values are those of the byte pairs of data from i on. */
  predicate Stored(t: Table<bv16>, t': Table<bv16>, a: nat, q: nat, data: seq<bv8>, i: nat)
    requires i + 2 * q <= |data|
  {
    && |t'.cells| == |t.cells| && t' == t.(cells := t'.cells)
    && forall k :: 0 <= k < |t.cells| ==>
         if a <= k < a + q then t'.cells[k] as int == Value(data, i + 2 * (k - a)) else t'.cells[k] == t.cells[k]
  }

  lemma WrittenStored(t: Table<bv16>, t': Table<bv16>, a: nat, q: nat, data: seq<bv8>, i: nat)
    requires i + 2 * q <= |data| && Written(t, t', a, WordsIn(data, i, q))
    ensures Stored(t, t', a, q, data, i)
  {
    hide Word;
    forall k | a <= k < a + q && k < |t.cells| ensures t'.cells[k] as int == Value(data, i + 2 * (k - a)) {
      WordValue(data[i + 2 * (k - a)], data[i + 2 * (k - a) + 1]);
    }
  }

  /** Function 6: the register takes the value, and the request is echoed. */
  lemma WriteRegisterByValue(s: Store, buf: seq<bv8>, n: nat)
    requires |buf| == MAX_PDU_SIZE && n <= MAX_PDU_SIZE && ValidStore(s) && buf[0] == 6
    ensures var (a, t) := (Value(buf, 1), s.holding);
      var (s', r) := Handle(s, buf, n, false);
      var code := WriteCode(t, a, 1, 1, true, true);
      if code != 0 then Refuses(s, buf, n, code)
      else r == buf[..5] && s' == s.(holding := s'.holding) && Stored(t, s'.holding, a, 1, buf, 3)
  {
    ValueIsBe16(buf);
    hide Value, Be16;
    RegisterIsWritten(s, buf, n);
    var (a, t) := (Value(buf, 1), s.holding);
    var e := WriteRefusal(t, a, 1, 1, true, true);
    WriteCodes(t, a, 1, 1, true, true);
    var s' := Handle(s, buf, n, false).0;
    hide Handle, ValidStore, Word;
    if e != 0 {
      RefusedRefuses(s, buf, n, e);
    } else {
      assert [Word(buf[3], buf[4])] == WordsIn(buf, 3, 1);
      WrittenStored(t, s'.holding, a, 1, buf, 3);
    }
  }

  /** Function 15: coil address + i takes bit i % 8 of data byte i / 8. */
  lemma WriteCoilsByValue(s: Store, buf: seq<bv8>, n: nat)
    requires |buf| == MAX_PDU_SIZE && n <= MAX_PDU_SIZE && ValidStore(s) && buf[0] == 15
    ensures var (a, q, count, t) := (Value(buf, 1), Value(buf, 3), buf[5] as int, s.coils);
      var (s', r) := Handle(s, buf, n, false);
      var code := WriteCode(t, a, q, 1968, count == (q + 7) / 8, n == 6 + count);
      if code != 0 then Refuses(s, buf, n, code)
      else
        && r == buf[..5] && s' == s.(coils := s'.coils)
        && StoredBits(t, s'.coils, a, q, buf, 6)
  {
    ValueIsBe16(buf);
    hide Value, Be16;
    CoilsAreWritten(s, buf, n);
    var (a, q, count, t) := (Value(buf, 1), Value(buf, 3), buf[5] as int, s.coils);
    var e := WriteRefusal(t, a, q, 1968, count == ByteCount(q), n == 6 + count);
    WriteCodes(t, a, q, 1968, count == ByteCount(q), n == 6 + count);
    var s' := Handle(s, buf, n, false).0;
    hide Handle, ValidStore, BitsIn, HasPower, Refused, Refuses, WriteRefusal, StoredBits;
    if e != 0 {
      RefusedRefuses(s, buf, n, e);
    } else {
      WrittenBits(t, s'.coils, a, q, buf, 6);
    }
  }

  /** t' is t but for q cells from a on, which are the bits of data from byte i on. */
  predicate StoredBits(t: Table<bool>, t': Table<bool>, a: nat, q: nat, data: seq<bv8>, i: nat)
    requires i + (q + 7) / 8 <= |data|
  {
    && |t'.cells| == |t.cells| && t' == t.(cells := t'.cells)
    && forall k :: 0 <= k < |t.cells| ==>
         (t'.cells[k] <==> if a <= k < a + q then HasPower(data[i + (k - a) / 8] as int, (k - a) % 8) else t.cells[k])
  }

  lemma WrittenBits(t: Table<bool>, t': Table<bool>, a: nat, q: nat, data: seq<bv8>, i: nat)
    requires i + ByteCount(q) <= |data| && Written(t, t', a, BitsIn(data, i, q))
    ensures StoredBits(t, t', a, q, data, i)
  {
    hide Has, HasPower;
    forall k | a <= k < a + q && k < |t.cells|
      ensures t'.cells[k] <==> HasPower(data[i + (k - a) / 8] as int, (k - a) % 8)
    {
      HasValue(data[i + (k - a) / 8], (k - a) % 8);
      assert t'.cells[k] == BitsIn(data, i, q)[k - a];
    }
  }

  /** Function 16: register address + i takes the value of data bytes 2i and 2i + 1. */
  lemma WriteRegistersByValue(s: Store, buf: seq<bv8>, n: nat)
    requires |buf| == MAX_PDU_SIZE && n <= MAX_PDU_SIZE && ValidStore(s) && buf[0] == 16
    ensures var (a, q, count, t) := (Value(buf, 1), Value(buf, 3), buf[5] as int, s.holding);
      var (s', r) := Handle(s, buf, n, false);
      var code := WriteCode(t, a, q, 123, count == 2 * q, n == 6 + count);
      if code != 0 then Refuses(s, buf, n, code)
      else r == buf[..5] && s' == s.(holding := s'.holding) && Stored(t, s'.holding, a, q, buf, 6)
  {
    ValueIsBe16(buf);
    hide Value, Be16;
    RegistersAreWritten(s, buf, n);
    var (a, q, count, t) := (Value(buf, 1), Value(buf, 3), buf[5] as int, s.holding);
    var e := WriteRefusal(t, a, q, 123, count == 2 * q, n == 6 + count);
    WriteCodes(t, a, q, 123, count == 2 * q, n == 6 + count);
    var s' := Handle(s, buf, n, false).0;
    hide Handle, ValidStore, WordsIn, Refused, Refuses, ReadRefusal, WriteRefusal, ReadWriteRefusal, Stored, Shows;
    if e != 0 {
      RefusedRefuses(s, buf, n, e);
    } else {
      WrittenStored(t, s'.holding, a, q, buf, 6);
    }
  }

  /** Function 23: the registers are written and then read, as functions 16 and 3 would. */
  lemma ReadWriteByValue(s: Store, buf: seq<bv8>, n: nat)
    requires |buf| == MAX_PDU_SIZE && n <= MAX_PDU_SIZE && ValidStore(s) && buf[0] == 23
    ensures var (ra, rq, a, q) := (Value(buf, 1), Value(buf, 3), Value(buf, 5), Value(buf, 7));
      var (count, t) := (buf[9] as int, s.holding);
      var (s', r) := Handle(s, buf, n, false);
      var code := ReadWriteCode(t, ra, rq, a, q, count == 2 * q, n == 10 + count);
      if code != 0 then Refuses(s, buf, n, code)
      else
        && s' == s.(holding := s'.holding) && Stored(t, s'.holding, a, q, buf, 10)
        && if t.getAnswer != 0 then |r| == 2 && r[0] as int == 151 && r[1] as int == -t.getAnswer
           else
             && |r| == 2 + 2 * rq && r[0] == 23 && r[1] as int == 2 * rq
             && Shows(r, 2, s'.holding.cells, ra, rq)
  {
    ValueIsBe16(buf);
    hide Value, Be16;
    WriteComesFirst(s, buf, n);
    var (ra, rq, a, q) := (Value(buf, 1), Value(buf, 3), Value(buf, 5), Value(buf, 7));
    var e := ReadWriteRefusal(s.holding, buf, n);
    ReadWriteCodes(s.holding, buf, n);
    var (s', r) := Handle(s, buf, n, false);
    hide Handle, ValidStore, WordsIn, Refused, Refuses, ReadRefusal, WriteRefusal, ReadWriteRefusal, Stored, Shows;
    if e != 0 {
      RefusedRefuses(s, buf, n, e);
    } else {
      WrittenStored(s.holding, s'.holding, a, q, buf, 10);
      if s.holding.getAnswer == 0 {
        WordsByValue(r, 2, s'.holding.cells, ra, rq);
      } else {
        TopBit(buf[0]);
      }
    }
  }

  /** Function 8: sub-function 0 is echoed whole, and any other is refused. */
  lemma DiagnosticsByValue(s: Store, buf: seq<bv8>, n: nat)
    requires |buf| == MAX_PDU_SIZE && n <= MAX_PDU_SIZE && ValidStore(s) && buf[0] == 8
    ensures if buf[1] == 0 && buf[2] == 0 then Handle(s, buf, n, false) == (s, buf[..n])
            else Refuses(s, buf, n, 1)
  {
    hide ValidStore;
    if !(buf[1] == 0 && buf[2] == 0) {
      RefusedBy(s, buf, n, -1);
      RefusedRefuses(s, buf, n, -1);
    }
  }

  /** Any other function is refused as illegal. */
  lemma OtherFunctions(s: Store, buf: seq<bv8>, n: nat)
    requires |buf| == MAX_PDU_SIZE && n <= MAX_PDU_SIZE && ValidStore(s)
    requires buf[0] == 0 || buf[0] == 7 || 9 <= buf[0] <= 14 || 17 <= buf[0] <= 22 || 24 <= buf[0]
    ensures Handle(s, buf, n, false) == (s, [buf[0] | 0x80, 1])
  {
    hide ValidStore, CountByte;
    CountByteValue(1);
    RefusedBy(s, buf, n, -1);
  }

  /** A read that was broadcast does nothing; every other request does what it does otherwise. */
  lemma Broadcasts(s: Store, buf: seq<bv8>, n: nat)
    requires |buf| == MAX_PDU_SIZE && n <= MAX_PDU_SIZE && ValidStore(s)
    ensures Handle(s, buf, n, true) == if 1 <= buf[0] <= 4 then (s, []) else Handle(s, buf, n, false)
  {
    hide ValidStore, ReadBits, ReadRegisters, WriteBit, WriteBits, WriteRegister, WriteRegisters, ReadWriteRegisters;
  }
}
