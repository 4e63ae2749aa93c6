/** What the requests of "MODBUS Application Protocol Specification V1.1b3" promise, cell by cell
    and byte by byte, of the slave's answers. */
module SlaveProperties {
  import opened Errors
  import opened Pdu
  import opened Tables
  import opened SlaveSpec

  /** The bits and the registers that lie in a PDU from a byte on. */
  function BitsIn(pdu: seq<bv8>, from: nat, quantity: nat): (bits: seq<bool>)
    requires from + ByteCount(quantity) <= |pdu|
    ensures |bits| == quantity
  {
    seq(quantity, i requires 0 <= i < quantity => Has(pdu[from + i / 8], i % 8))
  }

  function WordsIn(pdu: seq<bv8>, from: nat, quantity: nat): (words: seq<bv16>)
    requires from + 2 * quantity <= |pdu|
    ensures |words| == quantity
  {
    seq(quantity, i requires 0 <= i < quantity => Word(pdu[from + 2 * i], pdu[from + 2 * i + 1]))
  }

  /** t' is t but for the cells from address on, which hold vals. */
  predicate Written<T(==)>(t: Table<T>, t': Table<T>, address: nat, vals: seq<T>) {
    && SameTable(t, t')
    && forall i :: 0 <= i < |t.cells| ==>
         t'.cells[i] == if address <= i < address + |vals| then vals[i - address] else t.cells[i]
  }

  lemma BitsInSlice(pdu: seq<bv8>, from: nat, quantity: nat)
    requires from + ByteCount(quantity) <= |pdu|
    ensures Unpack(pdu[from..from + ByteCount(quantity)], quantity) == BitsIn(pdu, from, quantity)
  {
    hide Has;
  }

  lemma WordsInSlice(pdu: seq<bv8>, from: nat, quantity: nat)
    requires from + 2 * quantity <= |pdu|
    ensures Regs(pdu[from..from + 2 * quantity], quantity) == WordsIn(pdu, from, quantity)
  {
    hide Word;
  }

  /** The exception response e, every table left as it was. */
  predicate Refused(s: Store, buf: seq<bv8>, n: nat, e: int)
    requires |buf| == MAX_PDU_SIZE && n <= MAX_PDU_SIZE && ValidStore(s)
  {
    var (s', r) := Handle(s, buf, n, false);
    s' == s && -4 <= e <= -1 && |r| == 2 && r[0] == buf[0] | 0x80 && r[1] as int == -e
  }

  lemma RefusedBy(s: Store, buf: seq<bv8>, n: nat, e: int)
    requires |buf| == MAX_PDU_SIZE && n <= MAX_PDU_SIZE && ValidStore(s) && -4 <= e <= -1
    requires Answer(s, buf, n, false) == (s, Exception(e))
    ensures Refused(s, buf, n, e)
  {
    hide Answer, ValidStore, CountByte;
    CountByteValue(-e);
  }

  lemma WriteChecked<T>(t: Table<T>, address: nat, quantity: nat, max: nat, countOk: bool, lengthOk: bool)
    ensures var e := CheckWrite(t, address, quantity, max, countOk, lengthOk);
      && WriteRefusal(t, address, quantity, max, countOk, lengthOk) == (if e != 0 then e else t.setAnswer)
      && -4 <= e <= 0
      && (e == 0 ==> countOk && lengthOk && 0 < quantity <= max && address + quantity <= |t.cells|)
  {
  }

  lemma ReadChecked<T>(t: Table<T>, address: nat, quantity: nat, max: nat)
    ensures var e := CheckRead(t, address, quantity, max);
      && -4 <= e <= 0
      && (e == 0 ==> 0 < quantity <= max && address + quantity <= |t.cells| && t.canGet)
  {
  }

  /** Sections 6.1 and 6.2: the count is ceil(quantity / 8), bit i is the cell address + i and
      every pad bit is 0. */
  lemma BitsAreRead(s: Store, buf: seq<bv8>, n: nat, t: Table<bool>)
    requires |buf| == MAX_PDU_SIZE && n <= MAX_PDU_SIZE && ValidStore(s)
    requires (buf[0] == READ_COILS && t == s.coils) || (buf[0] == READ_INPUTS && t == s.inputs)
    ensures var address: nat, quantity: nat := Be16(buf, 1), Be16(buf, 3);
      var (s', r) := Handle(s, buf, n, false);
      var refusal := ReadRefusal(t, address, quantity, 2000);
      if refusal == 0 then
        && s' == s && |r| >= 2 && r[0] == buf[0] && r[1] as int == |r| - 2
        && quantity <= 8 * (|r| - 2) < quantity + 8
        && forall i :: 0 <= i < 8 * (|r| - 2) ==>
             BitAt(r[2..], i) == (i < quantity && t.cells[address + i])
      else Refused(s, buf, n, refusal)
  {
    hide ValidStore, Be16, Pack, CountByte, BitAt, CheckRead;
    var r := ReadCells(t, Be16(buf, 1), Be16(buf, 3), MAX_READ_BITS);
    assert Answer(s, buf, n, false) == (s, BitsRead(buf[0], r));
    if r.Ok? {
      var count := ByteCount(|r.value|);
      CountByteValue(count);
      var response := Handle(s, buf, n, false).1;
      assert response[2..] == Pack(r.value);
      forall i | 0 <= i < 8 * count ensures BitAt(response[2..], i) == (i < |r.value| && r.value[i]) {
        PackBitAt(r.value, i);
      }
    } else {
      AnswersOf(s);
      ReadChecked(t, Be16(buf, 1), Be16(buf, 3), MAX_READ_BITS);
      RefusedBy(s, buf, n, r.code);
    }
  }

  /** The table a read or a multiple write is about: whether it has the callback, its size, and the
      greatest quantity. */
  datatype Target = Target(supported: bool, size: nat, max: nat)

  function ReadTarget(s: Store, f: bv8): Target {
    if f == READ_COILS then Target(s.coils.canGet, |s.coils.cells|, 2000)
    else if f == READ_INPUTS then Target(s.inputs.canGet, |s.inputs.cells|, 2000)
    else if f == READ_HOLDING_REGISTERS then Target(s.holding.canGet, |s.holding.cells|, 125)
    else Target(s.inputRegs.canGet, |s.inputRegs.cells|, 125)
  }

  function WriteTarget(s: Store, f: bv8): Target {
    if f == WRITE_COILS then Target(s.coils.canSet, |s.coils.cells|, 1968)
    else Target(s.holding.canSet, |s.holding.cells|, 123)
  }

  predicate Valid(t: Target, buf: seq<bv8>)
    requires |buf| == MAX_PDU_SIZE
  {
    0 < Be16(buf, 3) <= t.max && Be16(buf, 1) + Be16(buf, 3) <= t.size
  }

  /** When the code says that it does not support a read: a table without a read callback answers
      EILLEGAL_FUNCTION if and only if quantity and address are valid. By the application protocol it
      would for every request. */
  lemma UnsupportedRead(s: Store, buf: seq<bv8>, n: nat)
    requires |buf| == MAX_PDU_SIZE && n <= MAX_PDU_SIZE && ValidStore(s)
    requires READ_COILS <= buf[0] <= READ_INPUT_REGISTERS && !ReadTarget(s, buf[0]).supported
    ensures Refused(s, buf, n, EILLEGAL_FUNCTION) <==> Valid(ReadTarget(s, buf[0]), buf)
  {
    hide ValidStore, Be16, Handle, BitAt, WordsIn;
    if buf[0] == READ_COILS {
      BitsAreRead(s, buf, n, s.coils);
    } else if buf[0] == READ_INPUTS {
      BitsAreRead(s, buf, n, s.inputs);
    } else if buf[0] == READ_HOLDING_REGISTERS {
      RegistersAreRead(s, buf, n, s.holding);
    } else {
      assert buf[0] == READ_INPUT_REGISTERS;
      RegistersAreRead(s, buf, n, s.inputRegs);
    }
  }

  /** Likewise a multiple write to a table without a write callback: if its count and length are valid
      as well. */
  lemma UnsupportedWrite(s: Store, buf: seq<bv8>, n: nat)
    requires |buf| == MAX_PDU_SIZE && n <= MAX_PDU_SIZE && ValidStore(s)
    requires (buf[0] == WRITE_COILS || buf[0] == WRITE_HOLDING_REGISTERS) && !WriteTarget(s, buf[0]).supported
    ensures Refused(s, buf, n, EILLEGAL_FUNCTION) <==>
      && Valid(WriteTarget(s, buf[0]), buf) && n == 6 + buf[5] as int
      && buf[5] as int == if buf[0] == WRITE_COILS then ByteCount(Be16(buf, 3)) else 2 * Be16(buf, 3)
  {
    hide ValidStore, Be16, Handle, BitsIn, WordsIn, ByteCount;
    if buf[0] == WRITE_COILS {
      CoilsAreWritten(s, buf, n);
    } else {
      RegistersAreWritten(s, buf, n);
    }
  }

  /** A single write to such a table: if the address, and the value of a coil, is valid. */
  lemma UnsupportedSingle(s: Store, buf: seq<bv8>, n: nat)
    requires |buf| == MAX_PDU_SIZE && n <= MAX_PDU_SIZE && ValidStore(s)
    requires (buf[0] == WRITE_COIL && !s.coils.canSet) || (buf[0] == WRITE_HOLDING_REGISTER && !s.holding.canSet)
    ensures Refused(s, buf, n, EILLEGAL_FUNCTION) <==>
      if buf[0] == WRITE_COIL then Be16(buf, 1) < |s.coils.cells| && (Be16(buf, 3) == 0 || Be16(buf, 3) == 0xFF00)
      else Be16(buf, 1) < |s.holding.cells|
  {
    hide ValidStore, Be16, Handle, Word;
    if buf[0] == WRITE_COIL {
      CoilIsWritten(s, buf, n);
    } else {
      RegisterIsWritten(s, buf, n);
    }
  }

  /** A read/write request to a table that lacks either: if the write is valid and, where only the read
      callback is missing, the read is too. */
  lemma UnsupportedReadWrite(s: Store, buf: seq<bv8>, n: nat)
    requires |buf| == MAX_PDU_SIZE && n <= MAX_PDU_SIZE && ValidStore(s) && buf[0] == READ_WRITE_HOLDING_REGISTERS
    requires !s.holding.canGet || !s.holding.canSet
    ensures Refused(s, buf, n, EILLEGAL_FUNCTION) <==>
      && 0 < Be16(buf, 7) <= 121 && Be16(buf, 5) + Be16(buf, 7) <= |s.holding.cells|
      && buf[9] as int == 2 * Be16(buf, 7) && n == 10 + buf[9] as int
      && (s.holding.canSet ==> 0 < Be16(buf, 3) <= 125 && Be16(buf, 1) + Be16(buf, 3) <= |s.holding.cells|)
  {
    hide ValidStore, Be16, Handle, WordsIn;
    WriteComesFirst(s, buf, n);
  }

  /** A request that shows it: no read callback, yet the answer to an empty read is not that. */
  lemma UnsupportedUnnoticed(s: Store, buf: seq<bv8>, n: nat)
    requires |buf| == MAX_PDU_SIZE && n <= MAX_PDU_SIZE && ValidStore(s) && !s.coils.canGet
    requires buf[..5] == [READ_COILS, 0, 0, 0, 0]
    ensures Refused(s, buf, n, EILLEGAL_DATA_VALUE)
  {
    hide ValidStore, Handle, BitAt;
    assert forall k :: 0 <= k < 5 ==> buf[k] == buf[..5][k];
    BitsAreRead(s, buf, n, s.coils);
  }

  lemma AnswersOf(s: Store)
    requires ValidStore(s)
    ensures Answers(s.coils) && Answers(s.inputs) && Answers(s.inputRegs) && Answers(s.holding)
  {
  }

  /** Sections 6.3 and 6.4: register i of the response is the cell address + i, high byte first. */
  lemma RegistersAreRead(s: Store, buf: seq<bv8>, n: nat, t: Table<bv16>)
    requires |buf| == MAX_PDU_SIZE && n <= MAX_PDU_SIZE && ValidStore(s)
    requires (buf[0] == READ_HOLDING_REGISTERS && t == s.holding)
          || (buf[0] == READ_INPUT_REGISTERS && t == s.inputRegs)
    ensures var address: nat, quantity: nat := Be16(buf, 1), Be16(buf, 3);
      var (s', r) := Handle(s, buf, n, false);
      var refusal := ReadRefusal(t, address, quantity, 125);
      if refusal == 0 then
        && s' == s && |r| == 2 + 2 * quantity && r[0] == buf[0] && r[1] as int == 2 * quantity
        && WordsIn(r, 2, quantity) == t.cells[address..address + quantity]
      else Refused(s, buf, n, refusal)
  {
    hide ValidStore, Be16, PackRegs, CountByte, Word;
    var r := ReadCells(t, Be16(buf, 1), Be16(buf, 3), MAX_READ_REGS);
    assert Answer(s, buf, n, false) == (s, RegistersRead(buf[0], r));
    if r.Ok? {
      CountByteValue(2 * |r.value|);
      ResponseWords(Handle(s, buf, n, false).1, r.value);
    } else {
      AnswersOf(s);
      RefusedBy(s, buf, n, r.code);
    }
  }

  /** Registers packed into a response can be read back there. */
  lemma ResponseWords(pdu: seq<bv8>, words: seq<bv16>)
    requires 2 + 2 * |words| == |pdu| && pdu[2..] == PackRegs(words)
    ensures WordsIn(pdu, 2, |words|) == words
  {
    hide WordsIn, Regs, PackRegs;
    RegsPack(words);
    WordsInSlice(pdu, 2, |words|);
    assert pdu[2..2 + 2 * |words|] == pdu[2..];
  }

  /** Sections 6.5 and 6.6: one cell is written and the request echoed. */
  lemma CoilIsWritten(s: Store, buf: seq<bv8>, n: nat)
    requires |buf| == MAX_PDU_SIZE && n <= MAX_PDU_SIZE && ValidStore(s) && buf[0] == WRITE_COIL
    ensures var address: nat, value: nat, t := Be16(buf, 1), Be16(buf, 3), s.coils;
      var (s', r) := Handle(s, buf, n, false);
      var refusal := WriteRefusal(t, address, 1, 1, value == 0 || value == 0xFF00, true);
      if refusal == 0 then
        r == buf[..5] && s' == s.(coils := s'.coils) && Written(t, s'.coils, address, [value == 0xFF00])
      else Refused(s, buf, n, refusal)
  {
    hide ValidStore, Be16, Splice, CountByte;
    var address: nat, value: nat, t := Be16(buf, 1), Be16(buf, 3), s.coils;
    var refusal := WriteRefusal(t, address, 1, 1, value == 0 || value == 0xFF00, true);
    AnswersOf(s);
    if refusal != 0 {
      RefusedBy(s, buf, n, refusal);
    } else {
      var t' := t.(cells := Splice(t.cells, address, [value == 0xFF00]));
      assert Answer(s, buf, n, false) == (s.(coils := t'), Ok(buf[..5]));
    }
  }

  lemma RegisterIsWritten(s: Store, buf: seq<bv8>, n: nat)
    requires |buf| == MAX_PDU_SIZE && n <= MAX_PDU_SIZE && ValidStore(s) && buf[0] == WRITE_HOLDING_REGISTER
    ensures var address: nat, t := Be16(buf, 1), s.holding;
      var (s', r) := Handle(s, buf, n, false);
      var refusal := WriteRefusal(t, address, 1, 1, true, true);
      if refusal == 0 then
        r == buf[..5] && s' == s.(holding := s'.holding) && Written(t, s'.holding, address, [Word(buf[3], buf[4])])
      else Refused(s, buf, n, refusal)
  {
    hide ValidStore, Be16, Splice, CountByte, Word;
    var address: nat, t := Be16(buf, 1), s.holding;
    var refusal := WriteRefusal(t, address, 1, 1, true, true);
    AnswersOf(s);
    if refusal != 0 {
      RefusedBy(s, buf, n, refusal);
    } else {
      var t' := t.(cells := Splice(t.cells, address, [Word(buf[3], buf[4])]));
      assert Answer(s, buf, n, false) == (s.(holding := t'), Ok(buf[..5]));
    }
  }

  /** Section 6.11, all or nothing: the request is echoed and exactly the coils it names hold the
      bits it carries, or it is refused and nothing changes. */
  lemma CoilsAreWritten(s: Store, buf: seq<bv8>, n: nat)
    requires |buf| == MAX_PDU_SIZE && n <= MAX_PDU_SIZE && ValidStore(s) && buf[0] == WRITE_COILS
    ensures var address: nat, quantity: nat, t := Be16(buf, 1), Be16(buf, 3), s.coils;
      var (s', r) := Handle(s, buf, n, false);
      var refusal := WriteRefusal(t, address, quantity, 1968,
        buf[5] as int == ByteCount(quantity), n == 6 + buf[5] as int);
      if refusal == 0 then
        r == buf[..5] && s' == s.(coils := s'.coils) && Written(t, s'.coils, address, BitsIn(buf, 6, quantity))
      else Refused(s, buf, n, refusal)
  {
    hide CheckWrite, WriteRefusal;
    hide ValidStore, Be16, Unpack, BitsIn, Splice, CountByte, ByteCount;
    var address: nat, quantity: nat, t, count := Be16(buf, 1), Be16(buf, 3), s.coils, buf[5] as int;
    var e := CheckWrite(t, address, quantity, MAX_WRITE_BITS, count == ByteCount(quantity), n == 6 + count);
    AnswersOf(s);
    WriteChecked(t, address, quantity, MAX_WRITE_BITS, count == ByteCount(quantity), n == 6 + count);
    if e != 0 {
      RefusedBy(s, buf, n, e);
    } else if t.setAnswer != 0 {
      RefusedBy(s, buf, n, t.setAnswer);
    } else {
      BitsInSlice(buf, 6, quantity);
      var t' := t.(cells := Splice(t.cells, address, BitsIn(buf, 6, quantity)));
      assert Answer(s, buf, n, false) == (s.(coils := t'), Ok(buf[..5]));
    }
  }

  /** Section 6.12, likewise. */
  lemma RegistersAreWritten(s: Store, buf: seq<bv8>, n: nat)
    requires |buf| == MAX_PDU_SIZE && n <= MAX_PDU_SIZE && ValidStore(s) && buf[0] == WRITE_HOLDING_REGISTERS
    ensures var address: nat, quantity: nat, t := Be16(buf, 1), Be16(buf, 3), s.holding;
      var (s', r) := Handle(s, buf, n, false);
      var refusal := WriteRefusal(t, address, quantity, 123, buf[5] as int == 2 * quantity, n == 6 + buf[5] as int);
      if refusal == 0 then
        r == buf[..5] && s' == s.(holding := s'.holding) && Written(t, s'.holding, address, WordsIn(buf, 6, quantity))
      else Refused(s, buf, n, refusal)
  {
    hide CheckWrite, WriteRefusal;
    hide ValidStore, Be16, Regs, WordsIn, Splice, CountByte;
    var address: nat, quantity: nat, t, count := Be16(buf, 1), Be16(buf, 3), s.holding, buf[5] as int;
    var e := CheckWrite(t, address, quantity, MAX_WRITE_REGS, count == 2 * quantity, n == 6 + count);
    AnswersOf(s);
    WriteChecked(t, address, quantity, MAX_WRITE_REGS, count == 2 * quantity, n == 6 + count);
    if e != 0 {
      RefusedBy(s, buf, n, e);
    } else if t.setAnswer != 0 {
      RefusedBy(s, buf, n, t.setAnswer);
    } else {
      WordsInSlice(buf, 6, quantity);
      var t' := t.(cells := Splice(t.cells, address, WordsIn(buf, 6, quantity)));
      assert Answer(s, buf, n, false) == (s.(holding := t'), Ok(buf[..5]));
    }
  }

  /** Why a read/write is refused before the write: the write half first, then the read half. */
  function ReadWriteRefusal(t: Table<bv16>, buf: seq<bv8>, n: nat): int
    requires |buf| == MAX_PDU_SIZE
  {
    var write := CheckWrite(t, Be16(buf, 5), Be16(buf, 7), 121,
      buf[9] as int == 2 * Be16(buf, 7), n == 10 + buf[9] as int);
    var read := CheckRead(t, Be16(buf, 1), Be16(buf, 3), 125);
    if write != 0 then write else if read != 0 then read else t.setAnswer
  }

  /** Section 6.17: an invalid request changes nothing. A valid one writes first, and the response
      holds the registers as they are then, also where the two ranges overlap. Should the read
      callback fail after the write, the write stands and only the answer is an exception. */
  lemma WriteComesFirst(s: Store, buf: seq<bv8>, n: nat)
    requires |buf| == MAX_PDU_SIZE && n <= MAX_PDU_SIZE && ValidStore(s) && buf[0] == READ_WRITE_HOLDING_REGISTERS
    ensures var t := s.holding;
      var (s', r) := Handle(s, buf, n, false);
      var refusal := ReadWriteRefusal(t, buf, n);
      if refusal == 0 then
        var from: nat, quantity: nat := Be16(buf, 1), Be16(buf, 3);
        && s' == s.(holding := s'.holding)
        && Written(t, s'.holding, Be16(buf, 5), WordsIn(buf, 10, Be16(buf, 7)))
        && if t.getAnswer == 0 then
             && |r| == 2 + 2 * quantity && r[0] == buf[0] && r[1] as int == 2 * quantity
             && WordsIn(r, 2, quantity) == s'.holding.cells[from..from + quantity]
           else |r| == 2 && r[0] == buf[0] | 0x80 && r[1] as int == -t.getAnswer
      else Refused(s, buf, n, refusal)
  {
    hide CheckWrite, CheckRead, ReadCells, RegistersRead;
    hide ValidStore, Be16, Regs, WordsIn, Splice, CountByte, PackRegs;
    var t, count := s.holding, buf[9] as int;
    var e := CheckWrite(t, Be16(buf, 5), Be16(buf, 7), MAX_READ_WRITE_REGS, count == 2 * Be16(buf, 7), n == 10 + count);
    var e' := CheckRead(t, Be16(buf, 1), Be16(buf, 3), MAX_READ_REGS);
    AnswersOf(s);
    WriteChecked(t, Be16(buf, 5), Be16(buf, 7), MAX_READ_WRITE_REGS, count == 2 * Be16(buf, 7), n == 10 + count);
    ReadChecked(t, Be16(buf, 1), Be16(buf, 3), MAX_READ_REGS);
    if e != 0 {
      RefusedBy(s, buf, n, e);
    } else if e' != 0 {
      RefusedBy(s, buf, n, e');
    } else if t.setAnswer != 0 {
      RefusedBy(s, buf, n, t.setAnswer);
    } else {
      var t' := t.(cells := Splice(t.cells, Be16(buf, 5), WordsIn(buf, 10, Be16(buf, 7))));
      BothHalves(s, buf, n, t');
      hide Answer;
      SameCheckRead(t, t', Be16(buf, 1), Be16(buf, 3));
      ReadHalf(buf[0], t', Be16(buf, 1), Be16(buf, 3));
      if t.getAnswer != 0 {
        CountByteValue(-t.getAnswer);
      }
    }
  }

  /** A read/write request that passes: the table is written and then read. */
  lemma BothHalves(s: Store, buf: seq<bv8>, n: nat, t': Table<bv16>)
    requires |buf| == MAX_PDU_SIZE && n <= MAX_PDU_SIZE && ValidStore(s) && buf[0] == READ_WRITE_HOLDING_REGISTERS
    requires var t, count := s.holding, buf[9] as int;
      && CheckWrite(t, Be16(buf, 5), Be16(buf, 7), MAX_READ_WRITE_REGS, count == 2 * Be16(buf, 7), n == 10 + count) == 0
      && CheckRead(t, Be16(buf, 1), Be16(buf, 3), MAX_READ_REGS) == 0 && t.setAnswer == 0
      && count == 2 * Be16(buf, 7) <= |buf| - 10 && Be16(buf, 5) + Be16(buf, 7) <= |t.cells|
      && t' == t.(cells := Splice(t.cells, Be16(buf, 5), WordsIn(buf, 10, Be16(buf, 7))))
    ensures Answer(s, buf, n, false) ==
      (s.(holding := t'), RegistersRead(buf[0], ReadCells(t', Be16(buf, 1), Be16(buf, 3), MAX_READ_REGS)))
  {
    hide CheckWrite, CheckRead, ReadCells, RegistersRead, ValidStore, Be16, Regs, WordsIn, Splice;
    WordsInSlice(buf, 10, Be16(buf, 7));
  }

  lemma SameCheckRead(t: Table<bv16>, t': Table<bv16>, from: nat, quantity: nat)
    requires SameTable(t, t')
    ensures CheckRead(t', from, quantity, MAX_READ_REGS) == CheckRead(t, from, quantity, MAX_READ_REGS)
  {
  }

  lemma ReadHalf(f: bv8, t: Table<bv16>, from: nat, quantity: nat)
    requires CheckRead(t, from, quantity, MAX_READ_REGS) == 0
    ensures var read := RegistersRead(f, ReadCells(t, from, quantity, MAX_READ_REGS));
      if t.getAnswer == 0 then
        && read.Ok? && |read.value| == 2 + 2 * quantity && from + quantity <= |t.cells|
        && read.value[0] == f && read.value[1] as int == 2 * quantity
        && WordsIn(read.value, 2, quantity) == t.cells[from..from + quantity]
      else read == Exception(t.getAnswer)
  {
    hide WordsIn, CountByte, PackRegs;
    if t.getAnswer == 0 {
      var words := t.cells[from..from + quantity];
      CountByteValue(2 * quantity);
      ResponseWords([f, CountByte(2 * quantity)] + PackRegs(words), words);
    }
  }
}
