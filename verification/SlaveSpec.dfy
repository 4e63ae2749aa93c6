/** What a slave answers: the data model and access functions of "MODBUS Application Protocol
    Specification V1.1b3" (sections 4.3 and 6), with the checks in the order src/mb_slave.c
    makes them. Nothing here knows how bits and registers lie in a buffer being overwritten. */
module SlaveSpec {
  import opened Errors
  import opened Pdu
  import opened Tables

  const READ_COILS: bv8 := 1
  const READ_INPUTS: bv8 := 2
  const READ_HOLDING_REGISTERS: bv8 := 3
  const READ_INPUT_REGISTERS: bv8 := 4
  const WRITE_COIL: bv8 := 5
  const WRITE_HOLDING_REGISTER: bv8 := 6
  const DIAGNOSTICS: bv8 := 8
  const WRITE_COILS: bv8 := 15
  const WRITE_HOLDING_REGISTERS: bv8 := 16
  const READ_WRITE_HOLDING_REGISTERS: bv8 := 23

  const MAX_READ_BITS := 0x7D0
  const MAX_READ_REGS := 0x7D
  const MAX_WRITE_BITS := 0x7B0
  const MAX_WRITE_REGS := 0x7B
  const MAX_READ_WRITE_REGS := 0x79

  datatype Store = Store(
    coils: Table<bool>, inputs: Table<bool>, inputRegs: Table<bv16>, holding: Table<bv16>)

  datatype Result<T> = Ok(value: T) | Exception(code: int)

  // Section 6 of the Modbus application protocol has a slave check first whether it supports the
  // function at all; the code does so last. The refusals below are in the order of the code.

  /** The checks of a read that come before the read callback. */
  function CheckRead<T>(t: Table<T>, address: nat, quantity: nat, max: nat): int {
    if quantity == 0 || quantity > max then EILLEGAL_DATA_VALUE
    else if address + quantity > |t.cells| then EILLEGAL_DATA_ADDRESS
    else if !t.canGet then EILLEGAL_FUNCTION
    else 0
  }

  /** Why a read is refused; 0 if it is not. */
  function ReadRefusal<T>(t: Table<T>, address: nat, quantity: nat, max: nat): (e: int)
    ensures e == 0 ==> 0 < quantity <= max && address + quantity <= |t.cells| && t.canGet
  {
    var e := CheckRead(t, address, quantity, max);
    if e != 0 then e else t.getAnswer
  }

  /** Reading quantity cells from address on. */
  function ReadCells<T>(t: Table<T>, address: nat, quantity: nat, max: nat): Result<seq<T>> {
    var e := ReadRefusal(t, address, quantity, max);
    if e != 0 then Exception(e) else Ok(t.cells[address..address + quantity])
  }

  /** The checks of a write that come before the write callback. */
  function CheckWrite<T>(t: Table<T>, address: nat, quantity: nat, max: nat, countOk: bool, lengthOk: bool): int {
    if quantity == 0 || quantity > max then EILLEGAL_DATA_VALUE
    else if !countOk then EILLEGAL_DATA_VALUE
    else if address + quantity > |t.cells| then EILLEGAL_DATA_ADDRESS
    else if !lengthOk then EILLEGAL_DATA_VALUE
    else if !t.canSet then EILLEGAL_FUNCTION
    else 0
  }

  /** Why a write is refused; 0 if it is not. */
  function WriteRefusal<T>(t: Table<T>, address: nat, quantity: nat, max: nat, countOk: bool, lengthOk: bool): (e: int)
    ensures e == 0 ==> countOk && lengthOk && 0 < quantity <= max && address + quantity <= |t.cells| && t.canSet
  {
    var e := CheckWrite(t, address, quantity, max, countOk, lengthOk);
    if e != 0 then e else t.setAnswer
  }

  /** The table after the write callback, and its answer. */
  function SetCells<T>(t: Table<T>, address: nat, vals: seq<T>): (Table<T>, int)
    requires address + |vals| <= |t.cells|
  {
    if t.setAnswer != 0 then (t, t.setAnswer)
    else (t.(cells := Splice(t.cells, address, vals)), 0)
  }

  // ---- the PDU ------------------------------------------------------------------------

  /** The response to a read: function, number of data bytes, data. */
  function BitsRead(f: bv8, r: Result<seq<bool>>): Result<seq<bv8>> {
    match r
    case Ok(bits) => Ok([f, CountByte(ByteCount(|bits|))] + Pack(bits))
    case Exception(e) => Exception(e)
  }

  function RegistersRead(f: bv8, r: Result<seq<bv16>>): Result<seq<bv8>> {
    match r
    case Ok(words) => Ok([f, CountByte(2 * |words|)] + PackRegs(words))
    case Exception(e) => Exception(e)
  }

  function ReadBits(t: Table<bool>, buf: seq<bv8>): Result<seq<bv8>>
    requires |buf| == MAX_PDU_SIZE
  {
    BitsRead(buf[0], ReadCells(t, Be16(buf, 1), Be16(buf, 3), MAX_READ_BITS))
  }

  function ReadRegisters(t: Table<bv16>, buf: seq<bv8>): Result<seq<bv8>>
    requires |buf| == MAX_PDU_SIZE
  {
    RegistersRead(buf[0], ReadCells(t, Be16(buf, 1), Be16(buf, 3), MAX_READ_REGS))
  }

  function WriteBit(t: Table<bool>, buf: seq<bv8>): (Table<bool>, Result<seq<bv8>>)
    requires |buf| == MAX_PDU_SIZE
  {
    var value := Be16(buf, 3);
    if value != 0 && value != 0xFF00 then (t, Exception(EILLEGAL_DATA_VALUE))
    else
      var e := CheckWrite(t, Be16(buf, 1), 1, 1, true, true);
      if e != 0 then (t, Exception(e))
      else
        var (t', answer) := SetCells(t, Be16(buf, 1), [value == 0xFF00]);
        (t', if answer != 0 then Exception(answer) else Ok(buf[..5]))
  }

  function WriteRegister(t: Table<bv16>, buf: seq<bv8>): (Table<bv16>, Result<seq<bv8>>)
    requires |buf| == MAX_PDU_SIZE
  {
    var e := CheckWrite(t, Be16(buf, 1), 1, 1, true, true);
    if e != 0 then (t, Exception(e))
    else
      var (t', answer) := SetCells(t, Be16(buf, 1), [Word(buf[3], buf[4])]);
      (t', if answer != 0 then Exception(answer) else Ok(buf[..5]))
  }

  function WriteBits(t: Table<bool>, buf: seq<bv8>, n: int): (Table<bool>, Result<seq<bv8>>)
    requires |buf| == MAX_PDU_SIZE
  {
    var address, quantity, count := Be16(buf, 1), Be16(buf, 3), buf[5] as int;
    var e := CheckWrite(t, address, quantity, MAX_WRITE_BITS, count == ByteCount(quantity), n == 6 + count);
    if e != 0 then (t, Exception(e))
    else
      var (t', answer) := SetCells(t, address, Unpack(buf[6..6 + count], quantity));
      (t', if answer != 0 then Exception(answer) else Ok(buf[..5]))
  }

  function WriteRegisters(t: Table<bv16>, buf: seq<bv8>, n: int): (Table<bv16>, Result<seq<bv8>>)
    requires |buf| == MAX_PDU_SIZE
  {
    var address, quantity, count := Be16(buf, 1), Be16(buf, 3), buf[5] as int;
    var e := CheckWrite(t, address, quantity, MAX_WRITE_REGS, count == 2 * quantity, n == 6 + count);
    if e != 0 then (t, Exception(e))
    else
      var (t', answer) := SetCells(t, address, Regs(buf[6..6 + count], quantity));
      (t', if answer != 0 then Exception(answer) else Ok(buf[..5]))
  }

  /** A write that passes its checks is what the callback makes of it. */
  lemma BitsPass(t: Table<bool>, buf: seq<bv8>, n: int)
    requires |buf| == MAX_PDU_SIZE
    requires CheckWrite(t, Be16(buf, 1), Be16(buf, 3), MAX_WRITE_BITS,
      buf[5] as int == ByteCount(Be16(buf, 3)), n == 6 + buf[5] as int) == 0
    ensures 6 + buf[5] as int <= MAX_PDU_SIZE && Be16(buf, 3) <= 8 * buf[5] as int
    ensures Be16(buf, 1) + Be16(buf, 3) <= |t.cells|
    ensures var (t', answer) := SetCells(t, Be16(buf, 1), Unpack(buf[6..6 + buf[5] as int], Be16(buf, 3)));
      WriteBits(t, buf, n) == (t', if answer != 0 then Exception(answer) else Ok(buf[..5]))
  {
    hide Be16, Unpack;
  }

  lemma RegistersPass(t: Table<bv16>, buf: seq<bv8>, n: int)
    requires |buf| == MAX_PDU_SIZE
    requires CheckWrite(t, Be16(buf, 1), Be16(buf, 3), MAX_WRITE_REGS,
      buf[5] as int == 2 * Be16(buf, 3), n == 6 + buf[5] as int) == 0
    ensures 6 + buf[5] as int <= MAX_PDU_SIZE && 2 * Be16(buf, 3) <= buf[5] as int
    ensures Be16(buf, 1) + Be16(buf, 3) <= |t.cells|
    ensures var (t', answer) := SetCells(t, Be16(buf, 1), Regs(buf[6..6 + buf[5] as int], Be16(buf, 3)));
      WriteRegisters(t, buf, n) == (t', if answer != 0 then Exception(answer) else Ok(buf[..5]))
  {
    hide Be16, Regs;
  }

  function ReadWriteRegisters(t: Table<bv16>, buf: seq<bv8>, n: int): (Table<bv16>, Result<seq<bv8>>)
    requires |buf| == MAX_PDU_SIZE
  {
    var readAddress, readQuantity := Be16(buf, 1), Be16(buf, 3);
    var writeAddress, writeQuantity, count := Be16(buf, 5), Be16(buf, 7), buf[9] as int;
    var e := CheckWrite(t, writeAddress, writeQuantity, MAX_READ_WRITE_REGS,
      count == 2 * writeQuantity, n == 10 + count);
    var e' := CheckRead(t, readAddress, readQuantity, MAX_READ_REGS);
    if e != 0 then (t, Exception(e))
    else if e' != 0 then (t, Exception(e'))
    else
      var (t', answer) := SetCells(t, writeAddress, Regs(buf[10..10 + count], writeQuantity));
      if answer != 0 then (t', Exception(answer))
      else (t', ReadRegisters(t', buf))
  }

  function Diagnostics(buf: seq<bv8>, n: nat): Result<seq<bv8>>
    requires |buf| == MAX_PDU_SIZE && n <= MAX_PDU_SIZE
  {
    if Be16(buf, 1) == 0 then Ok(buf[..n]) else Exception(EILLEGAL_FUNCTION)
  }

  /** The switch of mb_slave_handle_request for a slave without vendor functions: the tables
      after the request in the first n bytes of buf, and the response. */
  function Answer(s: Store, buf: seq<bv8>, n: nat, broadcast: bool): (Store, Result<seq<bv8>>)
    requires |buf| == MAX_PDU_SIZE && n <= MAX_PDU_SIZE
  {
    var f := buf[0];
    if f == READ_COILS then (s, if broadcast then Ok([]) else ReadBits(s.coils, buf))
    else if f == READ_INPUTS then (s, if broadcast then Ok([]) else ReadBits(s.inputs, buf))
    else if f == READ_INPUT_REGISTERS then (s, if broadcast then Ok([]) else ReadRegisters(s.inputRegs, buf))
    else if f == READ_HOLDING_REGISTERS then (s, if broadcast then Ok([]) else ReadRegisters(s.holding, buf))
    else if f == WRITE_COIL then var (t, r) := WriteBit(s.coils, buf); (s.(coils := t), r)
    else if f == WRITE_HOLDING_REGISTER then var (t, r) := WriteRegister(s.holding, buf); (s.(holding := t), r)
    else if f == WRITE_COILS then var (t, r) := WriteBits(s.coils, buf, n); (s.(coils := t), r)
    else if f == WRITE_HOLDING_REGISTERS then
      var (t, r) := WriteRegisters(s.holding, buf, n); (s.(holding := t), r)
    else if f == READ_WRITE_HOLDING_REGISTERS then
      var (t, r) := ReadWriteRegisters(s.holding, buf, n); (s.(holding := t), r)
    else if f == DIAGNOSTICS then (s, Diagnostics(buf, n))
    else (s, Exception(EILLEGAL_FUNCTION))
  }

  predicate Answers<T>(t: Table<T>) {
    IsAnswer(t.getAnswer) && IsAnswer(t.setAnswer) && |t.cells| <= 0x1_0000
  }

  predicate ValidStore(s: Store) {
    Answers(s.coils) && Answers(s.inputs) && Answers(s.inputRegs) && Answers(s.holding)
  }

  function ExceptionPdu(f: bv8, e: int): seq<bv8>
    requires -4 <= e <= -1
  {
    [f | 0x80, CountByte(-e)]
  }

  /** An exception is one of the four of section 7. */
  lemma ExceptionsAreModbus(s: Store, buf: seq<bv8>, n: nat, broadcast: bool)
    requires |buf| == MAX_PDU_SIZE && n <= MAX_PDU_SIZE && ValidStore(s)
    ensures Answer(s, buf, n, broadcast).1.Exception? ==> -4 <= Answer(s, buf, n, broadcast).1.code <= -1
  {
    hide Unpack, Regs, Pack, PackRegs, Splice, Be16;
  }

  /** The tables and the response PDU; empty for a read that was broadcast. */
  function Handle(s: Store, buf: seq<bv8>, n: nat, broadcast: bool): (Store, seq<bv8>)
    requires |buf| == MAX_PDU_SIZE && n <= MAX_PDU_SIZE && ValidStore(s)
  {
    ExceptionsAreModbus(s, buf, n, broadcast);
    var (s', r) := Answer(s, buf, n, broadcast);
    (s', match r
         case Ok(pdu) => pdu
         case Exception(e) => ExceptionPdu(buf[0], e))
  }

  /** Every response fits the buffer. Unless the request was broadcast, it is the request's function
      with bit 7 set and one of the four exception codes, or it begins with the function itself
      and is at least two bytes long or the echo of a loopback. */
  lemma ResponseShape(s: Store, buf: seq<bv8>, n: nat, broadcast: bool)
    requires |buf| == MAX_PDU_SIZE && 0 < n <= MAX_PDU_SIZE && ValidStore(s)
    ensures |Handle(s, buf, n, broadcast).1| <= MAX_PDU_SIZE
    ensures !broadcast ==> WellFormed(buf[0], buf[..n], Handle(s, buf, n, broadcast).1)
  {
    hide Unpack, Regs, Pack, PackRegs, Splice, Be16, CountByte;
    ExceptionsAreModbus(s, buf, n, broadcast);
    var r := Answer(s, buf, n, broadcast).1;
    if r.Exception? {
      CountByteValue(-r.code);
    }
  }

  predicate WellFormed(f: bv8, request: seq<bv8>, response: seq<bv8>) {
    if |response| == 2 && response[0] == f | 0x80 then 1 <= response[1] as int <= 4
    else
      && 0 < |response| <= MAX_PDU_SIZE && response[0] == f
      && (|response| == 1 ==> f == DIAGNOSTICS)
      && (f == DIAGNOSTICS ==> response == request)
  }

  /** The same table but for the contents of its cells. */
  predicate SameTable<T(==)>(t: Table<T>, t': Table<T>) {
    |t'.cells| == |t.cells| && t' == t.(cells := t'.cells)
  }

  /** No request changes a table's size, its callbacks, or anything in the two input tables. */
  lemma HandleKeepsTables(s: Store, buf: seq<bv8>, n: nat, broadcast: bool)
    requires |buf| == MAX_PDU_SIZE && n <= MAX_PDU_SIZE && ValidStore(s)
    ensures var s' := Handle(s, buf, n, broadcast).0;
      && ValidStore(s') && s'.inputs == s.inputs && s'.inputRegs == s.inputRegs
      && SameTable(s.coils, s'.coils) && SameTable(s.holding, s'.holding)
  {
    hide Unpack, Regs, Pack, PackRegs, Splice, Be16, CountByte;
  }

  /** The same table but for the answers of its callbacks. */
  predicate SameCells<T(==)>(t: Table<T>, t': Table<T>) {
    t' == t.(getAnswer := t'.getAnswer, setAnswer := t'.setAnswer)
  }

  /** What the user may do between two requests: let the callbacks answer otherwise, and put other
      contents into the two input tables. */
  predicate UserChange(s: Store, s': Store) {
    && ValidStore(s') && SameCells(s.coils, s'.coils) && SameCells(s.holding, s'.holding)
    && SameCells(s.inputs.(cells := s'.inputs.cells), s'.inputs) && |s'.inputs.cells| == |s.inputs.cells|
    && SameCells(s.inputRegs.(cells := s'.inputRegs.cells), s'.inputRegs)
    && |s'.inputRegs.cells| == |s.inputRegs.cells|
  }

  function AfterUser(s: Store, s': Store): (r: Store)
    requires ValidStore(s)
    ensures ValidStore(r)
  {
    if UserChange(s, s') then s' else s
  }
}
