/** The PDU engine of src/mb_slave.c: every handler works in the one buffer that holds the request
    and becomes the response. */
module Slave {
  import opened Errors
  import opened Pdu
  import opened Tables
  import Spec = SlaveSpec

  /** What a handler leaves behind: the response over the head of the request, or an exception
      code, with at most the count byte of a response begun. */
  predicate Renders(tx: int, pdu: seq<bv8>, was: seq<bv8>, r: Spec.Result<seq<bv8>>)
    requires |pdu| == |was| == MAX_PDU_SIZE
  {
    match r
    case Ok(response) => tx == |response| <= MAX_PDU_SIZE && pdu == response + was[|response|..]
    case Exception(e) => tx == e && pdu[0] == was[0] && pdu[2..] == was[2..]
  }

  /** The count byte of a bit PDU: quantity / 8 rounded up, in a uint8_t. */
  method CountBytes(quantity: uint16) returns (count: nat)
    ensures count < 256
    ensures quantity <= 2040 ==> count == ByteCount(quantity) && quantity <= 8 * count < quantity + 8
  {
    var whole := quantity / 8;
    assert 8 * whole <= quantity < 8 * whole + 8;
    count := Uint8(whole);
    if quantity != count * 8 {
      count := Uint8(count + 1);
    }
  }

  function Uint8(n: nat): (r: nat)
    ensures r < 256
    ensures n < 256 ==> r == n
  {
    n % 256
  }

  function Zeros(n: nat): seq<bool> {
    seq(n, _ => false)
  }

  lemma PaddedIsPacked(data: seq<bv8>, cells: seq<bool>)
    requires |data| == ByteCount(|cells|)
    requires Unpack(data, 8 * |data|) == cells + Zeros(8 * |data| - |cells|)
    ensures data == Pack(cells)
  {
    hide BitAt;
    forall i: nat | i < 8 * |data| ensures BitAt(data, i) == (i < |cells| && cells[i]) {
      assert Unpack(data, 8 * |data|)[i] == BitAt(data, i);
    }
    UnpackPrefix(data, |cells|, 8 * |data|);
    assert Unpack(data, |cells|) == cells;
    PackUnpack(data, |cells|);
  }

  /** A read response in the buffer, piece by piece. */
  lemma Assembled(pdu: seq<bv8>, was: seq<bv8>, count: nat)
    requires |pdu| == |was| == MAX_PDU_SIZE && 2 + count <= MAX_PDU_SIZE
    requires pdu[0] == was[0] && pdu[1] == CountByte(count) && pdu[2 + count..] == was[2 + count..]
    ensures Renders(2 + count, pdu, was, Spec.Ok([was[0], CountByte(count)] + pdu[2..2 + count]))
  {
    hide CountByte;
    var response := [was[0], CountByte(count)] + pdu[2..2 + count];
    assert |response| == 2 + count && pdu[2 + count..] == was[|response|..];
    assert pdu == pdu[..2] + pdu[2..2 + count] + pdu[2 + count..];
  }

  /** The loop at the end of mb_slave_read_bits: the bits after the last are cleared. */
  method ResetPad(pdu: array<bv8>, count: nat, quantity: nat, ghost cells: seq<bool>)
    requires 2 + count <= pdu.Length && quantity <= 8 * count && count == ByteCount(quantity)
    requires Unpack(pdu[2..2 + count], quantity) == cells
    modifies pdu
    ensures pdu[2..2 + count] == Pack(cells)
    ensures pdu[..2] == old(pdu[..2]) && pdu[2 + count..] == old(pdu[2 + count..])
  {
    hide Unpack, Pack, ByteCount;
    for ix := quantity to count * 8
      invariant Unpack(pdu[2..2 + count], ix) == cells + Zeros(ix - quantity)
      invariant pdu[..2] == old(pdu[..2]) && pdu[2 + count..] == old(pdu[2 + count..])
    {
      ghost var before := pdu[2..2 + count];
      BitSet(pdu, 2, count, ix, false);
      UnpackMore(before, pdu[2..2 + count], ix, false);
      assert Zeros(ix - quantity) + [false] == Zeros(ix + 1 - quantity);
    }
    PaddedIsPacked(pdu[2..2 + count], cells);
  }

  /** mb_slave_read_bits */
  method ReadBits(table: BitTable, pdu: array<bv8>) returns (tx: int)
    requires table.Valid() && pdu.Length == MAX_PDU_SIZE && pdu != table.bytes
    modifies pdu
    ensures Renders(tx, pdu[..], old(pdu[..]), Spec.ReadBits(table.View(), old(pdu[..])))
  {
    hide Be16, Unpack, Pack, ByteCount, CountByte;
    ghost var was := pdu[..];
    var address, quantity := Be16(pdu[..], 1), Be16(pdu[..], 3);
    var count := CountBytes(quantity);
    if quantity == 0 || quantity > 0x7D0 {
      return EILLEGAL_DATA_VALUE;
    }
    if address + quantity > table.size {
      return EILLEGAL_DATA_ADDRESS;
    }
    if !table.canGet {
      return EILLEGAL_FUNCTION;
    }
    pdu[1] := CountByte(count);
    var error := table.Get(address, pdu, 2, quantity);
    if error != 0 {
      return error;
    }
    ghost var cells := table.View().cells[address..address + quantity];
    ResetPad(pdu, count, quantity, cells);
    assert Spec.ReadCells(table.View(), address, quantity, Spec.MAX_READ_BITS) == Spec.Ok(cells);
    hide Renders, Spec.ReadCells;
    Assembled(pdu[..], was, count);
    CountByteValue(count);
    tx := 2 + pdu[1] as int;
  }

  /** mb_slave_read_registers */
  method ReadRegisters(table: RegTable, pdu: array<bv8>) returns (tx: int)
    requires table.Valid() && pdu.Length == MAX_PDU_SIZE
    modifies pdu
    ensures Renders(tx, pdu[..], old(pdu[..]), Spec.ReadRegisters(table.View(), old(pdu[..])))
  {
    hide Be16, PackRegs, CountByte;
    ghost var was := pdu[..];
    var address, quantity := Be16(pdu[..], 1), Be16(pdu[..], 3);
    if quantity == 0 || quantity > 0x7D {
      return EILLEGAL_DATA_VALUE;
    }
    if address + quantity > table.size {
      return EILLEGAL_DATA_ADDRESS;
    }
    if !table.canGet {
      return EILLEGAL_FUNCTION;
    }
    pdu[1] := CountByte(2 * quantity);
    var error := table.Get(address, pdu, 2, quantity);
    if error != 0 {
      return error;
    }
    hide Renders;
    Assembled(pdu[..], was, 2 * quantity);
    CountByteValue(2 * quantity);
    tx := 2 + pdu[1] as int;
  }

  lemma Echoed(pdu: seq<bv8>)
    requires |pdu| == MAX_PDU_SIZE
    ensures Renders(5, pdu, pdu, Spec.Ok(pdu[..5]))
  {
    assert pdu == pdu[..5] + pdu[5..];
  }

  lemma Excepted(pdu: seq<bv8>, e: int)
    requires |pdu| == MAX_PDU_SIZE
    ensures Renders(e, pdu, pdu, Spec.Exception(e))
  {
  }

  /** mb_slave_write_bit: the bit goes to the callback in a byte of its own. */
  method WriteBit(table: BitTable, pdu: array<bv8>) returns (tx: int)
    requires table.Valid() && pdu.Length == MAX_PDU_SIZE && pdu != table.bytes
    modifies table.bytes
    ensures table.Valid()
    ensures table.View() == Spec.WriteBit(old(table.View()), pdu[..]).0
    ensures Renders(tx, pdu[..], pdu[..], Spec.WriteBit(old(table.View()), pdu[..]).1)
  {
    hide Be16, Splice;
    var address, value := Be16(pdu[..], 1), Be16(pdu[..], 3);
    if value != 0 && value != 0xFF00 {
      return EILLEGAL_DATA_VALUE;
    }
    if address >= table.size {
      return EILLEGAL_DATA_ADDRESS;
    }
    if !table.canSet {
      return EILLEGAL_FUNCTION;
    }
    var bit := new bv8[1];
    bit[0] := if value == 0xFF00 then 1 else 0;
    OneBit(bit[0], value == 0xFF00);
    assert bit[0..1] == [bit[0]];
    var error := table.Set(address, bit, 0, 1);
    if error != 0 {
      return error;
    }
    tx := 5;
  }

  lemma OneBit(b: bv8, value: bool)
    requires b == if value then 1 else 0
    ensures Unpack([b], 1) == [value]
  {
    assert BitAt([b], 0) == value;
  }

  /** mb_slave_write_bits */
  method WriteBits(table: BitTable, pdu: array<bv8>, rxCount: nat) returns (tx: int)
    requires table.Valid() && pdu.Length == MAX_PDU_SIZE && pdu != table.bytes
    modifies table.bytes
    ensures table.Valid()
    ensures table.View() == Spec.WriteBits(old(table.View()), pdu[..], rxCount).0
    ensures Renders(tx, pdu[..], pdu[..], Spec.WriteBits(old(table.View()), pdu[..], rxCount).1)
  {
    hide Be16, Splice, Unpack, ByteCount;
    ghost var t, buf := table.View(), pdu[..];
    var address, quantity := Be16(pdu[..], 1), Be16(pdu[..], 3);
    var count := CountBytes(quantity);
    if quantity == 0 || quantity > 0x7B0 {
      return EILLEGAL_DATA_VALUE;
    }
    if count != pdu[5] as int {
      return EILLEGAL_DATA_VALUE;
    }
    if address + quantity > table.size {
      return EILLEGAL_DATA_ADDRESS;
    }
    if rxCount != 6 + pdu[5] as int {
      return EILLEGAL_DATA_VALUE;
    }
    if !table.canSet {
      return EILLEGAL_FUNCTION;
    }
    assert Spec.CheckWrite(t, Be16(buf, 1), Be16(buf, 3), Spec.MAX_WRITE_BITS,
      buf[5] as int == ByteCount(Be16(buf, 3)), rxCount == 6 + buf[5] as int) == 0;
    Spec.BitsPass(t, buf, rxCount);
    hide Spec.CheckWrite, Spec.WriteBits;
    assert pdu[6..6 + count] == buf[6..6 + count];
    var error := table.Set(address, pdu, 6, quantity);
    assert (table.View(), error) == Spec.SetCells(t, Be16(buf, 1), Unpack(buf[6..6 + buf[5] as int], Be16(buf, 3)));
    if error != 0 {
      return error;
    }
    Echoed(buf);
    tx := 5;
  }

  /** mb_slave_write_register: the callback reads the value out of the request. */
  method WriteRegister(table: RegTable, pdu: array<bv8>) returns (tx: int)
    requires table.Valid() && pdu.Length == MAX_PDU_SIZE
    modifies table.regs
    ensures table.Valid()
    ensures table.View() == Spec.WriteRegister(old(table.View()), pdu[..]).0
    ensures Renders(tx, pdu[..], pdu[..], Spec.WriteRegister(old(table.View()), pdu[..]).1)
  {
    hide Be16, Splice, Word;
    var address := Be16(pdu[..], 1);
    if address >= table.size {
      return EILLEGAL_DATA_ADDRESS;
    }
    if !table.canSet {
      return EILLEGAL_FUNCTION;
    }
    assert Regs(pdu[3..5], 1) == [Word(pdu[3], pdu[4])];
    var error := table.Set(address, pdu, 3, 1);
    if error != 0 {
      return error;
    }
    tx := 5;
  }

  /** The call of the set callback, in the terms of the specification. */
  method SetRegisters(table: RegTable, pdu: array<bv8>, from: nat, address: nat, quantity: nat) returns (error: int)
    requires table.Valid() && address + quantity <= table.size && from + 2 * quantity <= pdu.Length
    modifies table.regs
    ensures table.Valid() && |table.View().cells| == |old(table.View()).cells|
    ensures (table.View(), error) ==
      Spec.SetCells(old(table.View()), address, Regs(pdu[..][from..from + 2 * quantity], quantity))
  {
    hide Splice, Regs;
    assert pdu[..][from..from + 2 * quantity] == pdu[from..from + 2 * quantity];
    error := table.Set(address, pdu, from, quantity);
  }

  /** mb_slave_write_registers */
  method WriteRegisters(table: RegTable, pdu: array<bv8>, rxCount: nat) returns (tx: int)
    requires table.Valid() && pdu.Length == MAX_PDU_SIZE
    modifies table.regs
    ensures table.Valid()
    ensures table.View() == Spec.WriteRegisters(old(table.View()), pdu[..], rxCount).0
    ensures Renders(tx, pdu[..], pdu[..], Spec.WriteRegisters(old(table.View()), pdu[..], rxCount).1)
  {
    hide Be16, Splice, Regs;
    ghost var t, buf := table.View(), pdu[..];
    var address, quantity := Be16(pdu[..], 1), Be16(pdu[..], 3);
    if quantity == 0 || quantity > 0x7B {
      return EILLEGAL_DATA_VALUE;
    }
    if 2 * quantity != pdu[5] as int {
      return EILLEGAL_DATA_VALUE;
    }
    if address + quantity > table.size {
      return EILLEGAL_DATA_ADDRESS;
    }
    if rxCount != 6 + pdu[5] as int {
      return EILLEGAL_DATA_VALUE;
    }
    if !table.canSet {
      return EILLEGAL_FUNCTION;
    }
    assert Spec.CheckWrite(t, Be16(buf, 1), Be16(buf, 3), Spec.MAX_WRITE_REGS,
      buf[5] as int == 2 * Be16(buf, 3), rxCount == 6 + buf[5] as int) == 0;
    Spec.RegistersPass(t, buf, rxCount);
    hide Spec.CheckWrite, Spec.WriteRegisters, Renders;
    var error := SetRegisters(table, pdu, 6, address, quantity);
    Excepted(buf, error);
    if error != 0 {
      return error;
    }
    Echoed(buf);
    tx := 5;
  }

  /** mb_slave_read_write_registers: the response grows over the request's addresses and data. */
  method ReadWriteRegisters(table: RegTable, pdu: array<bv8>, rxCount: nat) returns (tx: int)
    requires table.Valid() && pdu.Length == MAX_PDU_SIZE
    modifies table.regs, pdu
    ensures table.Valid()
    ensures table.View() == Spec.ReadWriteRegisters(old(table.View()), old(pdu[..]), rxCount).0
    ensures Renders(tx, pdu[..], old(pdu[..]), Spec.ReadWriteRegisters(old(table.View()), old(pdu[..]), rxCount).1)
  {
    hide Be16, Splice, Regs, PackRegs;
    ghost var t, was := table.View(), pdu[..];
    var writeAddress, writeQuantity := Be16(pdu[..], 5), Be16(pdu[..], 7);
    if writeQuantity == 0 || writeQuantity > 0x79 {
      return EILLEGAL_DATA_VALUE;
    }
    if 2 * writeQuantity != pdu[9] as int {
      return EILLEGAL_DATA_VALUE;
    }
    if writeAddress + writeQuantity > table.size {
      return EILLEGAL_DATA_ADDRESS;
    }
    if rxCount != 10 + pdu[9] as int {
      return EILLEGAL_DATA_VALUE;
    }
    if !table.canSet {
      return EILLEGAL_FUNCTION;
    }
    var readAddress, readQuantity := Be16(pdu[..], 1), Be16(pdu[..], 3);
    if readQuantity == 0 || readQuantity > 0x7D {
      return EILLEGAL_DATA_VALUE;
    }
    if readAddress + readQuantity > table.size {
      return EILLEGAL_DATA_ADDRESS;
    }
    if !table.canGet {
      return EILLEGAL_FUNCTION;
    }
    assert Spec.CheckWrite(t, Be16(was, 5), Be16(was, 7), Spec.MAX_READ_WRITE_REGS,
      was[9] as int == 2 * Be16(was, 7), rxCount == 10 + was[9] as int) == 0;
    assert Spec.CheckRead(t, Be16(was, 1), Be16(was, 3), Spec.MAX_READ_REGS) == 0;
    tx := WriteThenRead(table, pdu, writeAddress, writeQuantity, readAddress, readQuantity);
  }

  /** The second half of mb_slave_read_write_registers, after its checks. */
  method WriteThenRead(table: RegTable, pdu: array<bv8>, writeAddress: nat, writeQuantity: nat,
        readAddress: nat, readQuantity: nat)
    returns (tx: int)
    requires table.Valid() && table.canGet && pdu.Length == MAX_PDU_SIZE
    requires writeAddress + writeQuantity <= table.size && writeQuantity <= 0x79
    requires readAddress + readQuantity <= table.size && 0 < readQuantity <= 0x7D
    modifies table.regs, pdu
    ensures table.Valid()
    ensures var (t, answer) := Spec.SetCells(old(table.View()), writeAddress,
        Regs(old(pdu[..])[10..10 + 2 * writeQuantity], writeQuantity));
      && table.View() == t
      && Renders(tx, pdu[..], old(pdu[..]),
           if answer != 0 then Spec.Exception(answer)
           else Spec.RegistersRead(old(pdu[0]), Spec.ReadCells(t, readAddress, readQuantity, Spec.MAX_READ_REGS)))
  {
    hide Splice, Regs, PackRegs, CountByte;
    ghost var was := pdu[..];
    assert pdu[10..10 + 2 * writeQuantity] == was[10..10 + 2 * writeQuantity];
    var error := table.Set(writeAddress, pdu, 10, writeQuantity);
    if error != 0 {
      return error;
    }
    pdu[1] := CountByte(2 * readQuantity);
    error := table.Get(readAddress, pdu, 2, readQuantity);
    if error != 0 {
      return error;
    }
    hide Renders;
    Assembled(pdu[..], was, 2 * readQuantity);
    CountByteValue(2 * readQuantity);
    tx := 2 + pdu[1] as int;
  }

  /** mb_slave_diagnostics */
  method Diagnostics(pdu: array<bv8>, rxCount: nat) returns (tx: int)
    requires pdu.Length == MAX_PDU_SIZE && rxCount <= MAX_PDU_SIZE
    ensures Renders(tx, pdu[..], pdu[..], Spec.Diagnostics(pdu[..], rxCount))
  {
    hide Be16;
    if Be16(pdu[..], 1) == 0 {
      return rxCount;
    }
    tx := EILLEGAL_FUNCTION;
  }

  lemma ExceptionInPlace(pdu: seq<bv8>, was: seq<bv8>, e: int)
    requires |pdu| == |was| == MAX_PDU_SIZE && -4 <= e <= -1
    requires pdu[0] == was[0] | 0x80 && pdu[1] == CountByte(-e) && pdu[2..] == was[2..]
    ensures |Spec.ExceptionPdu(was[0], e)| == 2 && pdu == Spec.ExceptionPdu(was[0], e) + was[2..]
  {
    hide CountByte;
    assert pdu == pdu[..2] + pdu[2..];
  }

  /** What the user does between two requests: the answers the callbacks (get, set) give from now on,
      and the memory behind the two input tables. */
  datatype Amendment = Amendment(coils: (int, int), inputs: (int, int), inputRegs: (int, int), holding: (int, int),
    inputBytes: seq<bv8>, inputWords: seq<bv16>)

  predicate Answering(answers: (int, int)) {
    IsAnswer(answers.0) && IsAnswer(answers.1)
  }

  /** The tables are as the change has them. */
  predicate Made(c: Amendment, s: Spec.Store) {
    && (s.coils.getAnswer, s.coils.setAnswer) == c.coils && (s.inputs.getAnswer, s.inputs.setAnswer) == c.inputs
    && (s.inputRegs.getAnswer, s.inputRegs.setAnswer) == c.inputRegs
    && (s.holding.getAnswer, s.holding.setAnswer) == c.holding
    && |s.inputs.cells| <= 8 * |c.inputBytes| && s.inputs.cells == Unpack(c.inputBytes, |s.inputs.cells|)
    && s.inputRegs.cells <= c.inputWords
  }

  class Slave {
    const coils: BitTable
    const inputs: BitTable
    const inputRegs: RegTable
    const holding: RegTable

    constructor (coils: BitTable, inputs: BitTable, inputRegs: RegTable, holding: RegTable)
      requires coils.Valid() && inputs.Valid() && inputRegs.Valid() && holding.Valid()
      requires coils.bytes != inputs.bytes && inputRegs.regs != holding.regs
      ensures Valid() && View() == Spec.Store(coils.View(), inputs.View(), inputRegs.View(), holding.View())
      ensures this.coils == coils && this.inputs == inputs && this.inputRegs == inputRegs && this.holding == holding
    {
      this.coils, this.inputs, this.inputRegs, this.holding := coils, inputs, inputRegs, holding;
    }

    /** The tables are valid and share no memory. */
    ghost predicate Valid()
      reads coils, inputs, inputRegs, holding
    {
      && coils.Valid() && inputs.Valid() && inputRegs.Valid() && holding.Valid()
      && coils.bytes != inputs.bytes && inputRegs.regs != holding.regs
    }

    ghost function View(): Spec.Store
      requires Valid()
      reads coils, inputs, inputRegs, holding, coils.bytes, inputs.bytes, inputRegs.regs, holding.regs
    {
      Spec.Store(coils.View(), inputs.View(), inputRegs.View(), holding.View())
    }

    lemma ViewIsValid()
      requires Valid()
      ensures Spec.ValidStore(View())
    {
      hide Unpack;
    }

    predicate Fits(c: Amendment) {
      && Answering(c.coils) && Answering(c.inputs) && Answering(c.inputRegs) && Answering(c.holding)
      && |c.inputBytes| == inputs.bytes.Length && |c.inputWords| == inputRegs.regs.Length
    }

    /** The user's turn. */
    method Amend(c: Amendment)
      requires Valid() && Fits(c)
      modifies coils, inputs, inputRegs, holding, inputs.bytes, inputRegs.regs
      ensures Valid() && Spec.UserChange(old(View()), View())
      ensures Made(c, View())
    {
      hide Unpack;
      coils.Answer(c.coils.0, c.coils.1);
      inputs.Answer(c.inputs.0, c.inputs.1);
      inputRegs.Answer(c.inputRegs.0, c.inputRegs.1);
      holding.Answer(c.holding.0, c.holding.1);
      inputs.Fill(c.inputBytes);
      inputRegs.Fill(c.inputWords);
      ViewIsValid();
    }

    /** The switch of mb_slave_handle_request. */
    method Dispatch(pdu: array<bv8>, rxCount: nat, broadcast: bool) returns (tx: int)
      requires Valid() && pdu.Length == MAX_PDU_SIZE && pdu != coils.bytes && pdu != inputs.bytes
      requires rxCount <= MAX_PDU_SIZE
      modifies pdu, coils.bytes, holding.regs
      ensures Valid()
      ensures View() == Spec.Answer(old(View()), old(pdu[..]), rxCount, broadcast).0
      ensures Renders(tx, pdu[..], old(pdu[..]), Spec.Answer(old(View()), old(pdu[..]), rxCount, broadcast).1)
    {
      hide Spec.ReadBits, Spec.ReadRegisters, Spec.WriteBit, Spec.WriteRegister, Spec.WriteBits;
      hide Spec.WriteRegisters, Spec.ReadWriteRegisters, Spec.Diagnostics, Unpack;
      tx := 0;
      var f := pdu[0];
      if f == Spec.READ_COILS {
        if !broadcast { tx := ReadBits(coils, pdu); }
      } else if f == Spec.READ_INPUTS {
        if !broadcast { tx := ReadBits(inputs, pdu); }
      } else if f == Spec.READ_INPUT_REGISTERS {
        if !broadcast { tx := ReadRegisters(inputRegs, pdu); }
      } else if f == Spec.READ_HOLDING_REGISTERS {
        if !broadcast { tx := ReadRegisters(holding, pdu); }
      } else if f == Spec.WRITE_COIL {
        tx := WriteBit(coils, pdu);
      } else if f == Spec.WRITE_HOLDING_REGISTER {
        tx := WriteRegister(holding, pdu);
      } else if f == Spec.WRITE_COILS {
        tx := WriteBits(coils, pdu, rxCount);
      } else if f == Spec.WRITE_HOLDING_REGISTERS {
        tx := WriteRegisters(holding, pdu, rxCount);
      } else if f == Spec.READ_WRITE_HOLDING_REGISTERS {
        tx := ReadWriteRegisters(holding, pdu, rxCount);
      } else if f == Spec.DIAGNOSTICS {
        tx := Diagnostics(pdu, rxCount);
      } else {
        tx := EILLEGAL_FUNCTION;
      }
    }

    /** The switch and the exception response after it. */
    method Execute(pdu: array<bv8>, rxCount: nat, broadcast: bool) returns (tx: nat)
      requires Valid() && pdu.Length == MAX_PDU_SIZE && pdu != coils.bytes && pdu != inputs.bytes
      requires rxCount <= MAX_PDU_SIZE
      modifies pdu, coils.bytes, holding.regs
      ensures Valid() && Spec.ValidStore(old(View()))
      ensures var (s, response) := Spec.Handle(old(View()), old(pdu[..]), rxCount, broadcast);
        && View() == s
        && tx == |response| <= MAX_PDU_SIZE
        && pdu[..] == response + old(pdu[..])[|response|..]
    {
      hide Spec.Answer, Spec.ValidStore, CountByte, Spec.ExceptionPdu;
      ViewIsValid();
      ghost var s, was := View(), pdu[..];
      Spec.ExceptionsAreModbus(s, was, rxCount, broadcast);
      var count := Dispatch(pdu, rxCount, broadcast);
      ghost var code := count;
      if count < 0 {
        pdu[0] := pdu[0] | 0x80;
        pdu[1] := CountByte(-count);
        count := 2;
        ExceptionInPlace(pdu[..], was, code);
      }
      tx := count;
    }
  }
}
