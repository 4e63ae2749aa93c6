/** The master client of src/mbus.c, joined to a slave by a bus that loses nothing or by a TCP
    connection. */
module Master {
  import opened Errors
  import opened Pdu
  import opened Tables
  import opened Slave
  import opened SlaveService
  import opened SlaveProperties
  import opened PlainMap
  import opened TcpExchange
  import opened TcpSlave
  import opened TcpTransport
  import Rtu = RtuExchange
  import Spec = SlaveSpec

  /** A bus that loses nothing, with one slave of unit own on it: what is sent is handled at once, and
      the response waits to be received. */
  class Cable {
    const slave: Slave
    const link: Link
    const txn: Transaction
    const own: bv8

    constructor (slave: Slave, txn: Transaction, own: bv8)
      requires slave.Valid() && own != 0 && txn.data.Length == MAX_PDU_SIZE
      requires txn.data != slave.coils.bytes && txn.data != slave.inputs.bytes
      ensures Idle() && this.slave == slave && this.txn == txn && this.own == own && fresh(link)
    {
      this.slave, this.txn, this.own := slave, txn, own;
      link := new Link();
    }

    ghost predicate Joined()
      reads slave.coils, slave.inputs, slave.inputRegs, slave.holding
    {
      slave.Valid() && Wired()
    }

    predicate Wired() {
      && own != 0 && txn.data.Length == MAX_PDU_SIZE
      && txn.data != slave.coils.bytes && txn.data != slave.inputs.bytes
    }

    ghost predicate Idle()
      reads link, slave.coils, slave.inputs, slave.inputRegs, slave.holding
    {
      slave.Valid() && Still()
    }

    /** Nothing is under way. */
    ghost predicate Still()
      reads link
    {
      Wired() && link.inbox == [] && link.newer == [] && link.outbox == []
    }

    /** What a PDU sent to unit does and leaves to be received. */
    ghost predicate Handled(unit: bv8, id: uint16, s: Spec.Store, buf: seq<bv8>, size: nat,
          s': Spec.Store, out: seq<Message>)
    {
      if unit == own || unit == 0 then
        && |buf| == MAX_PDU_SIZE && size <= MAX_PDU_SIZE && Spec.ValidStore(s)
        && s' == Spec.Handle(s, buf, size, unit == 0).0
        && out == if unit == 0 then [] else [Message(id, unit, Spec.Handle(s, buf, size, false).1)]
      else s' == s && out == []
    }

    method Tx(id: uint16, unit: bv8, data: array<bv8>, size: nat) returns (ghost buf: seq<bv8>)
      requires Idle() && 0 < size <= MAX_PDU_SIZE == data.Length && data != txn.data
      modifies link, txn, txn.data, slave.coils.bytes, slave.holding.regs
      ensures Joined() && link.inbox == [] && link.newer == []
      ensures |buf| == MAX_PDU_SIZE && buf[..size] == old(data[..size])
      ensures Handled(unit, id, old(slave.View()), buf, size, slave.View(), link.outbox)
    {
      hide Spec.Handle, Spec.ValidStore;
      buf := data[..size] + txn.data[size..];
      if unit == own || unit == 0 {
        link.inbox := [Arrival(data[..size], size, id, unit, unit == 0)];
        txn.unit := own;
        HandleRequest(slave, link, txn);
      }
    }

    method Rx(data: array<bv8>) returns (count: int)
      requires data.Length == MAX_PDU_SIZE
      requires link.outbox != [] ==> |link.outbox[0].pdu| <= MAX_PDU_SIZE
      modifies link`outbox, data
      ensures if old(link.outbox) == [] then count == ETIMEOUT && link.outbox == [] && data[..] == old(data[..])
              else var pdu := old(link.outbox)[0].pdu;
                   && count == |pdu| && link.outbox == old(link.outbox)[1..]
                   && data[..] == pdu + old(data[..])[|pdu|..]
    {
      if link.outbox == [] {
        return ETIMEOUT;
      }
      var pdu := link.outbox[0].pdu;
      link.outbox := link.outbox[1..];
      forall k | 0 <= k < |pdu| {
        data[k] := pdu[k];
      }
      assert data[..] == pdu + old(data[..])[|pdu|..];
      count := |pdu|;
    }

    method Exchange(id: uint16, to: int, unit: bv8, data: array<bv8>, size: nat)
      returns (rxCount: int, ghost buf: seq<bv8>)
      requires Idle() && 0 < size <= MAX_PDU_SIZE == data.Length
      requires data != txn.data && data != slave.coils.bytes && data != slave.inputs.bytes
      requires IsUnitOf(unit, to)
      modifies link, txn, txn.data, data, slave.coils.bytes, slave.holding.regs
      ensures Idle()
      ensures |buf| == MAX_PDU_SIZE && buf[..size] == old(data[..size])
      ensures Exchanged(OnBus(own, MAX_PDU_SIZE), to, buf, size, old(slave.View()), slave.View(),
        old(data[..]), data[..], rxCount)
      ensures rxCount >= 0 ==> data[rxCount..] == old(data[rxCount..])
    {
      hide Spec.Handle, Spec.ValidStore, Spec.WellFormed, Hears, ToAll, IsUnitOf;
      slave.ViewIsValid();
      ghost var s := slave.View();
      SameUnit(unit, own, MAX_PDU_SIZE, to);
      buf := Tx(id, unit, data, size);
      Spec.ResponseShape(s, buf, size, false);
      rxCount := 0;
      if to != 0 {
        rxCount := Rx(data);
      }
    }
  }

  /** The uint8_t a slave number is kept in. */
  function UnitOf(slave: int): bv8 {
    CountByte(slave % 256)
  }

  lemma UnitOfValue(slave: int)
    ensures UnitOf(slave) as int == slave % 256
  {
    CountByteValue(slave % 256);
  }

  predicate IsUnitOf(unit: bv8, slave: int) {
    unit as int == slave % 256
  }

  lemma SameUnit(unit: bv8, own: bv8, most: nat, slave: int)
    requires IsUnitOf(unit, slave)
    ensures unit == own <==> Hears(OnBus(own, most), slave)
    ensures unit == 0 <==> ToAll(OnBus(own, most), slave)
    ensures slave == 0 ==> unit == 0
  {
  }

  /** What a request sent to a slave does to its tables s, and what the master's buffer and the count
      are afterwards: the response, or nothing, which is a timeout unless nobody waits. */
  ghost predicate Exchanged(reach: Reach, slave: int, buf: seq<bv8>, size: nat, s: Spec.Store, s': Spec.Store,
        before: seq<bv8>, after: seq<bv8>, rxCount: int)
  {
    && |buf| == |before| == |after| == MAX_PDU_SIZE && 0 < size <= MAX_PDU_SIZE && Spec.ValidStore(s)
    && if Hears(reach, slave) then
         var (t, r) := Spec.Handle(s, buf, size, false);
         s' == t && rxCount == |r| <= MAX_PDU_SIZE && r <= after
       else
         && s' == (if ToAll(reach, slave) then Spec.Handle(s, buf, size, true).0 else s)
         && rxCount == (if slave == 0 then 0 else ETIMEOUT) && after == before
  }

  // ---- requests and responses ---------------------------------------------------------------

  /** mb_is_exception and mb_exception */
  predicate IsException(f: bv8) {
    f & 0x80 != 0
  }

  function ErrorOf(code: bv8): int {
    match code
    case 1 => EILLEGAL_FUNCTION
    case 2 => EILLEGAL_DATA_ADDRESS
    case 3 => EILLEGAL_DATA_VALUE
    case 4 => ESLAVE_DEVICE_FAILURE
    case _ => EUNKNOWN_EXCEPTION
  }

  /** The error the slave had is the one the master returns. */
  lemma ErrorComesBack(f: bv8, code: bv8, e: int)
    requires code as int == -e && -4 <= e <= -1
    ensures IsException(f | 0x80) && ErrorOf(code) == e
  {
    if e == -1 {
      assert code == 1;
    } else if e == -2 {
      assert code == 2;
    } else if e == -3 {
      assert code == 3;
    } else {
      assert code == 4;
    }
  }

  /** The exceptions of section 7 by number, and any other code. */
  lemma ErrorsByNumber(code: bv8, f: bv8)
    ensures ErrorOf(code) == if 1 <= code as int <= 4 then -(code as int) else -105
    ensures IsException(f) <==> f as int >= 128
  {
    match code
    case 1 => case 2 => case 3 => case 4 => case 0 => case _ => AboveFour(code);
  }

  lemma AboveFour(code: bv8)
    requires code > 4
    ensures code as int > 4
  {
  }

  lemma SameHead(a: seq<bv8>, b: seq<bv8>)
    requires |a| >= 5 && |b| >= 5 && a[..5] == b[..5]
    ensures a[0] == b[0] && Be16(a, 1) == Be16(b, 1) && Be16(a, 3) == Be16(b, 3)
  {
    assert forall k :: 0 <= k < 5 ==> a[k] == a[..5][k] && b[k] == b[..5][k];
  }

  function ReadFunction(area: Area): bv8 {
    match area
    case Coils => Spec.READ_COILS
    case Inputs => Spec.READ_INPUTS
    case InputRegs => Spec.READ_INPUT_REGISTERS
    case Holding => Spec.READ_HOLDING_REGISTERS
  }

  /** The cells in the data of a response to a read. */
  function ResponseCells(r: seq<bv8>, area: Area, n: nat): seq<Cell>
    requires 2 + HostSize(area, n) <= |r|
  {
    if OfBits(area) then BitCells(BitsIn(r, 2, n)) else RegCells(WordsIn(r, 2, n))
  }

  /** The response to a read is what Fetch says. */
  predicate Reports(r: seq<bv8>, f: bv8, area: Area, n: nat, o: Outcome) {
    match o
    case Values(cells) =>
      && |r| == 2 + HostSize(area, n) && r[0] == f && r[1] as int == HostSize(area, n)
      && ResponseCells(r, area, n) == cells
    case Failed(e) => -4 <= e <= -1 && |r| == 2 && r[0] == f | 0x80 && r[1] as int == -e
    case Done => false
  }

  lemma ReadAnswered(s: Spec.Store, buf: seq<bv8>, area: Area, index: nat, n: nat)
    requires |buf| == MAX_PDU_SIZE && Spec.ValidStore(s) && n <= ReadLimit(area)
    requires buf[0] == ReadFunction(area) && Be16(buf, 1) == index && Be16(buf, 3) == n
    ensures Spec.Handle(s, buf, 5, false).0 == s
    ensures Reports(Spec.Handle(s, buf, 5, false).1, buf[0], area, n, Fetch(Abstract(s), area, index, n))
  {
    hide Spec.Handle, Spec.ValidStore, Be16, Has, Word, CellsOf;
    PresentIsInside(s, area, index, n);
    var r := Spec.Handle(s, buf, 5, false).1;
    match area {
      case Coils =>
        BitsAreRead(s, buf, 5, s.coils);
        if Spec.ReadRefusal(s.coils, index, n, 2000) == 0 { BitsReported(s, r, area, s.coils, index, n); }
      case Inputs =>
        BitsAreRead(s, buf, 5, s.inputs);
        if Spec.ReadRefusal(s.inputs, index, n, 2000) == 0 { BitsReported(s, r, area, s.inputs, index, n); }
      case InputRegs =>
        RegistersAreRead(s, buf, 5, s.inputRegs);
        if Spec.ReadRefusal(s.inputRegs, index, n, 125) == 0 { RegistersReported(s, r, area, s.inputRegs, index, n); }
      case Holding =>
        RegistersAreRead(s, buf, 5, s.holding);
        if Spec.ReadRefusal(s.holding, index, n, 125) == 0 { RegistersReported(s, r, area, s.holding, index, n); }
    }
  }

  /** A read sent to all is not done. */
  lemma SilentRead(s: Spec.Store, buf: seq<bv8>, area: Area)
    requires |buf| == MAX_PDU_SIZE && Spec.ValidStore(s) && buf[0] == ReadFunction(area)
    ensures Spec.Handle(s, buf, 5, true).0 == s
  {
    hide Spec.ReadCells, Spec.ValidStore;
  }

  lemma BitsReported(s: Spec.Store, r: seq<bv8>, area: Area, t: Table<bool>, index: nat, n: nat)
    requires (area.Coils? && t == s.coils) || (area.Inputs? && t == s.inputs)
    requires index + n <= |t.cells|
    requires |r| >= 2 && n <= 8 * (|r| - 2) < n + 8
    requires forall i :: 0 <= i < 8 * (|r| - 2) ==> BitAt(r[2..], i) == (i < n && t.cells[index + i])
    ensures |r| == 2 + HostSize(area, n)
    ensures Present(CellsOf(s), area, index, n) && ResponseCells(r, area, n) == Lookup(CellsOf(s), area, index, n)
  {
    hide Has;
    assert BitsIn(r, 2, n) == t.cells[index..index + n] by {
      forall i | 0 <= i < n ensures BitsIn(r, 2, n)[i] == t.cells[index + i] {
        assert BitAt(r[2..], i) == Has(r[2 + i / 8], i % 8);
      }
    }
    BitsFound(s, area, t, index, n);
  }

  lemma BitsFound(s: Spec.Store, area: Area, t: Table<bool>, index: nat, n: nat)
    requires (area.Coils? && t == s.coils) || (area.Inputs? && t == s.inputs)
    requires index + n <= |t.cells|
    ensures Present(CellsOf(s), area, index, n)
    ensures BitCells(t.cells[index..index + n]) == Lookup(CellsOf(s), area, index, n)
  {
  }

  lemma RegistersReported(s: Spec.Store, r: seq<bv8>, area: Area, t: Table<bv16>, index: nat, n: nat)
    requires (area.InputRegs? && t == s.inputRegs) || (area.Holding? && t == s.holding)
    requires index + n <= |t.cells|
    requires |r| == 2 + 2 * n && WordsIn(r, 2, n) == t.cells[index..index + n]
    ensures |r| == 2 + HostSize(area, n)
    ensures Present(CellsOf(s), area, index, n) && ResponseCells(r, area, n) == Lookup(CellsOf(s), area, index, n)
  {
    hide Word, WordsIn, CellsOf, Lookup;
    RegistersFound(s, area, t, index, n);
  }

  lemma RegistersFound(s: Spec.Store, area: Area, t: Table<bv16>, index: nat, n: nat)
    requires (area.InputRegs? && t == s.inputRegs) || (area.Holding? && t == s.holding)
    requires index + n <= |t.cells|
    ensures Present(CellsOf(s), area, index, n)
    ensures RegCells(t.cells[index..index + n]) == Lookup(CellsOf(s), area, index, n)
  {
  }

  function WriteFunction(area: Area): bv8
    requires area.Coils? || area.Holding?
  {
    if area.Coils? then Spec.WRITE_COILS else Spec.WRITE_HOLDING_REGISTERS
  }

  function WriteSingleFunction(area: Area): bv8
    requires area.Coils? || area.Holding?
  {
    if area.Coils? then Spec.WRITE_COIL else Spec.WRITE_HOLDING_REGISTER
  }

  /** The cells in the data of a write request. */
  function RequestCells(buf: seq<bv8>, area: Area, n: nat): seq<Cell>
    requires 6 + HostSize(area, n) <= |buf|
  {
    if OfBits(area) then BitCells(BitsIn(buf, 6, n)) else RegCells(WordsIn(buf, 6, n))
  }

  /** The response to a write is what Change says. */
  predicate Acknowledges(r: seq<bv8>, f: bv8, o: Outcome) {
    match o
    case Done => |r| == 5 && r[0] == f
    case Failed(e) => -4 <= e <= -1 && |r| == 2 && r[0] == f | 0x80 && r[1] as int == -e
    case Values(_) => false
  }

  lemma ReadConcluded(r: seq<bv8>, area: Area, n: nat, o: Outcome)
    requires Reports(r, ReadFunction(area), area, n, o)
    ensures if o.Values? then !IsException(r[0]) else IsException(r[0]) && ErrorOf(r[1]) == o.error
  {
    hide ErrorOf;
    if o.Failed? {
      ErrorComesBack(ReadFunction(area), r[1], o.error);
    }
  }

  /** What the buffer holds once the response's data is in it. */
  lemma BitsUnloaded(data: seq<bv8>, pdu: seq<bv8>, area: Area, n: nat)
    requires OfBits(area) && ByteCount(n) <= |data| && 2 + ByteCount(n) <= |pdu|
    requires data[..ByteCount(n)] == pdu[2..2 + ByteCount(n)]
    ensures CellsIn(data, area, n) == ResponseCells(pdu, area, n)
  {
    hide Has;
    forall i | 0 <= i < n ensures data[i / 8] == pdu[2 + i / 8] {
      assert data[i / 8] == data[..ByteCount(n)][i / 8];
    }
  }

  lemma RegistersUnloaded(data: seq<bv8>, pdu: seq<bv8>, area: Area, n: nat)
    requires !OfBits(area) && 2 * n <= |data| && 2 + 2 * n <= |pdu|
    requires forall k :: 0 <= k < n ==> data[2 * k + 1] == pdu[2 + 2 * k] && data[2 * k] == pdu[2 + 2 * k + 1]
    ensures CellsIn(data, area, n) == ResponseCells(pdu, area, n)
  {
    hide Word;
  }

  /** What a write request carries once the caller's buffer is in it. */
  lemma BitsLoaded(data: seq<bv8>, pdu: seq<bv8>, n: nat)
    requires ByteCount(n) <= |data| && 6 + ByteCount(n) <= |pdu|
    requires data[..ByteCount(n)] == pdu[6..][..ByteCount(n)]
    ensures RequestCells(pdu, Coils, n) == CellsIn(data, Coils, n)
  {
    hide Has;
    forall i | 0 <= i < n ensures data[i / 8] == pdu[6 + i / 8] {
      assert data[i / 8] == data[..ByteCount(n)][i / 8] == pdu[6..][..ByteCount(n)][i / 8];
    }
  }

  lemma RegistersLoaded(data: seq<bv8>, pdu: seq<bv8>, n: nat)
    requires 2 * n <= |data| && 6 + 2 * n <= |pdu|
    requires forall k :: 0 <= k < n ==> pdu[6 + 2 * k + 1] == data[2 * k] && pdu[6 + 2 * k] == data[2 * k + 1]
    ensures RequestCells(pdu, Holding, n) == CellsIn(data, Holding, n)
  {
    hide Word;
  }

  lemma ResponseCellsPrefix(a: seq<bv8>, b: seq<bv8>, area: Area, n: nat)
    requires 2 + HostSize(area, n) <= |a| && a <= b
    ensures ResponseCells(a, area, n) == ResponseCells(b, area, n)
  {
    hide Word, Has;
  }

  lemma WriteAnswered(s: Spec.Store, buf: seq<bv8>, area: Area, index: nat, n: nat)
    requires |buf| == MAX_PDU_SIZE && Spec.ValidStore(s) && (area.Coils? || area.Holding?) && n <= WriteLimit(area)
    requires buf[0] == WriteFunction(area) && Be16(buf, 1) == index && Be16(buf, 3) == n
    requires buf[5] as int == HostSize(area, n)
    ensures var (s', r) := Spec.Handle(s, buf, 6 + HostSize(area, n), false);
      var (m, o) := Change(Abstract(s), area, index, RequestCells(buf, area, n));
      Abstract(s') == m && Acknowledges(r, buf[0], o)
  {
    hide Spec.Handle, Spec.ValidStore, Be16, BitsIn, WordsIn, BitCells, RegCells, Change;
    if area.Coils? {
      CoilsAnswered(s, buf, index, n, 6 + HostSize(area, n));
    } else {
      RegistersAnswered(s, buf, index, n, 6 + HostSize(area, n));
    }
  }

  lemma CoilsAnswered(s: Spec.Store, buf: seq<bv8>, index: nat, n: nat, size: nat)
    requires |buf| == MAX_PDU_SIZE && Spec.ValidStore(s) && n <= 1968 && size <= MAX_PDU_SIZE
    requires buf[0] == Spec.WRITE_COILS && Be16(buf, 1) == index && Be16(buf, 3) == n
    requires buf[5] as int == ByteCount(n) && size == 6 + ByteCount(n)
    ensures var (s', r) := Spec.Handle(s, buf, size, false);
      var (m, o) := Change(Abstract(s), Coils, index, BitCells(BitsIn(buf, 6, n)));
      Abstract(s') == m && Acknowledges(r, buf[0], o)
  {
    hide ByteCount, Spec.Handle, Spec.ValidStore, Be16, BitsIn, BitCells, CellsOf, Update;
    PresentIsInside(s, Coils, index, n);
    CoilsAreWritten(s, buf, size);
    if Spec.WriteRefusal(s.coils, index, n, 1968, true, true) == 0 {
      CoilsChanged(s, Spec.Handle(s, buf, size, false).0, index, BitsIn(buf, 6, n));
    }
  }

  lemma RegistersAnswered(s: Spec.Store, buf: seq<bv8>, index: nat, n: nat, size: nat)
    requires |buf| == MAX_PDU_SIZE && Spec.ValidStore(s) && n <= 123 && size <= MAX_PDU_SIZE
    requires buf[0] == Spec.WRITE_HOLDING_REGISTERS && Be16(buf, 1) == index && Be16(buf, 3) == n
    requires buf[5] as int == 2 * n && size == 6 + 2 * n
    ensures var (s', r) := Spec.Handle(s, buf, size, false);
      var (m, o) := Change(Abstract(s), Holding, index, RegCells(WordsIn(buf, 6, n)));
      Abstract(s') == m && Acknowledges(r, buf[0], o)
  {
    hide Spec.Handle, Spec.ValidStore, Be16, WordsIn, RegCells, CellsOf, Update;
    PresentIsInside(s, Holding, index, n);
    RegistersAreWritten(s, buf, size);
    if Spec.WriteRefusal(s.holding, index, n, 123, true, true) == 0 {
      HoldingChanged(s, Spec.Handle(s, buf, size, false).0, index, WordsIn(buf, 6, n));
    }
  }

  lemma WriteSingleAnswered(s: Spec.Store, buf: seq<bv8>, area: Area, index: nat)
    requires |buf| == MAX_PDU_SIZE && Spec.ValidStore(s) && (area.Coils? || area.Holding?)
    requires buf[0] == WriteSingleFunction(area) && Be16(buf, 1) == index
    requires area.Coils? ==> Be16(buf, 3) == 0 || Be16(buf, 3) == 0xFF00
    ensures var (s', r) := Spec.Handle(s, buf, 5, false);
      var cell := if area.Coils? then Bit(Be16(buf, 3) == 0xFF00) else Reg(Word(buf[3], buf[4]));
      var (m, o) := Change(Abstract(s), area, index, [cell]);
      Abstract(s') == m && Acknowledges(r, buf[0], o)
  {
    hide Spec.Handle, Spec.ValidStore, Be16, Word, CellsOf, Update;
    PresentIsInside(s, area, index, 1);
    var s' := Spec.Handle(s, buf, 5, false).0;
    if area.Coils? {
      CoilIsWritten(s, buf, 5);
      var bits := [Be16(buf, 3) == 0xFF00];
      assert BitCells(bits) == [Bit(bits[0])];
      if Spec.WriteRefusal(s.coils, index, 1, 1, true, true) == 0 { CoilsChanged(s, s', index, bits); }
    } else {
      RegisterIsWritten(s, buf, 5);
      var words := [Word(buf[3], buf[4])];
      assert RegCells(words) == [Reg(words[0])];
      if Spec.WriteRefusal(s.holding, index, 1, 1, true, true) == 0 { HoldingChanged(s, s', index, words); }
    }
  }

  /** A write does the same whether it is broadcast or not. */
  lemma WritesIgnoreBroadcast(s: Spec.Store, buf: seq<bv8>, n: nat, area: Area)
    requires |buf| == MAX_PDU_SIZE && n <= MAX_PDU_SIZE && Spec.ValidStore(s) && (area.Coils? || area.Holding?)
    requires buf[0] == WriteFunction(area) || buf[0] == WriteSingleFunction(area)
    ensures Spec.Handle(s, buf, n, true) == Spec.Handle(s, buf, n, false)
  {
    hide Spec.ValidStore, Spec.WriteBit, Spec.WriteBits, Spec.WriteRegister, Spec.WriteRegisters;
  }

  lemma Concluded(r: seq<bv8>, f: bv8, o: Outcome)
    requires !IsException(f) && Acknowledges(r, f, o)
    ensures if o.Done? then !IsException(r[0]) else IsException(r[0]) && ErrorOf(r[1]) == o.error
  {
    hide IsException, ErrorOf;
    if o.Failed? {
      ErrorComesBack(f, r[1], o.error);
    }
  }

  /** What a read leaves its caller: the cells in the buffer, or an error and the buffer as it was. */
  predicate Delivered(result: int, before: seq<bv8>, after: seq<bv8>, p: Place, n: nat, o: Outcome) {
    |after| == |before| &&
    match o
    case Values(cells) =>
      && result == 0 && p.At? && HostSize(p.area, n) <= |after| && CellsIn(after, p.area, n) == cells
      && after[HostSize(p.area, n)..] == before[HostSize(p.area, n)..]
    case Failed(e) => result == e && after == before
    case Done => false
  }

  /** A request that writes vals to area from index on, in its first size bytes. */
  predicate Carries(buf: seq<bv8>, size: nat, area: Area, index: nat, vals: seq<Cell>) {
    && |buf| == MAX_PDU_SIZE && (area.Coils? || area.Holding?) && Be16(buf, 1) == index
    && if size == 5 then
         && buf[0] == WriteSingleFunction(area) && |vals| == 1
         && if area.Coils? then Be16(buf, 3) == (if vals == [Bit(true)] then 0xFF00 else 0) && vals[0].Bit?
            else vals == [Reg(Word(buf[3], buf[4]))]
       else
         && buf[0] == WriteFunction(area) && |vals| <= WriteLimit(area) && Be16(buf, 3) == |vals|
         && buf[5] as int == HostSize(area, |vals|) && size == 6 + HostSize(area, |vals|)
         && RequestCells(buf, area, |vals|) == vals
  }

  lemma CarriesHead(a: seq<bv8>, b: seq<bv8>, size: nat, area: Area, index: nat, vals: seq<Cell>)
    requires Carries(a, size, area, index, vals) && size <= |a| == |b| && a[..size] == b[..size]
    ensures Carries(b, size, area, index, vals)
  {
    hide RequestCells, Be16;
    assert forall k :: 0 <= k < size ==> a[k] == b[k] by {
      assert forall k :: 0 <= k < size ==> a[k] == a[..size][k] && b[k] == b[..size][k];
    }
    assert a[..5] == a[..size][..5] && b[..5] == b[..size][..5];
    SameHead(a, b);
    if size != 5 {
      assert a[5] == b[5];
      RequestCellsHead(a, b, size, area, |vals|);
    }
  }

  lemma RequestCellsHead(a: seq<bv8>, b: seq<bv8>, size: nat, area: Area, n: nat)
    requires |a| == |b| && size == 6 + HostSize(area, n) <= |a|
    requires forall k :: 0 <= k < size ==> a[k] == b[k]
    ensures RequestCells(a, area, n) == RequestCells(b, area, n)
  {
    hide Has, Word;
  }

  lemma CarriedAnswered(s: Spec.Store, buf: seq<bv8>, size: nat, area: Area, index: nat, vals: seq<Cell>)
    requires Spec.ValidStore(s) && Carries(buf, size, area, index, vals) && size <= MAX_PDU_SIZE
    ensures Spec.Handle(s, buf, size, true) == Spec.Handle(s, buf, size, false)
    ensures var (s', r) := Spec.Handle(s, buf, size, false);
      var (m, o) := Change(Abstract(s), area, index, vals);
      Abstract(s') == m && Acknowledges(r, buf[0], o) && !IsException(buf[0])
  {
    hide Spec.Handle, Spec.ValidStore, Be16, Abstract, Change, Acknowledges, RequestCells, Word;
    WritesIgnoreBroadcast(s, buf, size, area);
    if size == 5 {
      WriteSingleAnswered(s, buf, area, index);
      assert vals == [if area.Coils? then Bit(Be16(buf, 3) == 0xFF00) else Reg(Word(buf[3], buf[4]))];
    } else {
      WriteAnswered(s, buf, area, index, |vals|);
    }
  }

  predicate Returned(result: int, o: Outcome) {
    match o
    case Done => result == 0
    case Failed(e) => result == e
    case Values(_) => false
  }

  lemma ReadIsShort(s: Spec.Store, request: seq<bv8>, area: Area, index: nat, n: nat)
    requires |request| == MAX_PDU_SIZE && Spec.ValidStore(s)
    requires n <= ReadLimit(area) && 2 + HostSize(area, n) <= Rtu.MAX_RTU_PDU
    requires request[0] == ReadFunction(area) && Be16(request, 1) == index && Be16(request, 3) == n
    ensures Rtu.Short(s, request[..5])
  {
    hide Spec.Handle, Spec.ValidStore, Be16, Fetch, Abstract, ByteCount;
    forall buf | |buf| == MAX_PDU_SIZE && request[..5] <= buf
      ensures |Spec.Handle(s, buf, 5, false).1| <= Rtu.MAX_RTU_PDU
    {
      SameHead(request, buf);
      ReadAnswered(s, buf, area, index, n);
    }
  }

  lemma WriteIsShort(s: Spec.Store, request: seq<bv8>, size: nat, area: Area, index: nat, vals: seq<Cell>)
    requires Spec.ValidStore(s) && Carries(request, size, area, index, vals) && size <= MAX_PDU_SIZE
    ensures Rtu.Short(s, request[..size])
  {
    hide Spec.Handle, Spec.ValidStore, Be16, Change, Abstract, Carries;
    CarriesIsWhole(request, size, area, index, vals);
    forall buf | |buf| == MAX_PDU_SIZE && request[..size] <= buf
      ensures |Spec.Handle(s, buf, size, false).1| <= Rtu.MAX_RTU_PDU
    {
      CarriesHead(request, buf, size, area, index, vals);
      CarriedAnswered(s, buf, size, area, index, vals);
    }
  }

  lemma CarriesIsWhole(request: seq<bv8>, size: nat, area: Area, index: nat, vals: seq<Cell>)
    requires Carries(request, size, area, index, vals)
    ensures |request| == MAX_PDU_SIZE
  {
  }

  // ---- the loops of mbus_read and mbus_write ------------------------------------------------

  /** memcpy */
  method Copy(dst: array<bv8>, to: nat, src: array<bv8>, from: nat, count: nat)
    requires dst != src && to + count <= dst.Length && from + count <= src.Length
    modifies dst
    ensures dst[to..to + count] == src[from..from + count]
    ensures dst[..to] == old(dst[..to]) && dst[to + count..] == old(dst[to + count..])
  {
    forall k | 0 <= k < count {
      dst[to + k] := src[from + k];
    }
  }

  /** The bytes of n registers, every two of them exchanged. */
  method CopySwapped(dst: array<bv8>, to: nat, src: array<bv8>, from: nat, count: nat, ghost n: nat)
    requires dst != src && to + count <= dst.Length && from + count <= src.Length && count == 2 * n
    modifies dst
    ensures forall k :: 0 <= k < n ==>
      dst[to + 2 * k + 1] == src[from + 2 * k] && dst[to + 2 * k] == src[from + 2 * k + 1]
    ensures dst[..to] == old(dst[..to]) && dst[to + count..] == old(dst[to + count..])
  {
    var i := 0;
    ghost var k := 0;
    while i < count
      invariant 0 <= k <= n && i == 2 * k
      invariant forall j :: 0 <= j < k ==>
        dst[to + 2 * j + 1] == src[from + 2 * j] && dst[to + 2 * j] == src[from + 2 * j + 1]
      invariant dst[..to] == old(dst[..to]) && dst[to + count..] == old(dst[to + count..])
    {
      dst[to + i + 1] := src[from + i];
      dst[to + i] := src[from + i + 1];
      i, k := i + 2, k + 1;
    }
  }

  // ---- the client -----------------------------------------------------------------------------

  /** The same over TCP, the code of src/mb_tcp.c at both ends. */
  method OverConnection(slave: Slave, client: Tcp, master: Transaction, size: nat, server: Tcp, txn: Transaction)
    returns (rxCount: int, ghost buf: seq<bv8>)
    requires Distinct(client, master, server, txn) && 0 < size <= MAX_PDU_SIZE
    requires Apart(slave, server, txn) && Apart(slave, client, master)
    requires Settled(client, master, []) && Settled(server, txn, [])
    modifies client`isDown, client.mbap, client.net, master`id, master`unit, master.data
    modifies server`isDown, server.mbap, server.net, txn`id, txn`unit, txn.data
    modifies slave.coils.bytes, slave.holding.regs
    ensures Apart(slave, server, txn) && Apart(slave, client, master)
    ensures Settled(client, master, []) && Settled(server, txn, [])
    ensures master.id == old(master.id) && master.unit == old(master.unit)
    ensures |buf| == MAX_PDU_SIZE && buf[..size] == old(master.data[..size])
    ensures Exchanged(Connected(master.arg), master.arg, buf, size, old(slave.View()), slave.View(),
      old(master.data[..]), master.data[..], rxCount)
    ensures rxCount >= 0 ==> master.data[rxCount..] == old(master.data[rxCount..])
  {
    hide Spec.Handle, Spec.ValidStore, Settled;
    ghost var reply;
    buf := master.data[..size] + txn.data[size..];
    rxCount, reply := TcpExchange.Exchange(client, master, size, server, txn, slave);
  }

  /** The same over a serial line, the code of src/mb_rtu.c at both ends. */
  method OverWire(wire: Rtu.Wire, to: int, unit: bv8, data: array<bv8>, size: nat)
    returns (rxCount: int, ghost buf: seq<bv8>)
    requires wire.Idle() && 0 < size <= Rtu.MAX_RTU_PDU && data.Length == MAX_PDU_SIZE
    requires data != wire.buffer && data != wire.slave.coils.bytes && data != wire.slave.inputs.bytes
    requires IsUnitOf(unit, to)
    requires Hears(OnBus(wire.own, Rtu.MAX_RTU_PDU), to) ==> Rtu.Short(wire.slave.View(), data[..size])
    modifies wire, wire.Devices(), data, wire.slave.coils.bytes, wire.slave.holding.regs
    ensures wire.Idle()
    ensures |buf| == MAX_PDU_SIZE && buf[..size] == old(data[..size])
    ensures Exchanged(OnBus(wire.own, Rtu.MAX_RTU_PDU), to, buf, size, old(wire.slave.View()), wire.slave.View(),
      old(data[..]), data[..], rxCount)
  {
    hide Spec.Handle, Spec.ValidStore, Rtu.Short, Hears, ToAll, IsUnitOf;
    SameUnit(unit, wire.own, Rtu.MAX_RTU_PDU, to);
    rxCount, buf := wire.Exchange(to, unit, data, size);
  }

  /** What the master's transport leads to: a bus that loses nothing, a serial line with the code of
      src/mb_rtu.c at both ends, or a connection with the code of src/mb_tcp.c at both ends. */
  datatype Line =
    | Bus(slave: Slave, cable: Cable)
    | Serial(slave: Slave, wire: Rtu.Wire)
    | Connection(slave: Slave, client: Tcp, handle: int, server: Tcp, txn: Transaction)
  {
    function Reaches(): Reach {
      match this
      case Bus(_, cable) => OnBus(cable.own, MAX_PDU_SIZE)
      case Serial(_, wire) => OnBus(wire.own, Rtu.MAX_RTU_PDU)
      case Connection(_, _, handle, _, _) => Connected(handle)
    }

    /** A PDU passes, and so does the response to it. */
    ghost predicate Passes(to: int, s: Spec.Store, pdu: seq<bv8>) {
      Serial? ==> |pdu| <= Rtu.MAX_RTU_PDU && (Hears(Reaches(), to) ==> Rtu.Short(s, pdu))
    }

    /** What a request changes, apart from the master's transaction and the slave's tables. */
    ghost function Footprint(): set<object> {
      match this
      case Bus(_, cable) => {cable.link, cable.txn, cable.txn.data}
      case Serial(_, wire) => {wire} + wire.Devices()
      case Connection(_, client, _, server, txn) =>
        {client, client.mbap, client.net, server, server.mbap, server.net, txn, txn.data}
    }

    /** Nothing is under way. */
    ghost predicate Rests(master: Transaction)
      reads Footprint()
    {
      match this
      case Bus(_, cable) => cable.slave == slave && cable.Still()
      case Serial(_, wire) => wire.slave == slave && wire.Still()
      case Connection(_, client, _, server, txn) =>
        && Distinct(client, master, server, txn) && handle != 0
        && Separate(slave, server, txn) && Separate(slave, client, master)
        && Steady(client, handle, []) && Settled(server, txn, [])
    }
  }

  lemma ReadMayPass(line: Line, slave: int, s: Spec.Store, request: seq<bv8>, area: Area, index: nat, n: nat)
    requires |request| == MAX_PDU_SIZE && Spec.ValidStore(s) && n <= ReadLimit(area)
    requires line.Serial? ==> 2 + HostSize(area, n) <= Rtu.MAX_RTU_PDU
    requires request[0] == ReadFunction(area) && Be16(request, 1) == index && Be16(request, 3) == n
    ensures line.Passes(slave, s, request[..5])
  {
    hide Be16, Rtu.Short, ByteCount;
    if line.Serial? {
      ReadIsShort(s, request, area, index, n);
    }
  }

  lemma WriteMayPass(line: Line, slave: int, s: Spec.Store, request: seq<bv8>, size: nat, area: Area, index: nat,
        vals: seq<Cell>)
    requires Spec.ValidStore(s) && Carries(request, size, area, index, vals) && size <= MAX_PDU_SIZE
    requires line.Serial? ==> size <= Rtu.MAX_RTU_PDU
    ensures |request| == MAX_PDU_SIZE && line.Passes(slave, s, request[..size])
  {
    hide Rtu.Short, Be16, RequestCells;
    WriteIsShort(s, request, size, area, index, vals);
  }

  class Master {
    const scratch: array<bv8>
    const transaction: Transaction
    const line: Line
    // what a request changes beyond these
    ghost const beyond: set<object>

    constructor OnBus(cable: Cable)
      requires cable.Idle()
      ensures Ready() && line == Bus(cable.slave, cable)
      ensures beyond == line.Footprint() && fresh(scratch) && fresh(transaction)
    {
      var memory := new bv8[MAX_PDU_SIZE](_ => 0x55);
      scratch := memory;
      transaction := new Transaction(memory);
      line := Bus(cable.slave, cable);
      beyond := Bus(cable.slave, cable).Footprint();
    }

    constructor OnWire(wire: Rtu.Wire)
      requires wire.Idle()
      ensures Ready() && line == Serial(wire.slave, wire)
      ensures beyond == line.Footprint() && fresh(scratch) && fresh(transaction)
    {
      var memory := new bv8[MAX_PDU_SIZE](_ => 0x55);
      scratch := memory;
      transaction := new Transaction(memory);
      line := Serial(wire.slave, wire);
      beyond := Serial(wire.slave, wire).Footprint();
    }

    /** Two ends of a connection between which nothing is under way. */
    constructor OverTcp(slave: Slave, client: Tcp, handle: int, server: Tcp, txn: Transaction)
      requires Steady(client, handle, []) && Settled(server, txn, []) && Apart(slave, server, txn)
      requires client != server && client.net != server.net && client.mbap != server.mbap
      requires txn.data != client.mbap && client.mbap != slave.coils.bytes && client.mbap != slave.inputs.bytes
      ensures Ready() && line == Connection(slave, client, handle, server, txn)
      ensures beyond == line.Footprint() && fresh(scratch) && fresh(transaction)
    {
      var memory := new bv8[MAX_PDU_SIZE](_ => 0x55);
      scratch := memory;
      transaction := new Transaction(memory);
      line := Connection(slave, client, handle, server, txn);
      beyond := Connection(slave, client, handle, server, txn).Footprint();
    }

    /** Between calls. */
    ghost predicate Ready()
      reads beyond, line.slave.coils, line.slave.inputs, line.slave.inputRegs, line.slave.holding
    {
      && line.slave.Valid() && AtRest() && transaction.data == scratch && scratch.Length == MAX_PDU_SIZE
      && transaction !in beyond && Foreign(scratch)
      && line.slave.coils !in beyond && line.slave.inputs !in beyond
      && line.slave.inputRegs !in beyond && line.slave.holding !in beyond
    }

    ghost predicate AtRest()
      reads beyond
    {
      line.Footprint() == beyond && line.Rests(transaction)
    }

    predicate Told(slave: int) {
      Names(line.Reaches(), slave)
    }

    /** A buffer of the master's side. */
    ghost predicate Foreign(buffer: array<bv8>) {
      buffer !in beyond && buffer != line.slave.coils.bytes && buffer != line.slave.inputs.bytes
    }

    /** The head of every request built here: function, address, quantity or value. */
    method Build(f: bv8, address: nat, value: uint16)
      requires scratch.Length == MAX_PDU_SIZE
      modifies scratch
      ensures scratch[0] == f && Be16(scratch[..], 1) == (address - 1) % 0x1_0000 && Be16(scratch[..], 3) == value
      ensures scratch[3] == HighByte(value) && scratch[4] == LowByte(value)
      ensures scratch[5..] == old(scratch[5..])
    {
      hide HighByte, LowByte;
      var index: uint16 := (address - 1) % 0x1_0000;
      Be16Of(index);
      Be16Of(value);
      scratch[0], scratch[1], scratch[2] := f, HighByte(index), LowByte(index);
      scratch[3], scratch[4] := HighByte(value), LowByte(value);
    }

    /** The request out and, unless the slave is 0, a response in. */
    method Transact(slave: int, size: nat) returns (rxCount: int, ghost buf: seq<bv8>)
      requires Ready() && 0 < size <= MAX_PDU_SIZE && Told(slave)
      requires line.Passes(slave, line.slave.View(), scratch[..size])
      requires transaction.arg == slave && IsUnitOf(transaction.unit, slave)
      modifies transaction, scratch, beyond, line.slave.coils.bytes, line.slave.holding.regs
      ensures Ready() && transaction.id == old(transaction.id) && transaction.unit == old(transaction.unit)
      ensures |buf| == MAX_PDU_SIZE && buf[..size] == old(scratch[..size]) && Spec.ValidStore(old(line.slave.View()))
      ensures Exchanged(line.Reaches(), slave, buf, size, old(line.slave.View()), line.slave.View(),
        old(scratch[..]), scratch[..], rxCount)
    {
      hide Spec.Handle, Spec.ValidStore, Spec.WellFormed, Rtu.Short, Hears, ToAll, IsUnitOf;
      line.slave.ViewIsValid();
      match line {
        case Bus(_, cable) =>
          rxCount, buf := cable.Exchange(transaction.id, slave, transaction.unit, scratch, size);
        case Serial(_, wire) =>
          rxCount, buf := OverWire(wire, slave, transaction.unit, scratch, size);
        case Connection(_, client, _, server, txn) =>
          rxCount, buf := OverConnection(line.slave, client, transaction, size, server, txn);
      }
    }

    /** The transaction, with the low byte of the slave for the unit and the next id. */
    method Exchange(slave: int, size: nat) returns (rxCount: int, ghost buf: seq<bv8>)
      requires Ready() && 0 < size <= MAX_PDU_SIZE && Told(slave)
      requires line.Passes(slave, line.slave.View(), scratch[..size])
      modifies transaction, scratch, beyond, line.slave.coils.bytes, line.slave.holding.regs
      ensures Ready()
      ensures IsUnitOf(transaction.unit, slave) && transaction.id == (old(transaction.id) + 1) % 0x1_0000
      ensures |buf| == MAX_PDU_SIZE && buf[..size] == old(scratch[..size]) && Spec.ValidStore(old(line.slave.View()))
      ensures Exchanged(line.Reaches(), slave, buf, size, old(line.slave.View()), line.slave.View(),
        old(scratch[..]), scratch[..], rxCount)
    {
      hide Spec.Handle, Spec.ValidStore, Rtu.Short, UnitOf, AtRest, Exchanged, Line.Passes, Hears;
      UnitOfValue(slave);
      transaction.arg, transaction.unit := slave, UnitOf(slave);
      transaction.id := (transaction.id + 1) % 0x1_0000;
      rxCount, buf := Transact(slave, size);
    }

    /** The end of mbus_read: the data of a response into the caller's buffer. */
    method Unload(buffer: array<bv8>, ghost area: Area, ghost n: nat) returns (result: int)
      requires scratch.Length == MAX_PDU_SIZE && buffer != scratch && HostSize(area, n) <= buffer.Length
      requires scratch[0] == ReadFunction(area) && scratch[1] as int == HostSize(area, n) <= MAX_PDU_SIZE - 2
      modifies buffer
      ensures result == 0
      ensures CellsIn(buffer[..], area, n) == ResponseCells(scratch[..], area, n)
      ensures buffer[HostSize(area, n)..] == old(buffer[HostSize(area, n)..])
    {
      hide CellsIn, ResponseCells, ByteCount;
      var f, count := scratch[0], scratch[1] as int;
      if f == Spec.READ_COILS || f == Spec.READ_INPUTS {
        Copy(buffer, 0, scratch, 2, count);
        result := 0;
        assert buffer[..][..count] == scratch[..][2..2 + count];
        BitsUnloaded(buffer[..], scratch[..], area, n);
      } else if f == Spec.READ_INPUT_REGISTERS || f == Spec.READ_HOLDING_REGISTERS {
        CopySwapped(buffer, 0, scratch, 2, count, n);
        result := 0;
        RegistersUnloaded(buffer[..], scratch[..], area, n);
      } else {
        result := -1;
      }
    }

    /** mbus_read once a response r has come that reports o. */
    method Conclude(buffer: array<bv8>, ghost area: Area, ghost n: nat, ghost index: nat, ghost r: seq<bv8>,
        ghost o: Outcome)
      returns (result: int)
      requires scratch.Length == MAX_PDU_SIZE && buffer != scratch && n <= ReadLimit(area)
      requires HostSize(area, n) <= buffer.Length && |r| <= MAX_PDU_SIZE && scratch[..|r|] == r
      requires Reports(r, ReadFunction(area), area, n, o)
      modifies buffer
      ensures Delivered(result, old(buffer[..]), buffer[..], At(area, index), n, o)
    {
      hide CellsIn, ResponseCells, IsException, ErrorOf;
      ReadConcluded(r, area, n, o);
      assert scratch[0] == r[0] && scratch[1] == r[1];
      if IsException(scratch[0]) {
        return ErrorOf(scratch[1]);
      }
      ResponseCellsPrefix(r, scratch[..], area, n);
      result := Unload(buffer, area, n);
    }

    /** The transaction of mbus_read: a response r that reports what the slave holds, or a timeout. */
    method Ask(slave: int, f: bv8, address: nat, quantity: uint16, ghost area: Area)
      returns (rxCount: int, ghost r: seq<bv8>)
      requires Ready() && Told(slave) && slave != 0
      requires f == ReadFunction(area) && quantity <= ReadLimit(area)
      requires line.Serial? ==> 2 + HostSize(area, quantity) <= Rtu.MAX_RTU_PDU
      modifies transaction, scratch, beyond, line.slave.coils.bytes, line.slave.holding.regs
      ensures Ready() && line.slave.View() == old(line.slave.View())
      ensures if !Hears(line.Reaches(), slave) then rxCount == ETIMEOUT
        else
          && rxCount == |r| <= MAX_PDU_SIZE && scratch[..|r|] == r
          && Reports(r, f, area, quantity,
               Fetch(Abstract(old(line.slave.View())), area, (address - 1) % 0x1_0000, quantity))
    {
      hide Spec.Handle, Spec.ValidStore, Be16, Fetch, Abstract, ResponseCells, Reports;
      hide Slave.View, ByteCount, AtRest;
      ghost var s, index := line.slave.View(), (address - 1) % 0x1_0000;
      Build(f, address, quantity);
      ghost var request := scratch[..];
      line.slave.ViewIsValid();
      ReadMayPass(line, slave, s, request, area, index, quantity);
      hide Line.Passes;
      ghost var buf;
      rxCount, buf := Exchange(slave, 5);
      r := Spec.Handle(s, buf, 5, false).1;
      SameHead(request, buf);
      SilentRead(s, buf, area);
      if Hears(line.Reaches(), slave) {
        ReadAnswered(s, buf, area, index, quantity);
        assert scratch[..|r|] == r;
      }
    }

    /** mbus_read once the function is chosen. */
    method ReadArea(slave: int, f: bv8, address: nat, quantity: uint16, buffer: array<bv8>, ghost area: Area)
      returns (result: int)
      requires Ready() && Told(slave) && Foreign(buffer) && buffer != scratch && slave != 0
      requires f == ReadFunction(area) && quantity <= ReadLimit(area) && HostSize(area, quantity) <= buffer.Length
      requires line.Serial? ==> 2 + HostSize(area, quantity) <= Rtu.MAX_RTU_PDU
      modifies transaction, scratch, buffer, beyond, line.slave.coils.bytes, line.slave.holding.regs
      ensures Ready() && line.slave.View() == old(line.slave.View())
      ensures Delivered(result, old(buffer[..]), buffer[..], At(area, (address - 1) % 0x1_0000), quantity,
        if !Hears(line.Reaches(), slave) then Failed(ETIMEOUT)
        else Fetch(Abstract(old(line.slave.View())), area, (address - 1) % 0x1_0000, quantity))
    {
      hide Reports, Fetch, Abstract, CellsIn, Slave.View, ByteCount, AtRest;
      ghost var o := Fetch(Abstract(line.slave.View()), area, (address - 1) % 0x1_0000, quantity);
      var rxCount, r := Ask(slave, f, address, quantity, area);
      if rxCount < 0 {
        return rxCount;
      }
      result := Conclude(buffer, area, quantity, (address - 1) % 0x1_0000, r, o);
    }

    /** mbus_read */
    method MbusRead(slave: int, address: nat, quantity: uint16, buffer: array<bv8>) returns (result: int)
      requires Ready() && Told(slave) && Foreign(buffer) && buffer != scratch
      requires ReadFits(address, quantity, buffer.Length) && ReadPasses(line.Reaches(), address, quantity)
      modifies transaction, scratch, buffer, beyond, line.slave.coils.bytes, line.slave.holding.regs
      ensures Ready() && line.slave.View() == old(line.slave.View())
      ensures Delivered(result, old(buffer[..]), buffer[..], PlaceOf(address), quantity,
        PlainRead(Abstract(old(line.slave.View())), line.Reaches(), slave, address, quantity))
    {
      hide Fetch, Abstract, CellsIn, AtRest;
      if slave == 0 {
        return -1;
      }
      var kind, f := address / 0x1_0000, 0;
      if kind == 0 {
        if quantity > 2000 { return -1; }
        f := Spec.READ_COILS;
      } else if kind == 1 {
        if quantity > 2000 { return -1; }
        f := Spec.READ_INPUTS;
      } else if kind == 3 {
        if quantity > 125 { return -1; }
        f := Spec.READ_INPUT_REGISTERS;
      } else if kind == 4 {
        if quantity > 125 { return -1; }
        f := Spec.READ_HOLDING_REGISTERS;
      } else {
        return -1;
      }
      result := ReadArea(slave, f, address, quantity, buffer, PlaceOf(address).area);
    }

    /** The end of mbus_write and mbus_write_single. */
    method Submit(slave: int, size: nat, ghost area: Area, ghost index: nat, ghost vals: seq<Cell>)
      returns (result: int)
      requires Ready() && 0 < size <= MAX_PDU_SIZE && Carries(scratch[..], size, area, index, vals) && Told(slave)
      requires line.Serial? ==> size <= Rtu.MAX_RTU_PDU
      modifies transaction, scratch, beyond, line.slave.coils.bytes, line.slave.holding.regs
      ensures Ready()
      ensures var m := Abstract(old(line.slave.View()));
        var (m', o) := Deliver(m, line.Reaches(), slave, Change(m, area, index, vals));
        Abstract(line.slave.View()) == m' && Returned(result, o)
    {
      hide Spec.Handle, Spec.ValidStore, Be16, Change, Abstract, IsException, ErrorOf, Carries, AtRest;
      ghost var s, request := line.slave.View(), scratch[..];
      line.slave.ViewIsValid();
      WriteMayPass(line, slave, s, request, size, area, index, vals);
      hide Line.Passes;
      var rxCount, buf := Exchange(slave, size);
      assert request[..size] == buf[..size];
      CarriesHead(request, buf, size, area, index, vals);
      CarriedAnswered(s, buf, size, area, index, vals);
      CarriedAnswered(s, request, size, area, index, vals);
      ghost var r, o := Spec.Handle(s, buf, size, false).1, Change(Abstract(s), area, index, vals).1;
      Concluded(r, buf[0], o);
      assert Hears(line.Reaches(), slave) ==> scratch[0] == r[0] && scratch[1] == r[1];
      assert !Hears(line.Reaches(), slave) ==> scratch[0] == request[0];
      if rxCount < 0 {
        result := rxCount;
      } else if IsException(scratch[0]) {
        result := ErrorOf(scratch[1]);
      } else {
        result := 0;
      }
    }

    /** mbus_write_single */
    method MbusWriteSingle(slave: int, address: nat, value: uint16) returns (result: int)
      requires Ready() && Told(slave)
      modifies transaction, scratch, beyond, line.slave.coils.bytes, line.slave.holding.regs
      ensures Ready()
      ensures var (m, o) := PlainWriteSingle(Abstract(old(line.slave.View())), line.Reaches(), slave, address, value);
        Abstract(line.slave.View()) == m && Returned(result, o)
    {
      hide Change, Abstract, AtRest, Word, HighByte, LowByte, Be16;
      var kind, f, word := address / 0x1_0000, 0, value;
      if kind == 0 {
        f := Spec.WRITE_COIL;
        word := if value != 0 then 0xFF00 else 0x0000;
      } else if kind == 4 {
        f := Spec.WRITE_HOLDING_REGISTER;
      } else {
        return -1;
      }
      ghost var p := PlaceOf(address);
      Build(f, address, word);
      result := Submit(slave, 5, p.area, p.index, [if kind == 0 then Bit(value != 0) else Reg(WordOf(value))]);
    }

    /** mbus_write */
    method MbusWrite(slave: int, address: nat, quantity: uint16, buffer: array<bv8>) returns (result: int)
      requires Ready() && Told(slave) && Foreign(buffer) && buffer != scratch
      requires Supplied(address, quantity, buffer.Length) && WritePasses(line.Reaches(), address, quantity)
      modifies transaction, scratch, beyond, line.slave.coils.bytes, line.slave.holding.regs
      ensures Ready()
      ensures var m := Abstract(old(line.slave.View()));
        var (m', o) := PlainWrite(m, line.Reaches(), slave, address, quantity, buffer[..]);
        Abstract(line.slave.View()) == m' && Returned(result, o)
    {
      hide Change, Abstract, CellsIn, Carries, AtRest;
      var kind, count := address / 0x1_0000, 0;
      ghost var p := PlaceOf(address);
      if kind == 0 {
        if quantity > 1968 { return -1; }
        count := quantity / 8;
        if quantity % 8 != 0 {
          count := count + 1;
        }
        assert count == ByteCount(quantity);
        LoadCoils(address, quantity, count, buffer);
      } else if kind == 4 {
        if quantity > 123 { return -1; }
        count := 2 * quantity;
        LoadHolding(address, quantity, count, buffer);
      } else {
        return -1;
      }
      result := Submit(slave, 6 + count, p.area, p.index, CellsIn(buffer[..], p.area, quantity));
    }

    /** The head of a multiple write: with the count byte, the data left as it is. */
    method Load(f: bv8, address: nat, quantity: uint16, count: nat)
      requires scratch.Length == MAX_PDU_SIZE && count < 256
      modifies scratch
      ensures scratch[0] == f && Be16(scratch[..], 1) == (address - 1) % 0x1_0000 && Be16(scratch[..], 3) == quantity
      ensures scratch[5] as int == count && scratch[6..] == old(scratch[6..])
    {
      Build(f, address, quantity);
      assert scratch[6..] == scratch[5..][1..];
      CountByteValue(count);
      scratch[5] := CountByte(count);
    }

    method LoadCoils(address: nat, quantity: uint16, count: nat, buffer: array<bv8>)
      requires scratch.Length == MAX_PDU_SIZE && quantity <= 1968 && count == ByteCount(quantity) <= buffer.Length
      requires count <= 246
      requires buffer != scratch
      modifies scratch
      ensures Carries(scratch[..], 6 + count, Coils, (address - 1) % 0x1_0000, CellsIn(buffer[..], Coils, quantity))
    {
      hide CellsIn, RequestCells, Be16, CountByte, ByteCount;
      Copy(scratch, 6, buffer, 0, count);
      ghost var tail := scratch[6..];
      assert tail[..count] == buffer[..count];
      Load(Spec.WRITE_COILS, address, quantity, count);
      BitsLoaded(buffer[..], scratch[..], quantity);
    }

    method LoadHolding(address: nat, quantity: uint16, count: nat, buffer: array<bv8>)
      requires scratch.Length == MAX_PDU_SIZE && quantity <= 123 && count == 2 * quantity <= buffer.Length
      requires buffer != scratch
      modifies scratch
      ensures Carries(scratch[..], 6 + count, Holding, (address - 1) % 0x1_0000, CellsIn(buffer[..], Holding, quantity))
    {
      hide CellsIn, RequestCells, Be16, CountByte;
      CopySwapped(scratch, 6, buffer, 0, count, quantity);
      ghost var tail := scratch[6..];
      Load(Spec.WRITE_HOLDING_REGISTERS, address, quantity, count);
      forall k | 0 <= k < quantity
        ensures scratch[6 + 2 * k + 1] == buffer[2 * k] && scratch[6 + 2 * k] == buffer[2 * k + 1]
      {
        assert scratch[6 + 2 * k] == tail[2 * k] && scratch[6 + 2 * k + 1] == tail[2 * k + 1];
      }
      RegistersLoaded(buffer[..], scratch[..], quantity);
    }
  }
}
