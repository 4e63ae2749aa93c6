/** What a user of include/mbus.h may believe: cells by area and index, and calls that look them up
    or change them. Nothing here knows of PDUs. */
module PlainMap {
  import opened Errors
  import opened Pdu
  import opened Tables
  import opened SlaveProperties
  import Spec = SlaveSpec

  datatype Area = Coils | Inputs | InputRegs | Holding
  datatype Cell = Bit(on: bool) | Reg(word: bv16)
  datatype Key = Key(area: Area, index: int)

  type Cells = map<Key, Cell>

  /** Which callbacks an area has, and what they answer. */
  datatype Rights = Rights(canGet: bool, canSet: bool, getAnswer: int, setAnswer: int)

  datatype Memory = Memory(cells: Cells, coils: Rights, inputs: Rights, inputRegs: Rights, holding: Rights)

  function RightsOf(m: Memory, area: Area): Rights {
    match area
    case Coils => m.coils
    case Inputs => m.inputs
    case InputRegs => m.inputRegs
    case Holding => m.holding
  }

  /** A data model address: the area in the digit above 65536, then a number counting from 1. */
  datatype Place = Nowhere | At(area: Area, index: nat)

  function PlaceOf(address: nat): Place {
    var index := (address - 1) % 0x1_0000;
    match address / 0x1_0000
    case 0 => At(Coils, index)
    case 1 => At(Inputs, index)
    case 3 => At(InputRegs, index)
    case 4 => At(Holding, index)
    case _ => Nowhere
  }

  predicate OfBits(area: Area) {
    area.Coils? || area.Inputs?
  }

  predicate Present(cells: Cells, area: Area, index: int, n: nat) {
    forall i :: index <= i < index + n ==> Key(area, i) in cells
  }

  function Lookup(cells: Cells, area: Area, index: int, n: nat): seq<Cell>
    requires Present(cells, area, index, n)
  {
    seq(n, i requires 0 <= i < n => cells[Key(area, index + i)])
  }

  function Update(cells: Cells, area: Area, index: int, vals: seq<Cell>): Cells {
    map k | k in cells ::
      if k.area == area && index <= k.index < index + |vals| then vals[k.index - index] else cells[k]
  }

  /** The cells in a caller's buffer: bits lowest first, registers as a little-endian host has them. */
  function CellsIn(data: seq<bv8>, area: Area, n: nat): (cells: seq<Cell>)
    requires HostSize(area, n) <= |data|
    ensures |cells| == n
  {
    if OfBits(area) then seq(n, i requires 0 <= i < n => Bit(Has(data[i / 8], i % 8)))
    else seq(n, i requires 0 <= i < n => Reg(Word(data[2 * i + 1], data[2 * i])))
  }

  function HostSize(area: Area, n: nat): nat {
    if OfBits(area) then ByteCount(n) else 2 * n
  }

  datatype Call =
    | Read(slave: int, address: nat, quantity: uint16)
    | Write(slave: int, address: nat, quantity: uint16, data: seq<bv8>)
    | WriteSingle(slave: int, address: nat, value: uint16)
    // not a call: from here on the user's callbacks for area answer so
    | Callbacks(area: Area, getAnswer: int, setAnswer: int)

  /** How a slave is reached: by its unit on a bus it shares with others and that takes PDUs of some
      size at most, or over a connection of its own, whose handle a caller gives for the slave. */
  datatype Reach = OnBus(own: bv8, most: nat) | Connected(handle: int)

  /** On a bus a slave number reaches the unit of its low byte, and all slaves if that is 0. */
  predicate Hears(reach: Reach, slave: int) {
    match reach
    case OnBus(own, _) => slave % 256 == own as int
    case Connected(handle) => slave == handle
  }

  predicate ToAll(reach: Reach, slave: int) {
    reach.OnBus? && slave % 256 == 0
  }

  datatype Outcome = Values(cells: seq<Cell>) | Done | Failed(error: int)

  function ReadLimit(area: Area): nat {
    if OfBits(area) then 2000 else 125
  }

  function WriteLimit(area: Area): nat {
    if OfBits(area) then 1968 else 123
  }

  predicate Writable(p: Place) {
    p.At? && (p.area.Coils? || p.area.Holding?)
  }

  function Fetch(m: Memory, area: Area, index: nat, n: nat): Outcome {
    if n == 0 then Failed(EILLEGAL_DATA_VALUE)
    else if !Present(m.cells, area, index, n) then Failed(EILLEGAL_DATA_ADDRESS)
    else if !RightsOf(m, area).canGet then Failed(EILLEGAL_FUNCTION)
    else if RightsOf(m, area).getAnswer != 0 then Failed(RightsOf(m, area).getAnswer)
    else Values(Lookup(m.cells, area, index, n))
  }

  function Change(m: Memory, area: Area, index: nat, vals: seq<Cell>): (Memory, Outcome) {
    if |vals| == 0 then (m, Failed(EILLEGAL_DATA_VALUE))
    else if !Present(m.cells, area, index, |vals|) then (m, Failed(EILLEGAL_DATA_ADDRESS))
    else if !RightsOf(m, area).canSet then (m, Failed(EILLEGAL_FUNCTION))
    else if RightsOf(m, area).setAnswer != 0 then (m, Failed(RightsOf(m, area).setAnswer))
    else (m.(cells := Update(m.cells, area, index, vals)), Done)
  }

  /** A write to the slave itself is answered, a write to all is done in silence, for which only slave 0
      does not wait, and nobody hears a write to another. */
  function Deliver(m: Memory, reach: Reach, slave: int, changed: (Memory, Outcome)): (Memory, Outcome) {
    if Hears(reach, slave) then changed
    else
      (if ToAll(reach, slave) then changed.0 else m, if slave == 0 then Done else Failed(ETIMEOUT))
  }

  function PlainRead(m: Memory, reach: Reach, slave: int, address: nat, quantity: nat): Outcome {
    var p := PlaceOf(address);
    if slave == 0 || p.Nowhere? || quantity > ReadLimit(p.area) then Failed(-1)
    else if !Hears(reach, slave) then Failed(ETIMEOUT)
    else Fetch(m, p.area, p.index, quantity)
  }

  /** The caller's buffer has room for the cells of a read that is not refused outright. */
  predicate ReadFits(address: nat, quantity: nat, size: nat) {
    var p := PlaceOf(address);
    p.At? && quantity <= ReadLimit(p.area) ==> HostSize(p.area, quantity) <= size
  }

  /** The caller's buffer holds the cells of a write that is not refused outright. */
  predicate Supplied(address: nat, quantity: nat, size: nat) {
    var p := PlaceOf(address);
    Writable(p) && quantity <= WriteLimit(p.area) ==> HostSize(p.area, quantity) <= size
  }

  function PlainWrite(m: Memory, reach: Reach, slave: int, address: nat, quantity: nat, data: seq<bv8>)
    : (Memory, Outcome)
    requires Supplied(address, quantity, |data|)
  {
    var p := PlaceOf(address);
    if !Writable(p) || quantity > WriteLimit(p.area) then (m, Failed(-1))
    else Deliver(m, reach, slave, Change(m, p.area, p.index, CellsIn(data, p.area, quantity)))
  }

  function PlainWriteSingle(m: Memory, reach: Reach, slave: int, address: nat, value: uint16): (Memory, Outcome) {
    var p := PlaceOf(address);
    if !Writable(p) then (m, Failed(-1))
    else
      var cell := if p.area.Coils? then Bit(value != 0) else Reg(WordOf(value));
      Deliver(m, reach, slave, Change(m, p.area, p.index, [cell]))
  }

  predicate Sound(c: Call) {
    && (c.Write? ==> Supplied(c.address, c.quantity, |c.data|))
    && (c.Callbacks? ==> IsAnswer(c.getAnswer) && IsAnswer(c.setAnswer))
  }

  /** Over a connection a call is for the slave at its end; on a bus its request and its response are
      PDUs the bus takes. */
  predicate Addressed(reach: Reach, c: Call) {
    match c
    case Read(slave, address, quantity) => Names(reach, slave) && ReadPasses(reach, address, quantity)
    case Write(slave, address, quantity, _) => Names(reach, slave) && WritePasses(reach, address, quantity)
    case WriteSingle(slave, _, _) => Names(reach, slave)
    case Callbacks(_, _, _) => true
  }

  predicate Names(reach: Reach, slave: int) {
    reach.Connected? ==> slave == reach.handle
  }

  /** The response, with function and count before the cells. */
  predicate ReadPasses(reach: Reach, address: nat, quantity: nat) {
    var p := PlaceOf(address);
    reach.OnBus? && p.At? && quantity <= ReadLimit(p.area) ==> 2 + HostSize(p.area, quantity) <= reach.most
  }

  /** The request, with function, address, quantity and count before the cells. */
  predicate WritePasses(reach: Reach, address: nat, quantity: nat) {
    var p := PlaceOf(address);
    reach.OnBus? && Writable(p) && quantity <= WriteLimit(p.area) ==> 6 + HostSize(p.area, quantity) <= reach.most
  }

  function Plain(m: Memory, reach: Reach, c: Call): (Memory, Outcome)
    requires Sound(c)
  {
    match c
    case Read(slave, address, quantity) => (m, PlainRead(m, reach, slave, address, quantity))
    case Write(slave, address, quantity, data) => PlainWrite(m, reach, slave, address, quantity, data)
    case WriteSingle(slave, address, value) => PlainWriteSingle(m, reach, slave, address, value)
    case Callbacks(area, g, s) => (Answering(m, area, RightsOf(m, area).(getAnswer := g, setAnswer := s)), Done)
  }

  function Answering(m: Memory, area: Area, rights: Rights): Memory {
    match area
    case Coils => m.(coils := rights)
    case Inputs => m.(inputs := rights)
    case InputRegs => m.(inputRegs := rights)
    case Holding => m.(holding := rights)
  }

  function PlainRun(m: Memory, reach: Reach, calls: seq<Call>): (Memory, seq<Outcome>)
    requires forall i :: 0 <= i < |calls| ==> Sound(calls[i])
  {
    if calls == [] then (m, [])
    else
      var (m', outcomes) := PlainRun(m, reach, calls[..|calls| - 1]);
      var (m'', outcome) := Plain(m', reach, calls[|calls| - 1]);
      (m'', outcomes + [outcome])
  }

  /** What was written is read back, and reads of other cells do not notice. */
  lemma ReadBack(m: Memory, reach: Reach, slave: int, address: nat, quantity: uint16, data: seq<bv8>,
        other: nat, n: uint16)
    requires slave != 0 && Hears(reach, slave) && Supplied(address, quantity, |data|)
    requires PlainWrite(m, reach, slave, address, quantity, data).1 == Done
    ensures var m' := PlainWrite(m, reach, slave, address, quantity, data).0;
      var (p, q) := (PlaceOf(address), PlaceOf(other));
      && (RightsOf(m, p.area).canGet && RightsOf(m, p.area).getAnswer == 0 ==>
           PlainRead(m', reach, slave, address, quantity) == Values(CellsIn(data, p.area, quantity)))
      && (q.At? && (q.area != p.area || q.index + n <= p.index || p.index + quantity <= q.index) ==>
           PlainRead(m', reach, slave, other, n) == PlainRead(m, reach, slave, other, n))
  {
    hide Has, Word, CellsIn;
    var m', p, q := PlainWrite(m, reach, slave, address, quantity, data).0, PlaceOf(address), PlaceOf(other);
    var vals := CellsIn(data, p.area, quantity);
    assert m'.cells == Update(m.cells, p.area, p.index, vals);
    assert Lookup(m'.cells, p.area, p.index, quantity) == vals;
    if q.At? && (q.area != p.area || q.index + n <= p.index || p.index + quantity <= q.index)
       && Present(m.cells, q.area, q.index, n) {
      assert Lookup(m'.cells, q.area, q.index, n) == Lookup(m.cells, q.area, q.index, n);
    }
  }

  // ---- a slave's tables as such a memory --------------------------------------------------

  function Size(s: Spec.Store, area: Area): nat {
    match area
    case Coils => |s.coils.cells|
    case Inputs => |s.inputs.cells|
    case InputRegs => |s.inputRegs.cells|
    case Holding => |s.holding.cells|
  }

  function CellAt(s: Spec.Store, k: Key): Cell
    requires 0 <= k.index < Size(s, k.area)
  {
    match k.area
    case Coils => Bit(s.coils.cells[k.index])
    case Inputs => Bit(s.inputs.cells[k.index])
    case InputRegs => Reg(s.inputRegs.cells[k.index])
    case Holding => Reg(s.holding.cells[k.index])
  }

  function Keys(s: Spec.Store): (keys: set<Key>)
    ensures forall k :: k in keys <==> 0 <= k.index < Size(s, k.area)
  {
    set area: Area, i | 0 <= i < Size(s, area) :: Key(area, i)
  }

  function RightsIn<T>(t: Table<T>): Rights {
    Rights(t.canGet, t.canSet, t.getAnswer, t.setAnswer)
  }

  function CellsOf(s: Spec.Store): Cells {
    map k | k in Keys(s) :: CellAt(s, k)
  }

  function Abstract(s: Spec.Store): Memory {
    Memory(CellsOf(s), RightsIn(s.coils), RightsIn(s.inputs), RightsIn(s.inputRegs), RightsIn(s.holding))
  }

  lemma PresentIsInside(s: Spec.Store, area: Area, index: nat, n: nat)
    ensures n > 0 ==> (Present(Abstract(s).cells, area, index, n) <==> index + n <= Size(s, area))
  {
    if n > 0 && Present(Abstract(s).cells, area, index, n) {
      assert Key(area, index + (n - 1)) in Abstract(s).cells;
    }
  }

  function BitCells(bits: seq<bool>): (cells: seq<Cell>)
    ensures |cells| == |bits|
  {
    seq(|bits|, i requires 0 <= i < |bits| => Bit(bits[i]))
  }

  function RegCells(words: seq<bv16>): (cells: seq<Cell>)
    ensures |cells| == |words|
  {
    seq(|words|, i requires 0 <= i < |words| => Reg(words[i]))
  }

  lemma CellsChanged(s: Spec.Store, s': Spec.Store, area: Area, index: nat, vals: seq<Cell>)
    requires forall a :: Size(s', a) == Size(s, a)
    requires forall k: Key :: 0 <= k.index < Size(s, k.area) ==>
      CellAt(s', k) ==
        if k.area == area && index <= k.index < index + |vals| then vals[k.index - index] else CellAt(s, k)
    ensures CellsOf(s') == Update(CellsOf(s), area, index, vals)
  {
    hide Size, CellAt;
    assert Keys(s') == Keys(s);
  }

  lemma CoilsChanged(s: Spec.Store, s': Spec.Store, index: nat, bits: seq<bool>)
    requires s' == s.(coils := s'.coils) && Written(s.coils, s'.coils, index, bits)
    ensures Abstract(s') == Abstract(s).(cells := Update(Abstract(s).cells, Coils, index, BitCells(bits)))
  {
    hide CellsOf, Keys, Update;
    forall k: Key | 0 <= k.index < Size(s, k.area)
      ensures CellAt(s', k) ==
        if k.area == Coils && index <= k.index < index + |bits| then BitCells(bits)[k.index - index] else CellAt(s, k)
    {
    }
    CellsChanged(s, s', Coils, index, BitCells(bits));
  }

  lemma HoldingChanged(s: Spec.Store, s': Spec.Store, index: nat, words: seq<bv16>)
    requires s' == s.(holding := s'.holding) && Written(s.holding, s'.holding, index, words)
    ensures Abstract(s') == Abstract(s).(cells := Update(Abstract(s).cells, Holding, index, RegCells(words)))
  {
    hide CellsOf, Keys, Update;
    forall k: Key | 0 <= k.index < Size(s, k.area)
      ensures CellAt(s', k) ==
        if k.area == Holding && index <= k.index < index + |words| then RegCells(words)[k.index - index]
        else CellAt(s, k)
    {
    }
    CellsChanged(s, s', Holding, index, RegCells(words));
  }
}
