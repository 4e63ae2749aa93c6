/** Master, transport, slave and tables together are the plain map, over every run of calls. */
module EndToEnd {
  import opened Master
  import opened Pdu
  import opened PlainMap
  import Spec = SlaveSpec
  import opened Tables

  /** What a caller makes of the result of a call that fetches nothing. */
  function Verdict(result: int): Outcome {
    if result == 0 then Done else Failed(result)
  }

  lemma Judged(result: int, m: Memory, reach: Reach, slave: int, area: Area, index: nat, vals: seq<Cell>)
    requires Returned(result, Deliver(m, reach, slave, Change(m, area, index, vals)).1)
    ensures Verdict(result) == Deliver(m, reach, slave, Change(m, area, index, vals)).1
  {
    hide Update, Present;
  }

  method DoRead(master: Master, slave: int, address: nat, quantity: uint16) returns (outcome: Outcome)
    requires master.Ready() && master.Told(slave) && ReadPasses(master.line.Reaches(), address, quantity)
    modifies master.transaction, master.scratch, master.beyond
    modifies master.line.slave.coils.bytes, master.line.slave.holding.regs
    ensures master.Ready() && master.line.slave.View() == old(master.line.slave.View())
    ensures outcome ==
      PlainRead(Abstract(old(master.line.slave.View())), master.line.Reaches(), slave, address, quantity)
  {
    hide Abstract, CellsIn, Lookup, Present, Master.AtRest;
    var buffer := new bv8[250];
    var result := master.MbusRead(slave, address, quantity, buffer);
    outcome := if result == 0 then Values(CellsIn(buffer[..], PlaceOf(address).area, quantity)) else Failed(result);
  }

  method DoWrite(master: Master, slave: int, address: nat, quantity: uint16, data: seq<bv8>) returns (outcome: Outcome)
    requires master.Ready() && master.Told(slave) && Supplied(address, quantity, |data|)
    requires WritePasses(master.line.Reaches(), address, quantity)
    modifies master.transaction, master.scratch, master.beyond
    modifies master.line.slave.coils.bytes, master.line.slave.holding.regs
    ensures master.Ready()
    ensures (Abstract(master.line.slave.View()), outcome) ==
      PlainWrite(Abstract(old(master.line.slave.View())), master.line.Reaches(), slave, address, quantity, data)
  {
    hide Abstract, CellsIn, Change, Deliver, Master.AtRest;
    var buffer := new bv8[|data|](i requires 0 <= i < |data| => data[i]);
    assert buffer[..] == data;
    ghost var m, p := Abstract(master.line.slave.View()), PlaceOf(address);
    var result := master.MbusWrite(slave, address, quantity, buffer);
    if Writable(p) && quantity <= WriteLimit(p.area) {
      Judged(result, m, master.line.Reaches(), slave, p.area, p.index, CellsIn(data, p.area, quantity));
    }
    outcome := Verdict(result);
  }

  method DoWriteSingle(master: Master, slave: int, address: nat, value: uint16) returns (outcome: Outcome)
    requires master.Ready() && master.Told(slave)
    modifies master.transaction, master.scratch, master.beyond
    modifies master.line.slave.coils.bytes, master.line.slave.holding.regs
    ensures master.Ready()
    ensures (Abstract(master.line.slave.View()), outcome) ==
      PlainWriteSingle(Abstract(old(master.line.slave.View())), master.line.Reaches(), slave, address, value)
  {
    hide Abstract, Change, Deliver, WordOf, Master.AtRest;
    ghost var m, p := Abstract(master.line.slave.View()), PlaceOf(address);
    var result := master.MbusWriteSingle(slave, address, value);
    if Writable(p) {
      Judged(result, m, master.line.Reaches(), slave, p.area, p.index,
        [if p.area.Coils? then Bit(value != 0) else Reg(WordOf(value))]);
    }
    outcome := Verdict(result);
  }

  /** The user's callbacks for an area start to answer otherwise. */
  method DoCallbacks(master: Master, area: Area, getAnswer: int, setAnswer: int)
    requires master.Ready() && IsAnswer(getAnswer) && IsAnswer(setAnswer)
    modifies master.line.slave.coils, master.line.slave.inputs
    modifies master.line.slave.inputRegs, master.line.slave.holding
    ensures master.Ready()
    ensures Abstract(master.line.slave.View()) ==
      Plain(Abstract(old(master.line.slave.View())), master.line.Reaches(), Callbacks(area, getAnswer, setAnswer)).0
  {
    hide Master.AtRest;
    var slave := master.line.slave;
    ghost var s := slave.View();
    match area {
      case Coils => slave.coils.Answer(getAnswer, setAnswer);
      case Inputs => slave.inputs.Answer(getAnswer, setAnswer);
      case InputRegs => slave.inputRegs.Answer(getAnswer, setAnswer);
      case Holding => slave.holding.Answer(getAnswer, setAnswer);
    }
    SameCells(s, slave.View());
  }

  lemma SameCells(s: Spec.Store, s': Spec.Store)
    requires s'.coils.cells == s.coils.cells && s'.inputs.cells == s.inputs.cells
    requires s'.inputRegs.cells == s.inputRegs.cells && s'.holding.cells == s.holding.cells
    ensures CellsOf(s') == CellsOf(s)
  {
    assert Keys(s') == Keys(s);
  }

  /** A run of calls of one master to one slave. */
  method RunCalls(master: Master, calls: seq<Call>) returns (outcomes: seq<Outcome>)
    requires master.Ready()
    requires forall i :: 0 <= i < |calls| ==> Sound(calls[i]) && Addressed(master.line.Reaches(), calls[i])
    modifies master.transaction, master.scratch, master.beyond
    modifies master.line.slave.coils.bytes, master.line.slave.holding.regs
    modifies master.line.slave.coils, master.line.slave.inputs
    modifies master.line.slave.inputRegs, master.line.slave.holding
    ensures master.Ready()
    ensures (Abstract(master.line.slave.View()), outcomes) ==
      PlainRun(Abstract(old(master.line.slave.View())), master.line.Reaches(), calls)
  {
    hide Abstract, PlainRead, PlainWrite, PlainWriteSingle, Answering, RightsOf, Master.AtRest;
    outcomes := [];
    ghost var m := Abstract(master.line.slave.View());
    for i := 0 to |calls|
      invariant master.Ready()
      invariant (Abstract(master.line.slave.View()), outcomes) == PlainRun(m, master.line.Reaches(), calls[..i])
    {
      assert calls[..i + 1][..i] == calls[..i];
      var outcome := Done;
      match calls[i] {
        case Read(slave, address, quantity) => outcome := DoRead(master, slave, address, quantity);
        case Write(slave, address, quantity, data) => outcome := DoWrite(master, slave, address, quantity, data);
        case WriteSingle(slave, address, value) => outcome := DoWriteSingle(master, slave, address, value);
        case Callbacks(area, g, s) => DoCallbacks(master, area, g, s);
      }
      outcomes := outcomes + [outcome];
    }
    assert calls[..|calls|] == calls;
  }
}
