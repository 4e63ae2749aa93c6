/** A request and its response between a master and a slave on a serial line, both ends being the
    code of src/mb_rtu.c: frames go out in whatever pieces the writes take, and come in over the
    FIFO in whatever interleaving of bytes, hook, timers and receiver. */
module RtuExchange {
  import opened Errors
  import opened RtuDriver
  import opened RtuFrame
  import opened RtuMachine
  import opened RtuReception
  import opened RtuTransmit
  import opened Slave
  import Spec = SlaveSpec

  /** The greatest PDU mb_rtu_rx takes: its buffer also holds the CRC. */
  const MAX_RTU_PDU := 251

  /** The state in which mb_rtu_rx begins on a line. */
  function Beginning(line: Line, unit: bv8): State {
    State(line, Receiver(WaitFirst, unit, 0, [], 0, false, false, true, 0, false), Log([], [], false, false, false, 0))
  }

  /** Nothing comes, is there or is pending; T3P5 may be set. */
  predicate Silent(line: Line) {
    line == Line([], false, false, line.t3p5, 0, Idle, false, false)
  }

  /** In the run the bytes come, none of them late, and are received. */
  ghost predicate Brings(s: State, bytes: seq<bv8>, es: seq<Event>) {
    Received(s, es) && !Exec(s, es).log.late && Exec(s, es).log.sent == bytes
  }

  /** What happens while a frame comes: for the how-manieth it is, the state in which mb_rtu_rx begins
      and the bytes, a run in which they come. */
  type Timing = (nat, State, seq<bv8>) -> seq<Event>

  ghost predicate Timely(timing: Timing) {
    forall n, s, bytes :: Initial(s) && 3 <= |bytes| <= MAX_RTU_PDU + 3 ==> Brings(s, bytes, timing(n, s, bytes))
  }

  /** There is such a run for all bytes. */
  lemma SomeRun(s: State, bytes: seq<bv8>) returns (es: seq<Event>)
    requires Initial(s) && 3 <= |bytes| <= MAX_RTU_PDU + 3
    ensures Brings(s, bytes, es)
  {
    hide Exec, Verify, RxStep, Outcome, Judged, Begins;
    InitialBegins(s);
    ExecNone(s);
    es := Arrives(s, [], bytes);
    assert [] + bytes == bytes;
    es := ReadsId(s, es);
    es := ReadsBody(s, es);
    es := LeavesLoop(s, es, bytes);
    es := Finishes(s, es, bytes);
  }

  /** What mb_rtu_rx makes of a frame that fits. */
  predicate Verdict(r: Receiver, unit: bv8, from: bv8, pdu: seq<bv8>) {
    if from == unit || from == 0 then
      r.pc == Done(|pdu|) && pdu <= r.data && r.broadcast == (from == 0)
    else r.pc == Done(ESLAVE_ID)
  }

  lemma FrameComes(s: State, es: seq<Event>, from: bv8, pdu: seq<bv8>) returns (final: State)
    requires Brings(s, Frame(from, pdu), es) && |pdu| <= MAX_RTU_PDU
    ensures Legal(s, es) && final == Exec(s, es) && final.rx.pc.Done?
    ensures Verdict(final.rx, s.rx.unit, from, pdu)
    ensures final.line == Line([], false, false, final.line.t3p5, 0, Idle, false, false)
  {
    hide Exec, Frame, Outcome, Begins;
    final := Exec(s, es);
    ChunkingDoesNotMatter(s, es);
    RoundTrip(from, pdu, s.rx.unit);
    CleanReceptionsChain(s, es, 0);
    if from == s.rx.unit || from == 0 {
      TransmittedIsReceived(s, es, from, pdu);
    }
  }

  lemma BeginsSilent(line: Line, unit: bv8)
    requires Silent(line)
    ensures Initial(Beginning(line, unit)) && Begins(Beginning(line, unit)) && Inv(Beginning(line, unit))
  {
    hide Inv, Clean, Refusing;
    InitialBegins(Beginning(line, unit));
  }

  /** mb_rtu_rx while a frame comes: its PDU, and whether it was broadcast, or nothing for this unit.
      The line is as silent as before. */
  method TakeFrame(port: Port, unit: bv8, data: array<bv8>, timing: Timing, n: nat,
        bytes: seq<bv8>, ghost from: bv8, ghost pdu: seq<bv8>)
    returns (result: int)
    requires Timely(timing) && data.Length == MAX_PDU_SIZE && Silent(port.LineState())
    requires |pdu| <= MAX_RTU_PDU && bytes == Frame(from, pdu)
    modifies port, data
    ensures Silent(port.LineState())
    ensures if from == unit || from == 0 then
        result == |pdu| && data[..|pdu|] == pdu && port.broadcast == (from == 0)
      else result == ESLAVE_ID
  {
    hide Exec, Frame, Outcome, Inv, Begins, Initial;
    var s := Beginning(port.LineState(), unit);
    BeginsSilent(s.line, unit);
    port.schedule := timing(n, s, bytes);
    assert Brings(s, bytes, port.schedule);
    ghost var final := FrameComes(s, port.schedule, from, pdu);
    result := port.MbRtuRx(unit, data, s, final);
    if from == unit || from == 0 {
      assert data[..|final.rx.data|][..|pdu|] == data[..|pdu|];
    }
  }

  /** mb_rtu_rx while nothing comes. */
  method TakeNothing(port: Port, unit: bv8, data: array<bv8>) returns (result: int)
    requires data.Length == MAX_PDU_SIZE && Silent(port.LineState())
    modifies port, data
    ensures Silent(port.LineState()) && result == ETIMEOUT && data[..] == old(data[..])
  {
    hide Exec, Legal, Inv, Begins, Initial;
    ghost var s := Beginning(port.LineState(), unit);
    BeginsSilent(s.line, unit);
    port.schedule := [Timeout];
    NothingComes(s);
    result := port.MbRtuRx(unit, data, s, Goto(s, Done(ETIMEOUT)));
  }

  lemma NothingComes(s: State)
    requires Initial(s)
    ensures Legal(s, [Timeout]) && Exec(s, [Timeout]) == Goto(s, Done(ETIMEOUT))
  {
    ExecNone(s);
    Snoc(s, [], Timeout);
    assert [] + [Timeout] == [Timeout];
  }

  /** mb_rtu_tx at one end: the frame goes out whole, and the line is as silent as before. */
  method Emit(out: SerialOut, port: Port, unit: bv8, data: array<bv8>, size: nat) returns (bytes: seq<bv8>)
    requires size <= MAX_RTU_PDU && size <= data.Length && Works(out.results) && Silent(port.LineState())
    modifies out, port`t1p5, port`t3p5
    ensures Works(out.results) && Silent(port.LineState())
    ensures bytes == Frame(unit, data[..size])
  {
    hide Send, Upto, BytesAt, AllTake, NoneZero, Frame;
    var since := |out.wire|;
    ghost var before := out.results;
    ghost var s1, s2, s3 := out.MbRtuTx(unit, data, size, _ => 0, _ => 0, _ => 0);
    WorksOn(before, s1.used + s2.used, s3.used);
    bytes := out.wire[since..];
    port.AwaitT3P5();
  }

  lemma WorksOn(results: seq<int>, a: seq<int>, b: seq<int>)
    requires Works(results) && a <= results && b <= results[|a|..]
    ensures AllTake(a + b) && Works(results[|a + b|..])
  {
  }

  /** No write fails or returns 0, however little it takes. */
  predicate Works(results: seq<int>) {
    AllTake(results) && |results| <= SSIZE_MAX - 0x100
  }

  /** A serial line between a master and a slave of unit own: at each end what goes out and what comes
      in, and for each frame what happens while it comes. The two take turns. */
  class Wire {
    const slave: Slave
    const own: bv8
    // transaction->data of the slave
    const buffer: array<bv8>
    const masterOut: SerialOut
    const masterIn: Port
    const slaveOut: SerialOut
    const slaveIn: Port
    const timing: Timing
    var frames: nat

    constructor (slave: Slave, own: bv8, timing: Timing, masterResults: seq<int>, slaveResults: seq<int>)
      requires slave.Valid() && own != 0 && Timely(timing) && Works(masterResults) && Works(slaveResults)
      ensures Idle() && this.slave == slave && this.own == own && fresh(Devices())
    {
      this.slave, this.own, this.timing, frames := slave, own, timing, 0;
      buffer := new bv8[MAX_PDU_SIZE];
      masterOut := new SerialOut(masterResults);
      slaveOut := new SerialOut(slaveResults);
      masterIn := new Port(true, []);
      slaveIn := new Port(true, []);
    }

    ghost function Devices(): set<object> {
      {buffer, masterOut, masterIn, slaveOut, slaveIn}
    }

    ghost predicate Idle()
      reads masterOut, masterIn, slaveOut, slaveIn, slave.coils, slave.inputs, slave.inputRegs, slave.holding
    {
      slave.Valid() && Still()
    }

    /** Nothing is under way. */
    ghost predicate Still()
      reads masterOut, masterIn, slaveOut, slaveIn
    {
      && own != 0 && Timely(timing) && Works(masterOut.results) && Works(slaveOut.results)
      && Silent(masterIn.LineState()) && Silent(slaveIn.LineState())
      && masterOut != slaveOut && masterIn != slaveIn && buffer.Length == MAX_PDU_SIZE
      && buffer != slave.coils.bytes && buffer != slave.inputs.bytes
    }

    /** mb_slave_handle_request while a frame comes; the response goes out unless it was broadcast. */
    method Serve(bytes: seq<bv8>, ghost to: bv8, ghost pdu: seq<bv8>)
      returns (answered: bool, reply: seq<bv8>, ghost buf: seq<bv8>, ghost response: seq<bv8>)
      requires Idle() && 0 < |pdu| <= MAX_RTU_PDU && bytes == Frame(to, pdu)
      requires to == own ==> Short(slave.View(), pdu)
      modifies this`frames, buffer, slaveOut, slaveIn, slave.coils.bytes, slave.holding.regs
      ensures Idle()
      ensures |buf| == MAX_PDU_SIZE && buf[..|pdu|] == pdu && Spec.ValidStore(old(slave.View()))
      ensures answered == (to == own)
      ensures to == own ==>
        && (slave.View(), response) == Spec.Handle(old(slave.View()), buf, |pdu|, false)
        && |response| <= MAX_RTU_PDU && reply == Frame(own, response)
      ensures to == 0 ==> slave.View() == Spec.Handle(old(slave.View()), buf, |pdu|, true).0
      ensures to != own && to != 0 ==> slave.View() == old(slave.View())
    {
      hide Spec.Handle, Spec.ValidStore, Frame, AllTake, Works, Timely;
      slave.ViewIsValid();
      answered, reply, buf, response := false, [], pdu + buffer[|pdu|..], [];
      var rxCount := TakeFrame(slaveIn, own, buffer, timing, frames, bytes, to, pdu);
      frames := frames + 1;
      if rxCount > 0 {
        buf := buffer[..];
        var txCount := slave.Execute(buffer, rxCount, slaveIn.broadcast);
        response := buffer[..txCount];
        var newer := slaveIn.MbRtuRxAvail();
        if !newer && !slaveIn.broadcast {
          reply := Emit(slaveOut, slaveIn, own, buffer, txCount);
          answered := true;
        }
      }
    }

    /** A request from the master, and the response unless it has asked all slaves. */
    method Exchange(to: int, unit: bv8, data: array<bv8>, size: nat) returns (rxCount: int, ghost buf: seq<bv8>)
      requires Idle() && 0 < size <= MAX_RTU_PDU && data.Length == MAX_PDU_SIZE && (to == 0 ==> unit == 0)
      requires data != buffer && data != slave.coils.bytes && data != slave.inputs.bytes
      requires unit == own ==> Short(slave.View(), data[..size])
      modifies this`frames, Devices(), data, slave.coils.bytes, slave.holding.regs
      ensures Idle()
      ensures |buf| == MAX_PDU_SIZE && buf[..size] == old(data[..size]) && Spec.ValidStore(old(slave.View()))
      ensures if unit == own then
          var (s', response) := Spec.Handle(old(slave.View()), buf, size, false);
          slave.View() == s' && rxCount == |response| <= MAX_RTU_PDU && data[..rxCount] == response
        else
          && slave.View() == (if unit == 0 then Spec.Handle(old(slave.View()), buf, size, true).0
                              else old(slave.View()))
          && rxCount == (if to == 0 then 0 else ETIMEOUT) && data[..] == old(data[..])
    {
      hide Spec.Handle, Spec.ValidStore, Frame, AllTake, Works, Timely, Short;
      ghost var pdu := data[..size];
      var bytes := Emit(masterOut, masterIn, unit, data, size);
      var answered, reply;
      ghost var response;
      answered, reply, buf, response := Serve(bytes, unit, pdu);
      rxCount := 0;
      if to != 0 {
        if answered {
          rxCount := TakeFrame(masterIn, unit, data, timing, frames, reply, own, response);
          frames := frames + 1;
        } else {
          rxCount := TakeNothing(masterIn, unit, data);
        }
      }
    }
  }

  /** The response to a PDU fits a frame, whatever else lies in the buffer. */
  ghost predicate Short(s: Spec.Store, pdu: seq<bv8>) {
    Spec.ValidStore(s) &&
    forall buf :: |buf| == MAX_PDU_SIZE && |pdu| <= MAX_PDU_SIZE && pdu <= buf ==>
      |Spec.Handle(s, buf, |pdu|, false).1| <= MAX_RTU_PDU
  }
}
