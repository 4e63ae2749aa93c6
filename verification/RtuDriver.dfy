/** The receive side of src/mb_rtu.c as it is written: flags and FIFO shared with the hook and the
    timers, and mb_rtu_rx as the loops it is.

    What the other threads do, and when mb_rtu_rx gets to make its next access, is a schedule
    fixed beforehand; proving the loops for every schedule covers every interleaving. */
module RtuDriver {
  import opened Crc
  import opened CrcSpec
  import opened Errors
  import opened RtuMachine

  lemma {:induction false} LegalHead(s: State, es: seq<Event>)
    requires es != [] && Legal(s, es)
    ensures Enabled(s, es[0]) && Legal(Next(s, es[0]), es[1..])
    ensures Exec(Next(s, es[0]), es[1..]) == Exec(s, es)
    decreases |es|
  {
    hide Next, Enabled;
    var n := |es| - 1;
    if n == 0 {
      assert es[..0] == [];
      assert Exec(s, es[..0]) == s;
    } else {
      LegalHead(s, es[..n]);
      assert es[..n][1..] == es[1..n] && es[1..][..n - 1] == es[1..n];
      assert es[..n][0] == es[0] && es[1..][n - 1] == es[n];
    }
  }

  lemma OnlyRxEnds(s: State, e: Event)
    requires Enabled(s, e) && e != Rx && (e == Timeout ==> s.rx.pc != WaitFirst)
    ensures Next(s, e).rx == s.rx
  {
  }

  predicate IsRefusal(error: int) {
    error == EFRAME_NOK || error == ESLAVE_ID || error == ECRC_FAIL
  }

  class Port {
    var fifo: seq<bv8>
    var rxAvail: bool
    var t1p5: bool
    var t3p5: bool
    var broadcast: bool
    var owed: nat
    var hook: Hook
    var t1Running: bool
    var t3Running: bool
    // what is still to happen; Rx is mb_rtu_rx's turn
    var schedule: seq<Event>

    /** An idle line; T3P5 may still be set, as mb_rtu_tx leaves it. */
    constructor (t3p5: bool, schedule: seq<Event>)
      ensures LineState() == Line([], false, false, t3p5, 0, Idle, false, false)
      ensures this.schedule == schedule && !broadcast
    {
      fifo, rxAvail, t1p5, this.t3p5, broadcast := [], false, false, t3p5, false;
      owed, hook, t1Running, t3Running, this.schedule := 0, Idle, false, false, schedule;
    }

    function LineState(): Line
      reads this
    {
      Line(fifo, rxAvail, t1p5, t3p5, owed, hook, t1Running, t3Running)
    }

    /** The port is in the machine's state s, from which the schedule can be followed until
        mb_rtu_rx returns with the answer of final. */
    ghost predicate At(s: State, final: State)
      reads this
    {
      LineState() == s.line && Inv(s) && !s.rx.pc.Done?
      && Legal(s, schedule) && Exec(s, schedule) == final && final.rx.pc.Done?
    }

    /** A byte arrives, the hook makes its next statement, or a timer callback sets its flag. */
    method Interrupt(e: Event, ghost s: State)
      requires LineState() == s.line && Enabled(s, e) && e != Rx && e != Timeout
      modifies this
      ensures LineState() == Next(s, e).line
      ensures schedule == old(schedule) && broadcast == old(broadcast)
    {
      match e
      case Push(b) => fifo, owed := fifo + [b], owed + 1;
      case HookStart(n) => hook, owed, t1Running, t3Running := Started, owed - n, true, true;
      case HookClear => hook, t1p5, t3p5 := Cleared, false, false;
      case HookRaise => hook, rxAvail := Idle, true;
      case T1P5 => t1p5, t1Running := true, false;
      case T3P5 => t3p5, t3Running := true, false;
    }

    /** Everything that happens before mb_rtu_rx's next turn. */
    method Turn(ghost s: State, ghost final: State) returns (timedOut: bool, ghost t: State)
      requires At(s, final)
      modifies this
      ensures LineState() == t.line && t.rx == s.rx && broadcast == old(broadcast)
      ensures timedOut ==>
        s.rx.pc == WaitFirst && final.rx == s.rx.(pc := Done(ETIMEOUT)) && final.line == LineState()
      ensures !timedOut ==>
        At(t, final) && schedule != [] && schedule[0] == Rx && |schedule| <= old(|schedule|)
    {
      hide RxStep, AfterRead, Inv;
      t := s;
      DoneNeedsEvents(t, schedule);
      while schedule[0] != Rx
        invariant At(t, final) && t.rx == s.rx && broadcast == old(broadcast)
        invariant 0 < |schedule| <= old(|schedule|)
        decreases |schedule|
      {
        var e := schedule[0];
        LegalHead(t, schedule);
        if e == Timeout {
          DoneStays(Next(t, e), schedule[1..]);
          return true, t;
        }
        OnlyRxEnds(t, e);
        StepInv(t, e);
        Interrupt(e, t);
        t := Next(t, e);
        schedule := schedule[1..];
        DoneNeedsEvents(t, schedule);
      }
      timedOut := false;
    }

    /** mb_rtu_rx has made its access; the schedule moves on. */
    method Advance(ghost t: State, ghost final: State)
      requires LineState() == RxStep(t).line && !t.rx.pc.Done? && Inv(t)
      requires schedule != [] && schedule[0] == Rx
      requires Legal(t, schedule) && Exec(t, schedule) == final && final.rx.pc.Done?
      modifies this`schedule
      ensures |schedule| < old(|schedule|)
      ensures if RxStep(t).rx.pc.Done? then final == RxStep(t) else At(RxStep(t), final)
    {
      hide RxStep, Inv;
      LegalHead(t, schedule);
      NextRx(t);
      schedule := schedule[1..];
      if RxStep(t).rx.pc.Done? {
        DoneStays(RxStep(t), schedule);
      } else {
        StepInv(t, Rx);
      }
    }

    /** os_event_wait: the flags when it returns. */
    method OsEventWait(ghost s: State, ghost final: State)
      returns (timedOut: bool, rx: bool, t1: bool, t3: bool, ghost t: State)
      requires At(s, final) && Waiting(s.rx)
      modifies this
      ensures broadcast == old(broadcast) && t.rx == s.rx
      ensures timedOut ==>
        s.rx.pc == WaitFirst && final.rx == s.rx.(pc := Done(ETIMEOUT)) && final.line == LineState()
      ensures !timedOut ==>
        && At(RxStep(t), final) && |schedule| < old(|schedule|)
        && t.line == LineState() && rx == rxAvail && t1 == t1p5 && t3 == t3p5 && Ready(t)
        && RxStep(t) == t.(rx := AfterWait(t.line, t.rx))
    {
      hide Inv, AfterWait, AfterRead;
      timedOut, t := Turn(s, final);
      rx, t1, t3 := rxAvail, t1p5, t3p5;
      if !timedOut {
        assert RxStep(t) == t.(rx := AfterWait(t.line, t.rx));
        WaitNotDone(t);
        LegalHead(t, schedule);
        Advance(t, final);
      }
    }

    /** os_event_clr (FLAG_RX_AVAIL) in mb_rtu_read. */
    method ClearRxAvail(site: Site, ghost s: State, ghost final: State) returns (ghost t: State)
      requires At(s, final) && s.rx.pc == Clear(site)
      modifies this
      ensures At(t, final) && |schedule| < old(|schedule|) && broadcast == old(broadcast)
      ensures t.rx == s.rx.(pc := Avail(site))
    {
      hide Inv, AfterRead, AfterWait;
      ghost var m;
      var timedOut;
      timedOut, m := Turn(s, final);
      rxAvail := false;
      Advance(m, final);
      t := RxStep(m);
    }

    /** os_rtu_rx_avail in mb_rtu_read. */
    method OsRtuRxAvail(site: Site, ghost s: State, ghost final: State)
      returns (navail: nat, ghost t: State)
      requires At(s, final) && s.rx.pc == Avail(site)
      modifies this
      ensures At(t, final) && |schedule| < old(|schedule|) && broadcast == old(broadcast)
      ensures t.rx == s.rx.(navail := navail,
                            pc := if navail > Size(s.rx, site) then Raise(site) else Read(site))
    {
      hide Inv, AfterRead, AfterWait;
      ghost var m;
      var timedOut;
      timedOut, m := Turn(s, final);
      navail := |fifo|;
      Advance(m, final);
      t := RxStep(m);
    }

    /** os_event_set (FLAG_RX_AVAIL) in mb_rtu_read. */
    method RaiseRxAvail(site: Site, ghost s: State, ghost final: State) returns (ghost t: State)
      requires At(s, final) && s.rx.pc == Raise(site)
      modifies this
      ensures At(t, final) && |schedule| < old(|schedule|) && broadcast == old(broadcast)
      ensures t.rx == s.rx.(navail := Size(s.rx, site), pc := Read(site))
    {
      hide Inv, AfterRead, AfterWait;
      ghost var m;
      var timedOut;
      timedOut, m := Turn(s, final);
      rxAvail := true;
      Advance(m, final);
      t := RxStep(m);
    }

    /** os_rtu_read. */
    method OsRtuRead(buffer: array<bv8>, from: nat, navail: nat, site: Site, ghost s: State, ghost final: State)
      returns (ghost t: State)
      requires At(s, final) && s.rx.pc == Read(site) && s.rx.navail == navail
      requires from + Size(s.rx, site) <= buffer.Length
      modifies this, buffer
      ensures At(t, final) && |schedule| < old(|schedule|) && broadcast == old(broadcast)
      ensures navail <= Size(s.rx, site) && (site == Id ==> navail == 1)
      ensures forall k :: 0 <= k < buffer.Length && !(from <= k < from + navail) ==> buffer[k] == old(buffer[k])
      ensures t.rx == Take(s.rx, site, buffer[from..from + navail])
    {
      hide Inv, Take, AfterWait;
      ghost var m;
      var timedOut;
      timedOut, m := Turn(s, final);
      AtReadFits(m);
      ghost var chunk := fifo[..navail];
      forall k | 0 <= k < navail {
        buffer[from + k] := fifo[k];
      }
      fifo := fifo[navail..];
      assert buffer[from..from + navail] == chunk;
      TakeNotDone(m, site, chunk);
      Advance(m, final);
      t := RxStep(m);
    }

    /** mb_rtu_read, lines 156-177: clear the flag, see how much there is, raise the flag again
        if it is too much, and read. */
    method MbRtuRead(buffer: array<bv8>, from: nat, size: nat, site: Site, ghost s: State, ghost final: State)
      returns (nread: nat, ghost t: State)
      requires At(s, final) && s.rx.pc == Clear(site)
      requires size == Size(s.rx, site) && from + size <= buffer.Length
      modifies this, buffer
      ensures At(t, final) && |schedule| < old(|schedule|) && broadcast == old(broadcast)
      ensures nread <= size && (site == Id ==> nread == 1)
      ensures forall k :: 0 <= k < buffer.Length && !(from <= k < from + nread) ==> buffer[k] == old(buffer[k])
      ensures t.rx == Take(s.rx.(navail := nread, pc := Read(site)), site, buffer[from..from + nread])
    {
      hide Inv, Take, Port.At;
      var navail;
      t := ClearRxAvail(site, s, final);
      navail, t := OsRtuRxAvail(site, t, final);
      if navail > size {
        t := RaiseRxAvail(site, t, final);
        navail := size;
      }
      t := OsRtuRead(buffer, from, navail, site, t, final);
      nread := navail;
    }
  
    /** Line 341, the last access. */
    method ClearFlags(ghost s: State, ghost final: State)
      requires At(s, final) && s.rx.pc == FinalClear
      modifies this
      ensures final.rx == s.rx.(pc := Done(Result(s.rx)))
      ensures LineState() == final.line && broadcast == old(broadcast)
    {
      hide Inv, AfterRead, AfterWait;
      ghost var m;
      var timedOut;
      timedOut, m := Turn(s, final);
      t1p5, t3p5, rxAvail := false, false, false;
      Advance(m, final);
    }

    /** The receive loop, lines 287-302: every byte until T1P5. */
    method ReceiveBody(data: array<bv8>, ghost s0: State, ghost final: State)
      returns (count: nat, ghost r: Receiver, ghost s: State)
      requires data.Length == MAX_PDU_SIZE
      requires At(s0, final) && s0.rx.pc == WaitBody && s0.rx.data == []
      modifies this, data
      ensures At(s, final) && broadcast == old(broadcast)
      ensures s.rx == Verify(r) && count <= MAX_PDU_SIZE && r.data == data[..count]
      ensures r.slaveRx == s0.rx.slaveRx && r.unit == s0.rx.unit && r.frameOk == s0.rx.frameOk
    {
      hide Inv, Verify, Port.At;
      count := 0;
      s := s0;
      while true
        invariant At(s, final) && s.rx.pc == WaitBody && broadcast == old(broadcast)
        invariant count <= MAX_PDU_SIZE && s.rx.data == data[..count]
        invariant s.rx.slaveRx == s0.rx.slaveRx && s.rx.unit == s0.rx.unit && s.rx.frameOk == s0.rx.frameOk
        decreases |schedule|
      {
        var timedOut, rx, t1, t3;
        var nread;
        ghost var m;
        timedOut, rx, t1, t3, m := OsEventWait(s, final);
        s := RxStep(m);
        r := m.rx.(sawT1 := t1);
        if rx {
          ghost var before := data[..count];
          nread, s := MbRtuRead(data, count, MAX_PDU_SIZE - count, Body, s, final);
          assert data[..count] == before;
          assert data[..count + nread] == before + data[count..count + nread];
          r := r.(navail := nread, pc := Read(Body), data := data[..count + nread]);
          count := count + nread;
        }
        if t1 {
          break;
        }
      }
    }

    /** The wait for the end of the frame, lines 323-339: any further byte spoils it. */
    method AwaitEnd(data: array<bv8>, count: nat, frameOk0: bool, error0: int, ghost s0: State, ghost final: State)
      returns (frameOk: bool, error: int, ghost s: State)
      requires data.Length == MAX_PDU_SIZE
      requires At(s0, final) && s0.rx.pc == WaitEnd
      requires count <= MAX_PDU_SIZE && s0.rx.data == data[..count]
      requires frameOk0 == s0.rx.frameOk && (!frameOk0 ==> error0 == s0.rx.error && IsRefusal(error0))
      modifies this, data
      ensures At(s, final) && s.rx.pc == FinalClear && broadcast == old(broadcast)
      ensures s.rx.data == data[..count] && s.rx.broadcast == s0.rx.broadcast
      ensures frameOk == s.rx.frameOk && (!frameOk ==> error == s.rx.error && IsRefusal(error))
    {
      hide Inv, Verify, Port.At;
      frameOk, error, s := frameOk0, error0, s0;
      while true
        invariant At(s, final) && s.rx.pc == WaitEnd && broadcast == old(broadcast)
        invariant s.rx.data == data[..count] && s.rx.broadcast == s0.rx.broadcast
        invariant frameOk == s.rx.frameOk && (!frameOk ==> error == s.rx.error && IsRefusal(error))
        decreases |schedule|
      {
        var timedOut, rx, t1, t3;
        var nread;
        ghost var m;
        timedOut, rx, t1, t3, m := OsEventWait(s, final);
        s := RxStep(m);
        if rx {
          error, frameOk := EFRAME_NOK, false;
          ghost var before := data[..count];
          nread, s := MbRtuRead(data, count, MAX_PDU_SIZE - count, End, s, final);
          assert data[..count] == before;
        }
        if t3 {
          break;
        }
      }
    }

    /** The first byte and the CRC so far, lines 260-284. */
    method ReceiveId(ghost s0: State, ghost final: State)
      returns (timedOut: bool, slaveRx: bv8, crc: bv16, ghost s: State)
      requires Begins(s0) && At(s0, final)
      modifies this
      ensures timedOut ==>
        final.rx == s0.rx.(pc := Done(ETIMEOUT)) && final.line == LineState() && broadcast == old(broadcast)
      ensures !timedOut ==>
        && At(s, final) && broadcast == old(broadcast)
        && s.rx.pc == WaitBody && s.rx.data == [] && s.rx.frameOk
        && s.rx.slaveRx == slaveRx && s.rx.unit == s0.rx.unit
        && crc == BitwiseCrc([slaveRx], 0xFFFF)
    {
      hide Inv, Verify, BitwiseCrc;
      BeginsEmpty(s0);
      var rx, t1, t3;
      ghost var m;
      timedOut, rx, t1, t3, m := OsEventWait(s0, final);
      s := m;
      if timedOut {
        slaveRx, crc := 0, 0;
        return;
      }
      var id := new bv8[1];
      var nread;
      nread, s := MbRtuRead(id, 0, 1, Id, RxStep(m), final);
      slaveRx := id[0];
      crc := MbCrc(id, 0, 1, 0xFFFF);
      assert id[0..1] == [slaveRx];
    }

    /** mb_rtu_rx_avail */
    method MbRtuRxAvail() returns (available: bool)
      ensures available == (fifo != [])
    {
      available := |fifo| > 0;
    }

    /** The end of mb_rtu_tx, lines 217-228: the flags are cleared, and T3P5 is started and waited for. */
    method AwaitT3P5()
      modifies this`t1p5, this`t3p5
      ensures LineState() == old(LineState()).(t1p5 := false, t3p5 := true)
    {
      t1p5, t3p5 := false, false;
      t3p5 := true;
    }

    /** mb_rtu_rx. */
    method MbRtuRx(unit: bv8, data: array<bv8>, ghost s0: State, ghost final: State) returns (result: int)
      requires data.Length == MAX_PDU_SIZE
      requires Begins(s0) && At(s0, final) && s0.rx.unit == unit
      modifies this, data
      ensures final.rx.pc == Done(result)
      ensures LineState() == final.line
      ensures if result == ETIMEOUT then broadcast == old(broadcast) && data[..] == old(data[..])
              else broadcast == final.rx.broadcast
      ensures |final.rx.data| <= MAX_PDU_SIZE && data[..|final.rx.data|] == final.rx.data
    {
      hide Inv, Verify, BitwiseCrc, Legal, Exec;
      var timedOut, slaveRx, crc, count, frameOk, error;
      ghost var r, s;
      BeginsEmpty(s0);
      timedOut, slaveRx, crc, s := ReceiveId(s0, final);
      if timedOut {
        return ETIMEOUT;
      }
      count, r, s := ReceiveBody(data, s, final);
      crc := MbCrc(data, 0, count, crc);
      assert data[0..count] == r.data;
      frameOk, error := Check(crc, slaveRx, unit, r);
      broadcast := slaveRx == 0;
      assert At(s, final);
      frameOk, error, s := AwaitEnd(data, count, frameOk, error, s, final);
      ClearFlags(s, final);
      assert |data[..count]| == count;
      return if !frameOk then error else count - 2;
    }
  }

  /** Lines 306-317. */
  method Check(crc: bv16, slaveRx: bv8, unit: bv8, ghost r: Receiver) returns (frameOk: bool, error: int)
    requires crc == BitwiseCrc(r.data, BitwiseCrc([r.slaveRx], 0xFFFF))
    requires slaveRx == r.slaveRx && unit == r.unit && r.frameOk
    ensures Verify(r).pc == WaitEnd && Verify(r).data == r.data
    ensures frameOk == Verify(r).frameOk && (!frameOk ==> error == Verify(r).error && IsRefusal(error))
    ensures Verify(r).broadcast == (slaveRx == 0)
  {
    hide BitwiseCrc, Verify;
    VerifyIs(r);
    frameOk, error := true, 0;
    if crc != 0 {
      error, frameOk := ECRC_FAIL, false;
    }
    if slaveRx != unit && slaveRx != 0 {
      error, frameOk := ESLAVE_ID, false;
    }
  }

  lemma VerifyIs(r: Receiver)
    ensures var crc := BitwiseCrc(r.data, BitwiseCrc([r.slaveRx], 0xFFFF));
      var idBad := r.slaveRx != r.unit && r.slaveRx != 0;
      && Verify(r).pc == WaitEnd && Verify(r).data == r.data
      && Verify(r).frameOk == (r.frameOk && crc == 0 && !idBad)
      && (idBad ==> Verify(r).error == ESLAVE_ID)
      && (!idBad && crc != 0 ==> Verify(r).error == ECRC_FAIL)
      && Verify(r).broadcast == (r.slaveRx == 0)
  {
    hide BitwiseCrc;
  }

  lemma WaitNotDone(s: State)
    requires Waiting(s.rx)
    ensures !AfterWait(s.line, s.rx).pc.Done?
  {
    hide Verify;
    VerifyKeeps(s.rx.(sawT1 := true));
  }

  lemma TakeNotDone(s: State, site: Site, chunk: seq<bv8>)
    ensures !Take(s.rx, site, chunk).pc.Done?
  {
    hide Verify;
    VerifyKeeps(s.rx.(data := s.rx.data + chunk));
  }

  lemma AtReadFits(s: State)
    requires Inv(s) && s.rx.pc.Read?
    ensures s.rx.navail <= |s.line.fifo| && s.rx.navail <= Size(s.rx, s.rx.pc.site)
    ensures s.rx.pc == Read(Id) ==> s.rx.navail == 1
  {
    hide Conserved, Times;
  }

  lemma NextRx(s: State)
    requires Enabled(s, Rx)
    ensures Next(s, Rx) == RxStep(s)
  {
    hide RxStep;
  }

  lemma DoneNeedsEvents(s: State, es: seq<Event>)
    requires Legal(s, es) && Exec(s, es).rx.pc.Done? && !s.rx.pc.Done?
    ensures es != []
  {
    hide Next;
  }

  lemma DoneStays(s: State, es: seq<Event>)
    requires s.rx.pc.Done? && Legal(s, es)
    ensures es == []
  {
    if es != [] {
      LegalHead(s, es);
    }
  }
}
