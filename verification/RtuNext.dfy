/** What a reception leaves to the next call of mb_rtu_rx (src/mb_rtu.c:341). The flags are cleared,
    but a byte, a hook call or a timer may be left; exactly when that goes wrong, and runs in which
    it does. */
module RtuNext {
  import opened CrcSpec
  import opened Errors
  import opened RtuFrame
  import opened RtuMachine
  import opened RtuReception

  // ---- a call that goes right -------------------------------------------------------------------

  /** No further byte comes, and mb_rtu_rx does not time out. */
  predicate Alone(es: seq<Event>) {
    forall e :: e in es ==> !e.Push? && e != Timeout
  }

  ghost predicate CanEnd(t: State) {
    exists es :: Alone(es) && Legal(t, es) && Exec(t, es).rx.pc.Done?
  }

  /** A call that has returned, but for a timeout, has received something, and if no byte was late it
      says of that what it must. A call under way, or with bytes there, can end without a further byte. */
  ghost predicate GoesRight(s: State, es: seq<Event>)
    requires Legal(s, es)
  {
    var t := Exec(s, es);
    if t.rx.pc.Done? then
      es != [] && es[|es| - 1] == Rx ==>
        t.log.sent != [] && (!t.log.late ==> t.rx.pc == Done(Outcome(t.log.sent, s.rx.unit)))
    else t.rx.pc != WaitFirst || t.log.sent != [] ==> CanEnd(t)
  }

  /** Every run of a call that starts in s goes right. */
  ghost predicate AllGoRight(s: State) {
    forall es :: Legal(s, es) ==> GoesRight(s, es)
  }

  /** Whatever the reception before, refused or not: every run of the next call goes right if and only
      if the line is settled. */
  lemma NextGoesRightIff(s: State, es: seq<Event>, unit: bv8)
    requires Received(s, es)
    ensures AllGoRight(NextReception(Exec(s, es), unit)) <==> Settled(Exec(s, es).line)
  {
    hide GoesRight, Settled, Exec, Begins, Legal;
    var next := NextReception(Exec(s, es), unit);
    if Settled(Exec(s, es).line) {
      NextBeginsIff(s, es, unit);
      forall more | Legal(next, more) ensures GoesRight(next, more) {
        BegunGoesRight(next, more);
      }
    } else {
      var more := GoesWrong(s, es, unit);
    }
  }

  // ---- on a settled line -------------------------------------------------------------------------

  lemma BegunGoesRight(s: State, es: seq<Event>)
    requires Begins(s) && Legal(s, es)
    ensures GoesRight(s, es)
  {
    hide Exec, Clean, Refusing, Conserved, CanEnd, Outcome, RxStep;
    var t := Exec(s, es);
    if !t.rx.pc.Done? {
      RunInv(s, es);
      if t.rx.pc != WaitFirst || t.log.sent != [] {
        EndsAlone(t);
      }
    } else if es != [] && es[|es| - 1] == Rx {
      ReceivedSomething(s, es);
      if !t.log.late {
        ChunkingDoesNotMatter(s, es);
      }
    }
  }

  lemma ReceivedSomething(s: State, es: seq<Event>)
    requires Received(s, es)
    ensures Exec(s, es).log.sent != []
  {
    hide Exec, Clean, Refusing, Conserved, Outcome;
    LastStep(s, es);
  }

  /** How much is still to happen before both timers have fired. */
  function Unrest(line: Line): nat {
    (if line.owed > 0 then 10 else 0)
    + (match line.hook case Idle => 0 case Cleared => 1 case Started => 2)
    + (if line.t1Running then 1 else 0) + (if line.t3Running then 1 else 0)
  }

  lemma {:induction false} EndsAlone(t: State)
    requires Inv(t) && t.log.sent != [] && !t.rx.pc.Done?
    ensures CanEnd(t)
    decreases Unrest(t.line)
  {
    hide RxStep, Conserved, Inv;
    if t.line.t1p5 && t.line.t3p5 && Quiet(t.line) {
      var es := Completes(t);
      assert Alone(es);
    } else {
      var e := Settling(t);
      StepInv(t, e);
      EndsAlone(Next(t, e));
      CanEndAfter(t, e);
    }
  }

  lemma Settling(t: State) returns (e: Event)
    requires Inv(t) && t.log.sent != [] && !t.rx.pc.Done?
    requires !(t.line.t1p5 && t.line.t3p5 && Quiet(t.line))
    ensures !e.Push? && e != Timeout && e != Rx && Enabled(t, e)
    ensures Unrest(Next(t, e).line) < Unrest(t.line) && Next(t, e).log.sent == t.log.sent
    ensures !Next(t, e).rx.pc.Done?
  {
    hide RxStep, Conserved, Wakes;
    var line := t.line;
    if line.hook == Started {
      e := HookClear;
    } else if line.hook == Cleared {
      e := HookRaise;
    } else if line.owed > 0 {
      e := HookStart(line.owed);
    } else if line.t1Running {
      e := T1P5;
    } else {
      e := T3P5;
    }
  }

  lemma CanEndAfter(t: State, e: Event)
    requires Enabled(t, e) && !e.Push? && e != Timeout && CanEnd(Next(t, e))
    ensures CanEnd(t)
  {
    hide Next, Enabled, Exec, Legal;
    var es :| Alone(es) && Legal(Next(t, e), es) && Exec(Next(t, e), es).rx.pc.Done?;
    ExecCons(t, e, es);
    assert Alone([e] + es);
  }

  // ---- on a line that is not ---------------------------------------------------------------------

  /** T3P5 will not come without a further byte. */
  predicate NoT3(t: State) {
    && Quiet(t.line) && !t.line.t3Running && !t.line.t3p5 && !t.rx.sawT3
    && t.rx.pc != FinalClear && !t.rx.pc.Done?
  }

  /** Nor will a flag for the first wait. */
  predicate Unheard(t: State) {
    t.rx.pc == WaitFirst && Quiet(t.line) && !t.line.t1Running && !t.line.t1p5 && !t.line.rxAvail
  }

  lemma StepNoT3(t: State, e: Event)
    requires NoT3(t) && Enabled(t, e) && !e.Push? && e != Timeout
    ensures NoT3(Next(t, e))
  {
    hide Verify;
    VerifyKeeps(t.rx.(sawT1 := true));
    if t.rx.pc.Read? {
      var n := if t.rx.navail <= |t.line.fifo| then t.rx.navail else |t.line.fifo|;
      VerifyKeeps(t.rx.(data := t.rx.data + t.line.fifo[..n]));
    }
  }

  lemma StepUnheard(t: State, e: Event)
    requires Unheard(t) && Enabled(t, e) && !e.Push? && e != Timeout
    ensures Unheard(Next(t, e))
  {
  }

  lemma {:induction false} NeverEnds(t: State, es: seq<Event>)
    requires (NoT3(t) || Unheard(t)) && Alone(es) && Legal(t, es)
    ensures NoT3(Exec(t, es)) || Unheard(Exec(t, es))
    decreases |es|
  {
    hide NoT3, Unheard, Next, Enabled;
    if es != [] {
      var init, e := es[..|es| - 1], es[|es| - 1];
      assert e in es;
      NeverEnds(t, init);
      if NoT3(Exec(t, init)) {
        StepNoT3(Exec(t, init), e);
      } else {
        StepUnheard(Exec(t, init), e);
      }
    }
  }

  lemma CannotEnd(t: State)
    requires NoT3(t) || Unheard(t)
    ensures !CanEnd(t)
  {
    forall es | Alone(es) && Legal(t, es) ensures !Exec(t, es).rx.pc.Done? {
      NeverEnds(t, es);
    }
  }

  /** A receiver at its first wait whose flags have been cleared, and no more known of it. */
  predicate Restarted(t: State) {
    && t.rx.pc == WaitFirst && t.rx.data == [] && t.rx.frameOk && !t.rx.sawT1 && !t.rx.sawT3
    && !t.line.rxAvail && !t.line.t1p5 && !t.line.t3p5
    && (t.line.hook != Idle ==> t.line.t1Running && t.line.t3Running)
    && t.log.sent == t.line.fifo
  }

  lemma NextRestarts(s: State, es: seq<Event>, unit: bv8)
    requires Received(s, es)
    ensures Restarted(NextReception(Exec(s, es), unit))
  {
    hide Exec, Clean, Refusing, Conserved, Result;
    LastStep(s, es);
  }

  /** With nothing in the FIFO, but a hook call or T1P5 still to come: the call goes on as if something
      had come, and judges whatever lies in slave_rx. */
  lemma ReceivesNothing(s: State) returns (es: seq<Event>)
    requires Restarted(s) && s.line.fifo == [] && (!Quiet(s.line) || (s.line.t1Running && s.line.t3Running))
    ensures Legal(s, es) && es != [] && es[|es| - 1] == Rx
    ensures Exec(s, es).rx.pc == Done(if Concerns(s.rx.slaveRx, s.rx.unit) then ECRC_FAIL else ESLAVE_ID)
    ensures Exec(s, es).log.sent == []
  {
    hide Exec, Verify, RxStep, Outcome, Judged;
    ExecNone(s);
    es := [];
    if Quiet(s.line) {
      Snoc(s, es, T1P5);
      es := es + [T1P5];
    } else {
      es := HooksEnd(s);
    }
    es := ReadsNoId(s, es);
    es := LeavesLoop(s, es, [s.rx.slaveRx]);
    es := Finishes(s, es, [s.rx.slaveRx]);
    AddressAlone(s.rx.slaveRx, s.rx.unit);
  }

  predicate Concerns(slaveRx: bv8, unit: bv8) {
    slaveRx == unit || slaveRx == 0
  }

  lemma AddressAlone(slaveRx: bv8, unit: bv8)
    ensures Outcome([slaveRx], unit) == if Concerns(slaveRx, unit) then ECRC_FAIL else ESLAVE_ID
  {
    hide BitwiseCrc;
    ShortFrames([slaveRx], unit);
  }

  /** All hook calls that are due. */
  lemma HooksEnd(s: State) returns (es: seq<Event>)
    requires Restarted(s) && !Quiet(s.line)
    ensures Legal(s, es)
    ensures Exec(s, es).line == Line(s.line.fifo, true, false, false, 0, Idle, true, true)
    ensures Exec(s, es).rx == s.rx && Exec(s, es).log == s.log
  {
    hide Exec, RxStep, Legal;
    ExecNone(s);
    es := [];
    if s.line.hook != Idle {
      es := HookEnds(s, es);
    }
    if s.line.owed > 0 {
      Snoc(s, es, HookStart(s.line.owed));
      es := HookEnds(s, es + [HookStart(s.line.owed)]);
    }
  }

  /** The rest of a hook call. */
  lemma HookEnds(s: State, es: seq<Event>) returns (es': seq<Event>)
    requires Legal(s, es) && Exec(s, es).line.hook != Idle && !Exec(s, es).rx.pc.Done?
    requires var line := Exec(s, es).line; line.hook == Cleared ==> !line.t1p5 && !line.t3p5
    ensures Legal(s, es')
    ensures var m, t := Exec(s, es), Exec(s, es');
      t == m.(line := m.line.(hook := Idle, rxAvail := true, t1p5 := false, t3p5 := false))
  {
    hide Exec, RxStep, Legal;
    es' := es;
    if Exec(s, es).line.hook == Started {
      Snoc(s, es', HookClear);
      es' := es' + [HookClear];
    }
    Snoc(s, es', HookRaise);
    es' := es' + [HookRaise];
  }

  /** mb_rtu_rx wakes at its first wait with nothing in the FIFO. */
  lemma ReadsNoId(s: State, es: seq<Event>) returns (es': seq<Event>)
    requires Legal(s, es)
    requires var m := Exec(s, es); m.rx.pc == WaitFirst && (m.line.rxAvail || m.line.t1p5) && m.line.fifo == []
    ensures Legal(s, es')
    ensures var m, t := Exec(s, es), Exec(s, es');
      && t.line == m.line.(rxAvail := false) && t.log == m.log && t.rx == m.rx.(pc := WaitBody, navail := 0)
  {
    hide Exec, Verify, RxStep;
    var m := Exec(s, es);
    es' := es + [Rx, Rx, Rx, Rx];
    StepFromFirst(m);
    var m1 := RxStep(m);
    StepFromClear(m1, Id);
    StepFromAvail(RxStep(m1), Id);
    StepFromNothing(RxStep(RxStep(m1)));
    FourSteps(s, es);
  }

  lemma StepFromFirst(m: State)
    requires m.rx.pc == WaitFirst && (m.line.rxAvail || m.line.t1p5)
    ensures Enabled(m, Rx) && RxStep(m) == m.(rx := m.rx.(pc := Clear(Id)))
  {
  }

  lemma StepFromNothing(m: State)
    requires m.rx.pc == Read(Id) && m.line.fifo == [] && m.rx.navail == 0
    ensures Enabled(m, Rx) && RxStep(m) == m.(rx := m.rx.(pc := WaitBody))
  {
    assert m.line.fifo[0..] == m.line.fifo;
  }

  lemma GoesWrong(s: State, es: seq<Event>, unit: bv8) returns (more: seq<Event>)
    requires Received(s, es) && !Settled(Exec(s, es).line)
    ensures Legal(NextReception(Exec(s, es), unit), more)
    ensures !GoesRight(NextReception(Exec(s, es), unit), more)
  {
    hide Exec, Begins, Legal;
    NextRestarts(s, es, unit);
    more := RestartedGoesWrong(NextReception(Exec(s, es), unit));
  }

  lemma RestartedGoesWrong(s: State) returns (es: seq<Event>)
    requires Restarted(s) && !Settled(s.line)
    ensures Legal(s, es) && !GoesRight(s, es)
  {
    hide Exec, RxStep, CanEnd, Outcome, Legal;
    ExecNone(s);
    es := [];
    if s.line.fifo != [] {
      CannotEnd(s);
    } else if Quiet(s.line) && !s.line.t3Running {
      es := WaitsForEnd(s);
    } else {
      es := ReceivesNothing(s);
    }
  }

  /** With only T1P5 to come, the call leaves its first wait and cannot end. */
  lemma WaitsForEnd(s: State) returns (es: seq<Event>)
    requires Restarted(s) && s.line.fifo == [] && Quiet(s.line) && s.line.t1Running && !s.line.t3Running
    ensures Legal(s, es) && Exec(s, es).rx.pc == Clear(Id) && !CanEnd(Exec(s, es))
  {
    hide Exec, RxStep, CanEnd, Legal;
    ExecNone(s);
    Snoc(s, [], T1P5);
    es := [] + [T1P5];
    StepFromFirst(Exec(s, es));
    Snoc(s, es, Rx);
    es := es + [Rx];
    CannotEnd(Exec(s, es));
  }

  // ---- runs that leave such lines ------------------------------------------------------------------

  /** A byte and the whole of the hook call for it, at any moment. */
  lemma Comes(s: State, es: seq<Event>, b: bv8) returns (es': seq<Event>)
    requires Legal(s, es) && Quiet(Exec(s, es).line) && !Exec(s, es).rx.pc.Done?
    ensures Legal(s, es')
    ensures var m, t := Exec(s, es), Exec(s, es');
      && t.rx == m.rx && t.line == Line(m.line.fifo + [b], true, false, false, 0, Idle, true, true)
      && t.log.sent == m.log.sent + [b]
  {
    hide Exec, RxStep;
    Snoc(s, es, Push(b));
    es' := es + [Push(b)];
    Snoc(s, es', HookStart(1));
    es' := es' + [HookStart(1)];
    Snoc(s, es', HookClear);
    es' := es' + [HookClear];
    Snoc(s, es', HookRaise);
    es' := es' + [HookRaise];
  }

  /** Silence after it. */
  lemma Silence(s: State, es: seq<Event>) returns (es': seq<Event>)
    requires Legal(s, es) && !Exec(s, es).rx.pc.Done?
    requires Quiet(Exec(s, es).line) && Exec(s, es).line.t1Running && Exec(s, es).line.t3Running
    ensures Legal(s, es')
    ensures var m, t := Exec(s, es), Exec(s, es');
      && t.rx == m.rx && t.log.sent == m.log.sent
      && t.line == m.line.(t1p5 := true, t3p5 := true, t1Running := false, t3Running := false)
  {
    hide Exec, RxStep;
    Snoc(s, es, T1P5);
    es' := es + [T1P5];
    Snoc(s, es', T3P5);
    es' := es' + [T3P5];
  }

  /** A frame up to the last wait. */
  lemma FrameRead(s: State, unit: bv8, pdu: seq<bv8>) returns (es: seq<Event>)
    requires Initial(s) && |pdu| <= MAX_PDU_SIZE - 2
    ensures Legal(s, es)
    ensures var t := Exec(s, es);
      && t.rx.pc == WaitEnd && t.line == Line([], false, true, false, 0, Idle, false, true)
      && Judged(t.rx, Frame(unit, pdu)) && t.rx.unit == s.rx.unit && t.log.sent == Frame(unit, pdu)
  {
    hide Exec, Verify, RxStep, Outcome, Frame, Judged;
    var frame := Frame(unit, pdu);
    ExecNone(s);
    es := Arrives(s, [], frame);
    assert [] + frame == frame;
    es := ReadsId(s, es);
    es := ReadsBody(s, es);
    es := LeavesLoop(s, es, frame);
  }

  lemma StepFromEnd(m: State)
    requires m.rx.pc == WaitEnd && m.line.rxAvail
    ensures Enabled(m, Rx)
    ensures RxStep(m) ==
      m.(rx := m.rx.(sawT3 := m.line.t3p5, error := EFRAME_NOK, frameOk := false, pc := Clear(End)))
  {
  }

  /** mb_rtu_rx has seen T3P5 and bytes that are too many, and throws away all there are. */
  lemma ThrowsAway(s: State, es: seq<Event>) returns (es': seq<Event>)
    requires Legal(s, es)
    requires var m := Exec(s, es);
      m.rx.pc == Clear(End) && m.rx.sawT3 && Refused(m.rx) && |m.line.fifo| <= Size(m.rx, End)
    ensures Legal(s, es') && es' != [] && es'[|es'| - 1] == Rx
    ensures var m, t := Exec(s, es), Exec(s, es');
      && t.rx.pc == Done(EFRAME_NOK) && t.log.sent == m.log.sent
      && t.line == m.line.(fifo := [], rxAvail := false, t1p5 := false, t3p5 := false)
  {
    hide Exec, RxStep;
    var m := Exec(s, es);
    es' := es + [Rx, Rx, Rx, Rx];
    StepFromClear(m, End);
    var m1 := RxStep(m);
    StepFromAvail(m1, End);
    StepFromLast(RxStep(m1));
    StepFromFinal(RxStep(RxStep(m1)));
    FourSteps(s, es);
  }

  lemma StepFromLast(m: State)
    requires m.rx.pc == Read(End) && m.rx.sawT3 && m.rx.navail == |m.line.fifo|
    ensures Enabled(m, Rx)
    ensures RxStep(m) == State(m.line.(fifo := []), m.rx.(pc := FinalClear),
      m.log.(dropped := m.log.dropped + m.line.fifo))
  {
    assert m.line.fifo[..|m.line.fifo|] == m.line.fifo;
  }

  lemma StepFromFinal(m: State)
    requires m.rx.pc == FinalClear
    ensures Enabled(m, Rx)
    ensures RxStep(m) == m.(line := m.line.(rxAvail := false, t1p5 := false, t3p5 := false),
      rx := m.rx.(pc := Done(Result(m.rx))))
  {
  }

  /** Two bytes too many after a frame, the second one while the receiver already throws them away: they
      are refused, but the timers of the second go on. The next call, with nothing sent, takes their end
      for that of a frame and refuses it, for the address that happens to lie in slave_rx. */
  lemma TimersLeft(s: State, unit: bv8, pdu: seq<bv8>, a: bv8, b: bv8, next: bv8, slaveRx: bv8)
    returns (es: seq<Event>, more: seq<Event>)
    requires Initial(s) && |pdu| <= MAX_PDU_SIZE - 4
    ensures Received(s, es) && Exec(s, es).rx.pc == Done(EFRAME_NOK)
    ensures Exec(s, es).log.sent == Frame(unit, pdu) + [a, b]
    ensures Exec(s, es).line == Line([], false, false, false, 0, Idle, true, true)
    ensures var n := NextReception(Exec(s, es), next);
      var n' := n.(rx := n.rx.(slaveRx := slaveRx));
      && Legal(n', more) && more != [] && more[|more| - 1] == Rx
      && Exec(n', more).rx.pc == Done(if Concerns(slaveRx, next) then ECRC_FAIL else ESLAVE_ID)
      && Exec(n', more).log.sent == []
  {
    hide Exec, RxStep, Outcome, Frame, Begins;
    InitialBegins(s);
    es := FrameRead(s, unit, pdu);
    es := Comes(s, es, a);
    es := Silence(s, es);
    StepFromEnd(Exec(s, es));
    Snoc(s, es, Rx);
    es := Comes(s, es + [Rx], b);
    es := ThrowsAway(s, es);
    assert Frame(unit, pdu) + [a] + [b] == Frame(unit, pdu) + [a, b];
    var n := NextReception(Exec(s, es), next);
    more := ReceivesNothing(n.(rx := n.rx.(slaveRx := slaveRx)));
  }

  /** A byte that comes after the last wait, all of its silence over before the flags are cleared: the
      frame before it is received, and the byte stays in the FIFO with nothing to announce it. The next
      call cannot end, and so not receive it, before another byte comes. */
  lemma ByteLeft(s: State, unit: bv8, pdu: seq<bv8>, b: bv8, next: bv8) returns (es: seq<Event>)
    requires Initial(s) && |pdu| <= MAX_PDU_SIZE - 2 && (unit == s.rx.unit || unit == 0)
    ensures Received(s, es) && Exec(s, es).rx.pc == Done(|pdu|)
    ensures Exec(s, es).log.sent == Frame(unit, pdu) + [b]
    ensures Exec(s, es).line == Line([b], false, false, false, 0, Idle, false, false)
    ensures !CanEnd(NextReception(Exec(s, es), next))
  {
    hide Exec, RxStep, Outcome, Frame, Begins;
    InitialBegins(s);
    es := FrameRead(s, unit, pdu);
    Snoc(s, es, T3P5);
    es := es + [T3P5];
    SeesEnd(Exec(s, es), Frame(unit, pdu));
    Snoc(s, es, Rx);
    es := Comes(s, es + [Rx], b);
    es := Silence(s, es);
    StepFromFinal(Exec(s, es));
    Snoc(s, es, Rx);
    es := es + [Rx];
    RoundTrip(unit, pdu, s.rx.unit);
    assert [] + [b] == [b];
    CannotEnd(NextReception(Exec(s, es), next));
  }

  lemma SeesEnd(m: State, sent: seq<bv8>)
    requires m.rx.pc == WaitEnd && m.line.t3p5 && !m.line.rxAvail && Judged(m.rx, sent)
    ensures Enabled(m, Rx) && RxStep(m) == m.(rx := m.rx.(sawT3 := true, pc := FinalClear))
    ensures Judged(RxStep(m).rx, sent)
  {
    hide Outcome;
  }

  // ---- frames that are too long ----------------------------------------------------------------------

  /** Once the buffer is full nothing more is read, not even to throw it away. */
  ghost predicate Stuffed(t: State) {
    !t.log.late && InEnd(t.rx) && !Fits(t.log) ==> |t.rx.data| == MAX_PDU_SIZE && t.log.dropped == []
  }

  lemma ReadStuffed(t: State)
    requires Inv(t) && Clean(t) && Stuffed(t) && t.rx.pc.Read?
    ensures Stuffed(AfterRead(t, t.rx.pc.site))
  {
    hide Conserved, Judged, Verify;
    Counts(t);
    VerifyKeeps(t.rx.(data := t.rx.data + t.line.fifo[..t.rx.navail]));
  }

  lemma WaitStuffed(t: State)
    requires Inv(t) && Clean(t) && Stuffed(t) && Waiting(t.rx) && Ready(t)
    ensures Stuffed(t.(rx := AfterWait(t.line, t.rx)))
  {
    hide Conserved, Judged, Verify;
    Counts(t);
    VerifyKeeps(t.rx.(sawT1 := true));
  }

  lemma AccessStuffed(t: State)
    requires Stuffed(t) && Reading(t.rx) && !t.rx.pc.Read?
    ensures Stuffed(RxStep(t))
  {
  }

  lemma EventStuffed(t: State, e: Event)
    requires Inv(t) && Stuffed(t) && Enabled(t, e) && e != Rx && e != Timeout
    ensures Stuffed(Next(t, e))
  {
    hide RxStep, Wakes, Conserved;
  }

  lemma StepStuffed(t: State, e: Event)
    requires Inv(t) && Clean(t) && Stuffed(t) && Enabled(t, e) && !Next(t, e).rx.pc.Done?
    ensures Stuffed(Next(t, e))
  {
    hide Inv, Clean, Stuffed, AfterRead, AfterWait, AfterAvail;
    if e != Rx {
      EventStuffed(t, e);
    } else if t.rx.pc.Read? {
      ReadStuffed(t);
    } else if Waiting(t.rx) {
      WaitStuffed(t);
    } else {
      AccessStuffed(t);
    }
  }

  lemma BeginsStuffed(s: State)
    requires Begins(s)
    ensures Stuffed(s)
  {
    hide Inv, Clean, Refusing;
  }

  lemma {:induction false} RunStuffed(s: State, es: seq<Event>)
    requires Begins(s) && Legal(s, es) && !Exec(s, es).rx.pc.Done?
    ensures Stuffed(Exec(s, es))
    decreases |es|
  {
    hide Inv, Clean, Refusing, Next, Stuffed;
    if es == [] {
      BeginsStuffed(s);
    } else {
      var init := es[..|es| - 1];
      RunInv(s, init);
      RunStuffed(s, init);
      StepStuffed(Exec(s, init), es[|es| - 1]);
    }
  }

  /** A frame of more than 253 bytes after the address, none of them late, is refused, and what is too
      much of it stays in the FIFO with nothing to announce it: the next call cannot end before another
      byte comes. */
  lemma OverlongLeaves(s: State, es: seq<Event>, next: bv8)
    requires Received(s, es) && !Exec(s, es).log.late && |Exec(s, es).log.sent| - 1 > MAX_PDU_SIZE
    ensures var t := Exec(s, es);
      && t.rx.pc == Done(EFRAME_NOK)
      && t.line == Line(t.log.sent[1 + MAX_PDU_SIZE..], false, false, false, 0, Idle, false, false)
      && !CanEnd(NextReception(t, next))
  {
    hide Exec, Refusing, Outcome, Conserved;
    ChunkingDoesNotMatter(s, es);
    LastStep(s, es);
    var m := Exec(s, es[..|es| - 1]);
    RunStuffed(s, es[..|es| - 1]);
    TailLeft(m);
    CannotEnd(NextReception(Exec(s, es), next));
  }

  lemma TailLeft(m: State)
    requires Conserved(m) && m.rx.pc == FinalClear && |m.rx.data| == MAX_PDU_SIZE && m.log.dropped == []
    ensures m.line.fifo == m.log.sent[1 + MAX_PDU_SIZE..]
  {
    assert m.log.sent == ([m.rx.slaveRx] + m.rx.data) + m.line.fifo;
  }
}
