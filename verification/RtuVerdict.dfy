/** Exactly when mb_rtu_rx refuses a frame, gaps and late bytes included (src/mb_rtu.c:286-355). */
module RtuVerdict {
  import opened CrcSpec
  import opened Errors
  import opened RtuFrame
  import opened RtuMachine
  import opened RtuReception

  /** The guard of the branch that spoils a frame, line 330: RX_AVAIL is up at the last wait. */
  predicate Guard(m: State) {
    m.rx.pc == WaitEnd && m.line.rxAvail
  }

  /** Some state before the last one was at the guard. */
  ghost predicate Spoiled(s: State, es: seq<Event>)
    requires Legal(s, es)
    decreases |es|
  {
    es != [] && (Spoiled(s, es[..|es| - 1]) || Guard(Exec(s, es[..|es| - 1])))
  }

  /** Between the receive loop and the end a frame is either spoiled or judged by what was read. */
  ghost predicate OnTrack(m: State, spoiled: bool) {
    && (!InEnd(m.rx) ==> !spoiled && !Refused(m.rx))
    && (Refused(m.rx) ==> spoiled)
    && (InEnd(m.rx) && !Refused(m.rx) ==>
          (m.rx.pc == WaitEnd || m.rx.pc == FinalClear) && Judged(m.rx, [m.rx.slaveRx] + m.rx.data))
    && (spoiled && !Refused(m.rx) ==> Guard(m))
  }

  lemma EventOnTrack(m: State, e: Event, spoiled: bool)
    requires OnTrack(m, spoiled) && Enabled(m, e) && e != Rx && e != Timeout
    ensures OnTrack(Next(m, e), spoiled || Guard(m))
  {
    hide RxStep, Judged;
  }

  lemma WaitOnTrack(m: State, spoiled: bool)
    requires Inv(m) && OnTrack(m, spoiled) && Waiting(m.rx) && Ready(m)
    ensures OnTrack(m.(rx := AfterWait(m.line, m.rx)), spoiled || Guard(m))
  {
    hide Conserved, Judged, Verify;
    var sent := [m.rx.slaveRx] + m.rx.data;
    SameJudgement(m.rx, m.rx.(sawT3 := true, pc := FinalClear), sent);
    if m.rx.pc == WaitBody {
      var r := m.rx.(sawT1 := true);
      VerifyKeeps(r);
      VerifyJudges(r, sent);
      VerifyNotRefused(r);
    }
  }

  lemma ReadOnTrack(m: State, site: Site, spoiled: bool)
    requires Inv(m) && OnTrack(m, spoiled) && m.rx.pc == Read(site)
    ensures OnTrack(AfterRead(m, site), spoiled)
  {
    hide Conserved, Judged, Verify;
    if site == Body {
      var r := m.rx.(data := m.rx.data + m.line.fifo[..m.rx.navail]);
      VerifyKeeps(r);
      VerifyJudges(r, [r.slaveRx] + r.data);
      VerifyNotRefused(r);
    }
  }

  lemma AccessOnTrack(m: State, spoiled: bool)
    requires OnTrack(m, spoiled) && Reading(m.rx) && !m.rx.pc.Read?
    ensures OnTrack(RxStep(m), spoiled)
  {
    hide Judged, AfterRead, AfterWait;
  }

  lemma StepOnTrack(m: State, e: Event, spoiled: bool)
    requires Inv(m) && OnTrack(m, spoiled) && Enabled(m, e) && !Next(m, e).rx.pc.Done?
    ensures OnTrack(Next(m, e), spoiled || Guard(m))
  {
    hide Inv, OnTrack, AfterRead, AfterWait, AfterAvail;
    if e != Rx {
      EventOnTrack(m, e, spoiled);
    } else if m.rx.pc.Read? {
      ReadOnTrack(m, m.rx.pc.site, spoiled);
    } else if Waiting(m.rx) {
      WaitOnTrack(m, spoiled);
    } else {
      AccessOnTrack(m, spoiled);
    }
  }

  lemma {:induction false} RunOnTrack(s: State, es: seq<Event>)
    requires Begins(s) && Legal(s, es) && !Exec(s, es).rx.pc.Done?
    ensures OnTrack(Exec(s, es), Spoiled(s, es))
    decreases |es|
  {
    hide Inv, Clean, Refusing, Next, OnTrack;
    if es == [] {
      BeginsOnTrack(s);
    } else {
      var init := es[..|es| - 1];
      RunInv(s, init);
      RunOnTrack(s, init);
      StepOnTrack(Exec(s, init), es[|es| - 1], Spoiled(s, init));
    }
  }

  lemma BeginsOnTrack(s: State)
    requires Begins(s)
    ensures OnTrack(s, false)
  {
    BeginsEmpty(s);
    hide Inv, Clean, Refusing;
  }

  /** The verdict of every reception: EFRAME_NOK if and only if RX_AVAIL was up at some moment of the
      last wait, and otherwise what the address and the bytes in the buffer deserve. */
  lemma RefusedIff(s: State, es: seq<Event>)
    requires Received(s, es)
    ensures var t := Exec(s, es);
      && t.rx.pc == Done(if Spoiled(s, es) then EFRAME_NOK else Outcome([t.rx.slaveRx] + t.rx.data, s.rx.unit))
      && (t.rx.pc == Done(EFRAME_NOK) <==> Spoiled(s, es))
      && |t.rx.data| <= MAX_PDU_SIZE
  {
    hide Clean, Refusing, Exec, Conserved, Times, BitwiseCrc;
    LastStep(s, es);
    var init := es[..|es| - 1];
    var m := Exec(s, init);
    UnitKept(s, init);
    RunOnTrack(s, init);
    assert Spoiled(s, es) == Spoiled(s, init);
  }

  /** When the receiver cannot go on before a hook call raises RX_AVAIL. */
  predicate Looming(m: State) {
    Guard(m) || (m.rx.pc == WaitEnd && !m.line.t3p5 && !Quiet(m.line))
  }

  lemma LoomsOn(m: State, e: Event)
    requires Looming(m) && Enabled(m, e)
    ensures Guard(m) || Looming(Next(m, e))
  {
    hide AfterRead, AfterWait;
  }

  lemma {:induction false} LoomingSpoils(s: State, es: seq<Event>, k: nat)
    requires Legal(s, es) && k <= |es| && Legal(s, es[..k]) && Looming(Exec(s, es[..k]))
    ensures Spoiled(s, es) || Looming(Exec(s, es))
    decreases |es|
  {
    hide Looming, Next, Guard;
    if k == |es| {
      assert es[..k] == es;
    } else {
      var init := es[..|es| - 1];
      assert init[..k] == es[..k];
      LoomingSpoils(s, init, k);
      if !Spoiled(s, es) {
        LoomsOn(Exec(s, init), es[|es| - 1]);
      }
    }
  }

  /** A byte the last wait must notice: if at any moment after the receive loop, with T3P5 clear, a
      byte is there whose hook call is not over, the frame is refused. */
  lemma PendingIsNoticed(s: State, es: seq<Event>, k: nat)
    requires Received(s, es) && k < |es| && Legal(s, es[..k])
    requires var m := Exec(s, es[..k]); m.rx.pc == WaitEnd && !m.line.t3p5 && !Quiet(m.line)
    ensures Exec(s, es).rx.pc == Done(EFRAME_NOK)
  {
    hide Exec, Spoiled, Inv, Clean, Refusing;
    LoomingSpoils(s, es, k);
    RefusedIff(s, es);
  }

  /** So a gap is noticed whenever mb_rtu_rx leaves the receive loop on T1P5 while the hook for the
      next byte has not yet taken T1P5 back. */
  lemma GapNoticedOnLeaving(s: State, es: seq<Event>, k: nat)
    requires Received(s, es) && k < |es| && Legal(s, es[..k]) && es[k] == Rx
    requires var m := Exec(s, es[..k]);
      m.rx.pc == WaitBody && m.line.t1p5 && !m.line.rxAvail && !m.line.t3p5 && !Quiet(m.line)
    ensures Exec(s, es).rx.pc == Done(EFRAME_NOK)
  {
    hide Exec, Verify, Spoiled, Inv, Clean, Refusing;
    var m, upTo := Exec(s, es[..k]), es[..k + 1];
    assert k == |es| - 1 ==> es[..k] == es[..|es| - 1];
    LastStep(s, es);
    PrefixLegal(s, es, k + 1);
    assert upTo[..k] == es[..k] && upTo[k] == Rx;
    ExecSnoc(s, upTo);
    VerifyKeeps(m.rx.(sawT1 := true));
    PendingIsNoticed(s, es, k + 1);
  }

  lemma {:induction false} PrefixLegal(s: State, es: seq<Event>, k: nat)
    requires Legal(s, es) && k <= |es|
    ensures Legal(s, es[..k])
    decreases |es|
  {
    hide Enabled, Exec;
    if k == |es| {
      assert es[..k] == es;
    } else {
      PrefixLegal(s, es[..|es| - 1], k);
      assert es[..|es| - 1][..k] == es[..k];
    }
  }

  /** A gap, which is a byte after T1P5, goes unnoticed if and only if RX_AVAIL was down all through
      the last wait. Then no byte was thrown away: what was read before and after the gap has been
      judged as one frame, and what was not read is still in the FIFO. */
  lemma GapUnnoticedIff(s: State, es: seq<Event>)
    requires Received(s, es) && Exec(s, es).log.late
    ensures var t := Exec(s, es);
      && (t.rx.pc != Done(EFRAME_NOK) <==> !Spoiled(s, es))
      && (!Spoiled(s, es) ==>
            && t.log.sent == [t.rx.slaveRx] + t.rx.data + t.line.fifo
            && t.rx.pc == Done(Outcome([t.rx.slaveRx] + t.rx.data, s.rx.unit)))
  {
    hide Exec, Clean, Wakes, Times, Spoiled, Outcome, OnTrack;
    RefusedIff(s, es);
    LastStep(s, es);
    var m := Exec(s, es[..|es| - 1]);
    if !Spoiled(s, es) {
      UnspoiledLast(s, es);
      assert m.log.sent == [m.rx.slaveRx] + m.rx.data + m.log.dropped + m.line.fifo;
      assert [m.rx.slaveRx] + m.rx.data + [] == [m.rx.slaveRx] + m.rx.data;
    }
  }

  lemma UnspoiledLast(s: State, es: seq<Event>)
    requires Received(s, es) && !Spoiled(s, es)
    ensures es != [] && Legal(s, es[..|es| - 1]) && !Refused(Exec(s, es[..|es| - 1]).rx)
  {
    hide Exec, Inv, Clean, Refusing, Judged;
    LastStep(s, es);
    RunOnTrack(s, es[..|es| - 1]);
  }

  /** Over every run, late bytes or not: a slave whose unit is at most 247 never answers with a count
      below zero; and a count is that of a frame with its CRC. */
  lemma NeverNegative(s: State, es: seq<Event>)
    requires Received(s, es) && s.rx.unit <= 247
    ensures var t := Exec(s, es);
      || t.rx.pc == Done(EFRAME_NOK) || t.rx.pc == Done(ESLAVE_ID) || t.rx.pc == Done(ECRC_FAIL)
      || (|t.rx.data| >= 2 && t.rx.pc == Done(|t.rx.data| - 2)
          && [t.rx.slaveRx] + t.rx.data == Frame(t.rx.slaveRx, t.rx.data[..|t.rx.data| - 2]))
  {
    hide BitwiseCrc, Exec, Spoiled;
    RefusedIff(s, es);
    var t := Exec(s, es);
    var read := [t.rx.slaveRx] + t.rx.data;
    if Outcome(read, s.rx.unit) >= -4 {
      if |read| <= 2 {
        ShortFrames(read, s.rx.unit);
      } else {
        AcceptedIff(read, s.rx.unit);
        assert |read| - 2 == |t.rx.data| - 1;
        Middle(t.rx.slaveRx, t.rx.data);
      }
    }
  }

  lemma Middle(first: bv8, rest: seq<bv8>)
    requires |rest| >= 2
    ensures ([first] + rest)[0] == first && ([first] + rest)[1..|rest| - 1] == rest[..|rest| - 2]
  {
  }

  // ---- call after call ------------------------------------------------------------------------

  /** One call of mb_rtu_rx: the unit it listens for, and what happens until it returns. */
  datatype Call = Call(unit: bv8, es: seq<Event>)

  predicate TimedOut(c: Call) {
    c.es != [] && c.es[|c.es| - 1] == Timeout
  }

  /** The state in which the next call starts. */
  ghost function Following(s: State, c: Call, unit: bv8): State
    requires Legal(s, c.es)
  {
    if TimedOut(c) then Resumed(Exec(s, c.es), unit) else NextReception(Exec(s, c.es), unit)
  }

  /** The calls are made one after the other, the first in s. */
  ghost predicate Runs(s: State, calls: seq<Call>)
    decreases |calls|
  {
    calls != [] ==>
      && s.rx.unit == calls[0].unit && Legal(s, calls[0].es) && Exec(s, calls[0].es).rx.pc.Done?
      && (|calls| > 1 ==> Runs(Following(s, calls[0], calls[1].unit), calls[1..]))
  }

  /** Every reception but the last leaves the line settled. */
  ghost predicate AllSettled(s: State, calls: seq<Call>)
    requires Runs(s, calls)
    decreases |calls|
  {
    |calls| > 1 ==>
      && (TimedOut(calls[0]) || Settled(Exec(s, calls[0].es).line))
      && AllSettled(Following(s, calls[0], calls[1].unit), calls[1..])
  }

  /** What a call answers. */
  ghost predicate Answers(s: State, c: Call)
    requires Legal(s, c.es)
  {
    var t := Exec(s, c.es);
    if TimedOut(c) then t.rx.pc == Done(ETIMEOUT) && t.log.sent == t.line.fifo
    else
      && t.rx.pc == Done(if Spoiled(s, c.es) then EFRAME_NOK else Outcome([t.rx.slaveRx] + t.rx.data, c.unit))
      && (!t.log.late && t.log.sent != [] ==> t.rx.pc == Done(Outcome(t.log.sent, c.unit)))
  }

  ghost predicate AllAnswer(s: State, calls: seq<Call>)
    requires Runs(s, calls)
    decreases |calls|
  {
    calls != [] ==>
      && Begins(s) && Answers(s, calls[0])
      && (|calls| > 1 ==> AllAnswer(Following(s, calls[0], calls[1].unit), calls[1..]))
  }

  lemma DoneHow(s: State, c: Call)
    requires Begins(s) && Legal(s, c.es) && Exec(s, c.es).rx.pc.Done?
    ensures c.es != [] && (!TimedOut(c) ==> Received(s, c.es))
  {
    hide Inv, Clean, Refusing, Exec, AfterRead, AfterWait;
    if c.es == [] {
      ExecNone(s);
    } else {
      ExecSnoc(s, c.es);
      OnlyRxOrTimeout(Exec(s, c.es[..|c.es| - 1]), c.es[|c.es| - 1]);
    }
  }

  lemma OnlyRxOrTimeout(m: State, e: Event)
    requires Enabled(m, e) && Next(m, e).rx.pc.Done?
    ensures e == Rx || e == Timeout
  {
    hide RxStep;
  }

  /** Over any number of calls, timeouts and refused frames among them: as long as each reception with
      another call after it leaves the line settled, every call begins as it must and answers as it
      must. */
  lemma {:induction false} CallsChain(s: State, calls: seq<Call>)
    requires Begins(s) && Runs(s, calls) && AllSettled(s, calls)
    ensures AllAnswer(s, calls)
    decreases |calls|
  {
    hide Begins, Exec, Outcome, Spoiled, Settled, Answers, Legal, Following;
    if calls != [] {
      OneCall(s, calls[0]);
      if |calls| > 1 {
        NextCall(s, calls[0], calls[1].unit);
        CallsChain(Following(s, calls[0], calls[1].unit), calls[1..]);
      }
    }
  }

  lemma OneCall(s: State, c: Call)
    requires Begins(s) && Legal(s, c.es) && Exec(s, c.es).rx.pc.Done? && s.rx.unit == c.unit
    ensures Answers(s, c)
  {
    hide Inv, Clean, Refusing, Exec, Outcome, Spoiled, Legal, RxStep;
    DoneHow(s, c);
    if TimedOut(c) {
      TimeoutsChain(s, c.es, c.unit);
      ExecSnoc(s, c.es);
    } else {
      RefusedIff(s, c.es);
      if !Exec(s, c.es).log.late {
        ChunkingDoesNotMatter(s, c.es);
      }
    }
  }

  lemma NextCall(s: State, c: Call, unit: bv8)
    requires Begins(s) && Legal(s, c.es) && Exec(s, c.es).rx.pc.Done?
    requires TimedOut(c) || Settled(Exec(s, c.es).line)
    ensures Begins(Following(s, c, unit))
  {
    hide Inv, Clean, Refusing, Exec, Settled;
    DoneHow(s, c);
    if TimedOut(c) {
      TimeoutsChain(s, c.es, unit);
    } else {
      NextBeginsIff(s, c.es, unit);
    }
  }

  /** What a sender sends: a PDU to one unit or, with unit 0, to all. */
  datatype Sent = Sent(unit: bv8, pdu: seq<bv8>)

  /** In each call the bytes of one frame come, for the unit of the call or for all, and none late. */
  ghost predicate Bring(s: State, calls: seq<Call>, sent: seq<Sent>)
    requires Runs(s, calls) && |sent| == |calls|
    decreases |calls|
  {
    calls != [] ==>
      && !TimedOut(calls[0]) && !Exec(s, calls[0].es).log.late && |sent[0].pdu| <= MAX_PDU_SIZE - 2
      && (sent[0].unit == calls[0].unit || sent[0].unit == 0)
      && Exec(s, calls[0].es).log.sent == Frame(sent[0].unit, sent[0].pdu)
      && (|calls| > 1 ==> Bring(Following(s, calls[0], calls[1].unit), calls[1..], sent[1..]))
  }

  /** The call has returned the PDU and knows whether it was broadcast. */
  predicate Delivered(r: Receiver, f: Sent) {
    r.pc == Done(|f.pdu|) && f.pdu <= r.data && r.broadcast == (f.unit == 0)
  }

  ghost predicate Deliver(s: State, calls: seq<Call>, sent: seq<Sent>)
    requires Runs(s, calls) && |sent| == |calls|
    decreases |calls|
  {
    calls != [] ==>
      && Delivered(Exec(s, calls[0].es).rx, sent[0])
      && (|calls| > 1 ==> Deliver(Following(s, calls[0], calls[1].unit), calls[1..], sent[1..]))
  }

  /** Any number of frames, sent one after the other, are received as their PDUs in order, whatever the
      interleaving within each. */
  lemma {:induction false} FramesInOrder(s: State, calls: seq<Call>, sent: seq<Sent>)
    requires Begins(s) && Runs(s, calls) && |sent| == |calls| && Bring(s, calls, sent)
    ensures Deliver(s, calls, sent)
    decreases |calls|
  {
    hide Begins, Exec, Legal, Following, Frame;
    if calls != [] {
      OneFrame(s, calls[0], sent[0], if |calls| > 1 then calls[1].unit else 0);
      if |calls| > 1 {
        FramesInOrder(Following(s, calls[0], calls[1].unit), calls[1..], sent[1..]);
      }
    }
  }

  lemma OneFrame(s: State, c: Call, sent: Sent, unit: bv8)
    requires Begins(s) && Legal(s, c.es) && Exec(s, c.es).rx.pc.Done? && s.rx.unit == c.unit
    requires !TimedOut(c) && !Exec(s, c.es).log.late && |sent.pdu| <= MAX_PDU_SIZE - 2
    requires (sent.unit == c.unit || sent.unit == 0) && Exec(s, c.es).log.sent == Frame(sent.unit, sent.pdu)
    ensures Delivered(Exec(s, c.es).rx, sent)
    ensures Begins(Following(s, c, unit))
  {
    DoneHow(s, c);
    TransmittedIsReceived(s, c.es, sent.unit, sent.pdu);
    CleanReceptionsChain(s, c.es, unit);
    hide Exec;
    InitialBegins(NextReception(Exec(s, c.es), unit));
  }
}
