/** What every interleaving of one reception guarantees (src/mb_rtu.c:244-356). */
module RtuReception {
  import opened CrcSpec
  import opened Errors
  import opened RtuFrame
  import opened RtuMachine

  /** The reception ended in the state t by running to the end, not by timing out. */
  ghost predicate Received(s: State, es: seq<Event>) {
    && Begins(s) && Legal(s, es) && Exec(s, es).rx.pc.Done?
    && es[|es| - 1] == Rx
  }

  lemma LastStep(s: State, es: seq<Event>)
    requires Received(s, es)
    ensures es != []
    ensures var init := es[..|es| - 1];
      && Legal(s, init)
      && var m := Exec(s, init);
         m.rx.pc == FinalClear && Exec(s, es) == RxStep(m)
         && Inv(m) && Clean(m) && Refusing(m)
  {
    hide Inv, Clean, Refusing, Verify, AfterRead;
    var m := Exec(s, es[..|es| - 1]);
    RunInv(s, es[..|es| - 1]);
    NotDone(m);
  }

  lemma NotDone(m: State)
    requires Enabled(m, Rx) && RxStep(m).rx.pc.Done?
    ensures m.rx.pc == FinalClear
  {
    hide Verify, Take, AfterWait;
    if m.rx.pc.Read? {
      forall chunk ensures !Take(m.rx, m.rx.pc.site, chunk).pc.Done? {
        TakeGoesOn(m.rx, m.rx.pc.site, chunk);
      }
    } else if Waiting(m.rx) {
      WaitGoesOn(m.line, m.rx);
    }
  }

  lemma TakeGoesOn(r: Receiver, site: Site, chunk: seq<bv8>)
    ensures !Take(r, site, chunk).pc.Done? && Take(r, site, chunk).unit == r.unit
  {
    hide Verify;
    VerifyKeeps(r.(data := r.data + chunk));
  }

  lemma WaitGoesOn(line: Line, r: Receiver)
    ensures !AfterWait(line, r).pc.Done? && AfterWait(line, r).unit == r.unit
  {
    hide Verify;
    VerifyKeeps(r.(sawT1 := true));
  }

  lemma {:induction false} UnitKept(s: State, es: seq<Event>)
    requires Legal(s, es)
    ensures Exec(s, es).rx.unit == s.rx.unit
    decreases |es|
  {
    hide BitwiseCrc;
    if es != [] {
      var init := es[..|es| - 1];
      UnitKept(s, init);
      StepKeepsUnit(Exec(s, init), es[|es| - 1]);
    }
  }

  lemma StepKeepsUnit(s: State, e: Event)
    requires Enabled(s, e)
    ensures Next(s, e).rx.unit == s.rx.unit
  {
    hide Verify, Take, AfterWait, AfterAvail, Result;
    if e == Rx {
      if s.rx.pc.Read? {
        forall chunk ensures Take(s.rx, s.rx.pc.site, chunk).unit == s.rx.unit {
          TakeGoesOn(s.rx, s.rx.pc.site, chunk);
        }
      } else if Waiting(s.rx) {
        WaitGoesOn(s.line, s.rx);
      } else if s.rx.pc.Avail? {
        AvailKeepsUnit(s.line, s.rx);
      }
    }
  }

  lemma AvailKeepsUnit(line: Line, r: Receiver)
    requires r.pc.Avail?
    ensures AfterAvail(line, r, r.pc.site).unit == r.unit
  {
  }

  /** However the bytes of a frame are split over hook calls and reads: if none comes after
      T1P5, the answer is Outcome of the bytes and the unit and nothing else, and what lies in
      the buffer is every byte after the address, in order. */
  lemma ChunkingDoesNotMatter(s: State, es: seq<Event>)
    requires Received(s, es) && !Exec(s, es).log.late
    ensures var t := Exec(s, es);
      && t.log.sent != []
      && t.rx.pc == Done(Outcome(t.log.sent, s.rx.unit))
      && (|t.log.sent| - 1 <= MAX_PDU_SIZE ==>
            t.rx.data == t.log.sent[1..] && t.rx.broadcast == (t.log.sent[0] == 0))
  {
    hide BitwiseCrc, Conserved, Wakes, Exec;
    LastStep(s, es);
    UnitKept(s, es);
  }

  /** A transmitted frame is received as the PDU it carries, whatever the interleaving, when
      it fits and the unit is ours or the broadcast unit. */
  lemma TransmittedIsReceived(s: State, es: seq<Event>, unit: bv8, pdu: seq<bv8>)
    requires Received(s, es) && !Exec(s, es).log.late
    requires Exec(s, es).log.sent == Frame(unit, pdu)
    requires |pdu| <= MAX_PDU_SIZE - 2 && (unit == s.rx.unit || unit == 0)
    ensures var t := Exec(s, es);
      t.rx.pc == Done(|pdu|) && |pdu| <= |t.rx.data| && t.rx.data[..|pdu|] == pdu
      && t.rx.broadcast == (unit == 0)
  {
    hide BitwiseCrc, Exec, Outcome;
    ChunkingDoesNotMatter(s, es);
    RoundTrip(unit, pdu, s.rx.unit);
  }

  /** The next call of mb_rtu_rx, for a possibly different unit; bytes left in the FIFO are its first. */
  function NextReception(t: State, unit: bv8): State {
    State(t.line,
          Receiver(WaitFirst, unit, t.rx.slaveRx, [], t.rx.navail, false, false, true, 0, t.rx.broadcast),
          Log(t.line.fifo, [], false, false, false, 0))
  }

  /** A frame that fits and has no byte after T1P5 leaves the line as it found it: the next
      reception starts from scratch. */
  lemma CleanReceptionsChain(s: State, es: seq<Event>, unit: bv8)
    requires Received(s, es) && !Exec(s, es).log.late
    requires |Exec(s, es).log.sent| - 1 <= MAX_PDU_SIZE
    ensures Initial(NextReception(Exec(s, es), unit))
  {
    hide BitwiseCrc, Conserved, Wakes, Exec, Judged;
    LastStep(s, es);
  }

  /** The next call of mb_rtu_rx after one that timed out; what has come since counts. */
  function Resumed(t: State, unit: bv8): State {
    NextReception(t, unit).(log := t.log)
  }

  /** A timeout loses nothing: the next call begins with the bytes that have come, and everything
      proved here about a reception holds for it. */
  lemma TimeoutsChain(s: State, es: seq<Event>, unit: bv8)
    requires Begins(s) && Legal(s, es) && es != [] && es[|es| - 1] == Timeout
    ensures Begins(Resumed(Exec(s, es), unit))
    ensures Exec(s, es).log.sent == Exec(s, es).line.fifo
  {
    hide Exec, Inv, Clean, Refusing;
    var init := es[..|es| - 1];
    var m := Exec(s, init);
    RunInv(s, init);
    ExecSnoc(s, es);
    TimeoutKeeps(m, unit);
  }

  lemma ExecSnoc(s: State, es: seq<Event>)
    requires Legal(s, es) && es != []
    ensures Exec(s, es) == Next(Exec(s, es[..|es| - 1]), es[|es| - 1])
  {
    hide Next;
  }

  lemma TimeoutKeeps(m: State, unit: bv8)
    requires Begins(m) && Enabled(m, Timeout)
    ensures Begins(Resumed(Next(m, Timeout), unit)) && m.log.sent == m.line.fifo
  {
    hide Judged;
  }

  /** What a reception may leave behind: nothing but T3P5 still running, or bytes of the next frame whose
      hook call is not over or for which both timers still run. */
  predicate Settled(line: Line) {
    if line.fifo == [] then Quiet(line) && !line.t1Running
    else !Quiet(line) || (line.t1Running && line.t3Running)
  }

  /** After any reception, refused ones included, the flags are clear; all that is proved of a reception
      holds of the next one if and only if the line is settled. */
  lemma NextBeginsIff(s: State, es: seq<Event>, unit: bv8)
    requires Received(s, es)
    ensures Begins(NextReception(Exec(s, es), unit)) <==> Settled(Exec(s, es).line)
  {
    hide BitwiseCrc, Conserved, Wakes, Exec, Judged, Clean, Refusing;
    LastStep(s, es);
    var m := Exec(s, es[..|es| - 1]);
    ClearedBegins(m, unit);
  }

  lemma ClearedBegins(m: State, unit: bv8)
    requires m.rx.pc == FinalClear && Times(m)
    ensures Begins(NextReception(RxStep(m), unit)) <==> Settled(RxStep(m).line)
  {
    hide Judged, Result;
  }

  /** A frame that overran the 253 bytes after the address before T3P5 fired, or that got a
      byte between the end of the receive loop and T3P5, is refused. */
  lemma BadFramesRefused(s: State, es: seq<Event>)
    requires Received(s, es)
    requires Exec(s, es).log.stray || Exec(s, es).log.sentAtT3 - 1 > MAX_PDU_SIZE
    ensures Exec(s, es).rx.pc == Done(EFRAME_NOK)
  {
    hide BitwiseCrc, Inv, Clean, Exec;
    LastStep(s, es);
  }

  /** At every moment the count stays within the buffer, and at every wait before the final
      clear an unread byte has its flag up or a hook call on the way; or, at the first wait, T1P5 if the
      bytes there at the start had neither. */
  lemma NoLostWakeup(s: State, es: seq<Event>)
    requires Begins(s) && Legal(s, es) && !Exec(s, es).rx.pc.Done?
    ensures var t := Exec(s, es);
      && |t.rx.data| <= MAX_PDU_SIZE
      && (Waiting(t.rx) && t.line.fifo != [] ==>
            || t.line.rxAvail || t.line.owed > 0 || t.line.hook != Idle
            || (t.rx.pc == WaitFirst && !Announced(s) && (t.line.t1p5 || t.line.t1Running)))
  {
    hide Conserved, Clean, Refusing, Exec;
    RunInv(s, es);
    if Announced(s) {
      StaysAnnounced(s, es);
    }
  }

  /** At the first wait, an unread byte has its flag up or a hook call on the way. */
  predicate Announced(s: State) {
    s.rx.pc == WaitFirst && s.line.fifo != [] ==> Pending(s.line)
  }

  lemma {:induction false} StaysAnnounced(s: State, es: seq<Event>)
    requires Legal(s, es) && Announced(s)
    ensures Announced(Exec(s, es))
    decreases |es|
  {
    hide Next, Announced;
    if es != [] {
      StaysAnnounced(s, es[..|es| - 1]);
      StepAnnounced(Exec(s, es[..|es| - 1]), es[|es| - 1]);
    }
  }

  lemma StepAnnounced(m: State, e: Event)
    requires Enabled(m, e) && Announced(m)
    ensures Announced(Next(m, e))
  {
    hide Verify;
    VerifyKeeps(m.rx.(sawT1 := true));
    if m.rx.pc.Read? {
      var n := if m.rx.navail <= |m.line.fifo| then m.rx.navail else |m.line.fifo|;
      VerifyKeeps(m.rx.(data := m.rx.data + m.line.fifo[..n]));
    }
  }

  /** Once a byte has come, something other than a further byte can always happen: the
      receiver is never left waiting for a flag nobody will set. */
  lemma NeverStuck(s: State, es: seq<Event>) returns (e: Event)
    requires Begins(s) && Legal(s, es) && !Exec(s, es).rx.pc.Done?
    requires Exec(s, es).log.sent != []
    ensures !e.Push? && e != Timeout && Enabled(Exec(s, es), e)
  {
    hide Conserved, Clean, Refusing, Exec, Wakes;
    RunInv(s, es);
    var line := Exec(s, es).line;
    if line.hook == Started {
      e := HookClear;
    } else if line.hook == Cleared {
      e := HookRaise;
    } else if line.owed > 0 {
      e := HookStart(line.owed);
    } else if line.t1Running {
      e := T1P5;
    } else if line.t3Running {
      e := T3P5;
    } else {
      e := Rx;
    }
  }

  // ---- the end of a reception -------------------------------------------------------

  /** An upper bound on the receiver's remaining steps once both timers have fired. */
  function Remaining(r: Receiver): nat {
    match r.pc
    case WaitFirst => 16
    case WaitBody => 11
    case WaitEnd => 6
    case FinalClear => 1
    case Done(_) => 0
    case Clear(site) => Rest(r, site) + 3
    case Avail(site) => Rest(r, site) + 2
    case Raise(site) => Rest(r, site) + 1
    case Read(site) => Rest(r, site)
  }

  function Rest(r: Receiver, site: Site): nat {
    match site
    case Id => 12
    case Body => if r.sawT1 then 7 else 12
    case End => if r.sawT3 then 2 else 7
  }

  lemma WaitDecreases(s: State)
    requires s.line.t1p5 && s.line.t3p5 && Waiting(s.rx)
    ensures Remaining(AfterWait(s.line, s.rx)) < Remaining(s.rx)
  {
    hide Verify;
    VerifyKeeps(s.rx.(sawT1 := true));
  }

  lemma TakeDecreases(r: Receiver, site: Site, chunk: seq<bv8>)
    requires r.pc == Read(site)
    ensures Remaining(Take(r, site, chunk)) < Remaining(r)
  {
    hide Verify;
    VerifyKeeps(r.(data := r.data + chunk));
  }

  lemma RemainingDecreases(s: State)
    requires s.line.t1p5 && s.line.t3p5 && !s.rx.pc.Done?
    ensures Ready(s) && Remaining(RxStep(s).rx) < Remaining(s.rx)
    ensures RxStep(s).rx.pc.Done? || (RxStep(s).line.t1p5 && RxStep(s).line.t3p5)
  {
    hide Verify, AfterWait, Take, Remaining, RxStep;
    if Waiting(s.rx) {
      WaitDecreases(s);
      StepOfWait(s);
    } else if s.rx.pc.Read? {
      ReadDecreases(s);
    } else {
      OtherDecreases(s);
    }
  }

  lemma StepOfWait(s: State)
    requires Waiting(s.rx)
    ensures RxStep(s) == s.(rx := AfterWait(s.line, s.rx))
  {
    hide AfterWait;
  }

  lemma ReadDecreases(s: State)
    requires s.rx.pc.Read?
    ensures Remaining(RxStep(s).rx) < Remaining(s.rx)
    ensures RxStep(s).line.t1p5 == s.line.t1p5 && RxStep(s).line.t3p5 == s.line.t3p5
  {
    hide Take, Remaining;
    var n := if s.rx.navail <= |s.line.fifo| then s.rx.navail else |s.line.fifo|;
    TakeDecreases(s.rx, s.rx.pc.site, s.line.fifo[..n]);
  }

  lemma OtherDecreases(s: State)
    requires s.rx.pc.Clear? || s.rx.pc.Avail? || s.rx.pc.Raise? || s.rx.pc.FinalClear?
    ensures Remaining(RxStep(s).rx) < Remaining(s.rx)
    ensures RxStep(s).rx.pc.Done? ||
      (RxStep(s).line.t1p5 == s.line.t1p5 && RxStep(s).line.t3p5 == s.line.t3p5)
  {
    hide Result;
  }

  /** Once both timers have fired and the line stays silent, mb_rtu_rx returns within sixteen
      of its own steps, even when the buffer is full and RX_AVAIL stays up. */
  lemma {:induction false} Completes(s: State) returns (es: seq<Event>)
    requires s.line.t1p5 && s.line.t3p5
    ensures |es| <= Remaining(s.rx) <= 16
    ensures forall e :: e in es ==> e == Rx
    ensures Legal(s, es) && Exec(s, es).rx.pc.Done?
    decreases Remaining(s.rx)
  {
    hide RxStep;
    es := [];
    if !s.rx.pc.Done? {
      RemainingDecreases(s);
      var t := RxStep(s);
      if t.rx.pc.Done? {
        es := [Rx];
        assert es[..0] == [];
      } else {
        var rest := Completes(t);
        es := [Rx] + rest;
        ExecCons(s, Rx, rest);
      }
    }
  }

  lemma {:induction false} ExecCons(s: State, e: Event, es: seq<Event>)
    requires Enabled(s, e) && Legal(Next(s, e), es)
    ensures Legal(s, [e] + es) && Exec(s, [e] + es) == Exec(Next(s, e), es)
    decreases |es|
  {
    hide Next, Enabled;
    if es == [] {
      assert [e] + es == [e] && [e][..0] == [];
    } else {
      var n := |es| - 1;
      ExecCons(s, e, es[..n]);
      assert ([e] + es)[..n + 1] == [e] + es[..n];
    }
  }

  // ---- the gap that goes unnoticed ----------------------------------------------------

  lemma Snoc(s: State, es: seq<Event>, e: Event)
    requires Legal(s, es) && Enabled(Exec(s, es), e)
    ensures Legal(s, es + [e]) && Exec(s, es + [e]) == Next(Exec(s, es), e)
  {
    hide Next, Enabled;
    assert (es + [e])[..|es|] == es;
  }

  lemma {:induction false} Pushes(s: State, es: seq<Event>, bytes: seq<bv8>) returns (es': seq<Event>)
    requires Legal(s, es) && !Exec(s, es).rx.pc.Done? && !AfterLoop(Exec(s, es).rx)
    ensures Legal(s, es')
    ensures var m, t := Exec(s, es), Exec(s, es');
      && t.rx == m.rx
      && t.line == m.line.(fifo := m.line.fifo + bytes, owed := m.line.owed + |bytes|)
      && t.log == m.log.(sent := m.log.sent + bytes, late := m.log.late || (bytes != [] && m.log.firedT1))
    decreases |bytes|
  {
    hide Exec, RxStep;
    es' := es;
    if bytes == [] {
      assert Exec(s, es).line.fifo + [] == Exec(s, es).line.fifo && Exec(s, es).log.sent + [] == Exec(s, es).log.sent;
    } else {
      var n := |bytes| - 1;
      es' := Pushes(s, es, bytes[..n]);
      Snoc(s, es', Push(bytes[n]));
      es' := es' + [Push(bytes[n])];
      assert bytes == bytes[..n] + [bytes[n]];
      assert Exec(s, es).line.fifo + bytes == Exec(s, es).line.fifo + bytes[..n] + [bytes[n]];
      assert Exec(s, es).log.sent + bytes == Exec(s, es).log.sent + bytes[..n] + [bytes[n]];
    }
  }

  /** Bytes and the whole of the hook call for them, on a silent line. */
  lemma Arrives(s: State, es: seq<Event>, bytes: seq<bv8>) returns (es': seq<Event>)
    requires Legal(s, es) && Quiet(Exec(s, es).line) && !Exec(s, es).rx.pc.Done? && !AfterLoop(Exec(s, es).rx)
    requires bytes != []
    ensures Legal(s, es')
    ensures var m, t := Exec(s, es), Exec(s, es');
      && t.rx == m.rx
      && t.line == Line(m.line.fifo + bytes, true, false, false, 0, Idle, true, true)
      && t.log == m.log.(sent := m.log.sent + bytes, late := m.log.late || m.log.firedT1)
  {
    hide RxStep, Exec;
    es' := Pushes(s, es, bytes);
    Snoc(s, es', HookStart(|bytes|));
    es' := es' + [HookStart(|bytes|)];
    Snoc(s, es', HookClear);
    es' := es' + [HookClear];
    Snoc(s, es', HookRaise);
    es' := es' + [HookRaise];
  }

  /** mb_rtu_rx at its first wait, with more than one byte there: it reads the address and raises the
      flag again. */
  lemma ReadsId(s: State, es: seq<Event>) returns (es': seq<Event>)
    requires Legal(s, es)
    requires var m := Exec(s, es);
      m.rx.pc == WaitFirst && m.line.rxAvail && |m.line.fifo| > 1 && m.rx.data == [] && !m.rx.sawT1
    ensures Legal(s, es')
    ensures var m, t := Exec(s, es), Exec(s, es');
      && t.line == m.line.(rxAvail := true, fifo := m.line.fifo[1..]) && t.log == m.log
      && t.rx == m.rx.(pc := WaitBody, slaveRx := m.line.fifo[0], navail := 1)
  {
    hide Exec, Verify, RxStep;
    var m := Exec(s, es);
    es' := es + [Rx, Rx, Rx, Rx] + [Rx];
    StepFromWait(m, Id);
    var m1 := RxStep(m);
    StepFromClear(m1, Id);
    StepFromAvail(RxStep(m1), Id);
    StepFromRaise(RxStep(RxStep(m1)), Id);
    StepFromRead(RxStep(RxStep(RxStep(m1))), Id);
    FourSteps(s, es);
    Snoc(s, es + [Rx, Rx, Rx, Rx], Rx);
  }

  /** At a wait of the receive loop with bytes there: it reads them all. */
  lemma ReadsBody(s: State, es: seq<Event>) returns (es': seq<Event>)
    requires Legal(s, es)
    requires var m := Exec(s, es);
      && m.rx.pc == WaitBody && m.line.rxAvail && !m.line.t1p5 && !m.rx.sawT1
      && |m.line.fifo| <= MAX_PDU_SIZE && m.rx.data == []
    ensures Legal(s, es')
    ensures var m, t := Exec(s, es), Exec(s, es');
      && t.line == m.line.(rxAvail := false, fifo := []) && t.log == m.log
      && t.rx == m.rx.(data := m.line.fifo, navail := |m.line.fifo|)
  {
    hide Exec, Verify, RxStep;
    var m := Exec(s, es);
    es' := es + [Rx, Rx, Rx, Rx];
    StepFromWait(m, Body);
    var m1 := RxStep(m);
    StepFromClear(m1, Body);
    StepFromAvail(RxStep(m1), Body);
    StepFromRead(RxStep(RxStep(m1)), Body);
    FourSteps(s, es);
    assert [] + m.line.fifo == m.line.fifo;
  }

  lemma FourSteps(s: State, es: seq<Event>)
    requires Legal(s, es) && Enabled(Exec(s, es), Rx)
    requires Enabled(RxStep(Exec(s, es)), Rx) && Enabled(RxStep(RxStep(Exec(s, es))), Rx)
    requires Enabled(RxStep(RxStep(RxStep(Exec(s, es)))), Rx)
    ensures Legal(s, es + [Rx, Rx, Rx, Rx])
    ensures Exec(s, es + [Rx, Rx, Rx, Rx]) == RxStep(RxStep(RxStep(RxStep(Exec(s, es)))))
  {
    hide Exec, RxStep, Ready;
    var m := Exec(s, es);
    Snoc(s, es, Rx);
    Snoc(s, es + [Rx], Rx);
    Snoc(s, es + [Rx] + [Rx], Rx);
    Snoc(s, es + [Rx] + [Rx] + [Rx], Rx);
    assert es + [Rx] + [Rx] + [Rx] + [Rx] == es + [Rx, Rx, Rx, Rx];
  }

  lemma StepFromWait(m: State, site: Site)
    requires (m.rx.pc == WaitFirst && site == Id) || (m.rx.pc == WaitBody && site == Body)
    requires m.line.rxAvail
    ensures Enabled(m, Rx)
    ensures RxStep(m) == m.(rx := m.rx.(pc := Clear(site), sawT1 := if site == Id then m.rx.sawT1 else m.line.t1p5))
  {
    hide Verify;
  }

  lemma StepFromClear(m: State, site: Site)
    requires m.rx.pc == Clear(site)
    ensures Enabled(m, Rx)
    ensures RxStep(m) == m.(rx := m.rx.(pc := Avail(site)), line := m.line.(rxAvail := false))
  {
  }

  lemma StepFromAvail(m: State, site: Site)
    requires m.rx.pc == Avail(site)
    ensures Enabled(m, Rx)
    ensures RxStep(m) == m.(rx := m.rx.(navail := |m.line.fifo|,
      pc := if |m.line.fifo| > Size(m.rx, site) then Raise(site) else Read(site)))
  {
  }

  lemma StepFromRaise(m: State, site: Site)
    requires m.rx.pc == Raise(site)
    ensures Enabled(m, Rx)
    ensures RxStep(m) == m.(line := m.line.(rxAvail := true), rx := m.rx.(navail := Size(m.rx, site), pc := Read(site)))
  {
  }

  lemma StepFromRead(m: State, site: Site)
    requires m.rx.pc == Read(site) && m.rx.navail <= |m.line.fifo| && site != End && !m.rx.sawT1
    requires site == Id ==> m.rx.navail == 1
    ensures Enabled(m, Rx)
    ensures RxStep(m) == State(m.line.(fifo := m.line.fifo[m.rx.navail..]),
      if site == Id then m.rx.(pc := WaitBody, slaveRx := m.line.fifo[0])
      else m.rx.(pc := WaitBody, data := m.rx.data + m.line.fifo[..m.rx.navail]), m.log)
  {
    hide Verify;
  }

  /** Section 2.5.1.1 of the serial-line guide has a receiver discard a frame with a silence
      of more than 1.5 characters in it. The code does not always: the hook of the next byte
      takes the T1P5 flag back, and if mb_rtu_rx has not looked in between, the two parts
      count as one frame. So for every frame there is, cut in two by a silence anywhere, a run in
      which it is taken whole. */
  lemma GapUnnoticed(s: State, unit: bv8, pdu: seq<bv8>, k: nat) returns (es: seq<Event>)
    requires Initial(s) && |pdu| <= MAX_PDU_SIZE - 2 && (unit == s.rx.unit || unit == 0)
    requires 1 <= k < |pdu| + 3
    ensures Received(s, es) && Exec(s, es).log.late
    ensures Exec(s, es).log.sent == Frame(unit, pdu)
    ensures Exec(s, es).rx.pc == Done(|pdu|) && pdu <= Exec(s, es).rx.data
  {
    InitialBegins(s);
    hide Exec, Verify, RxStep, Outcome, Frame, Inv, Clean, Refusing, Begins;
    var frame := Frame(unit, pdu);
    ExecNone(s);
    es := Arrives(s, [], frame[..k]);
    Snoc(s, es, T1P5);
    es := Arrives(s, es + [T1P5], frame[k..]);
    assert frame[..k] + frame[k..] == frame && [] + frame[..k] == frame[..k];
    es := ReadsId(s, es);
    es := ReadsBody(s, es);
    es := LeavesLoop(s, es, frame);
    es := Finishes(s, es, frame);
    RoundTrip(unit, pdu, s.rx.unit);
    assert frame[1..][..|pdu|] == pdu;
  }

  lemma ExecNone(s: State)
    ensures Legal(s, []) && Exec(s, []) == s
  {
  }

  lemma LeavesLoop(s: State, es: seq<Event>, sent: seq<bv8>) returns (es': seq<Event>)
    requires Legal(s, es) && sent != [] && |sent| - 1 <= MAX_PDU_SIZE
    requires var m := Exec(s, es);
      && m.rx.pc == WaitBody
      && (m.line == Line([], false, false, false, 0, Idle, true, true)
          || m.line == Line([], false, true, false, 0, Idle, false, true))
      && m.rx.slaveRx == sent[0] && m.rx.data == sent[1..] && m.rx.frameOk && m.rx.unit == s.rx.unit
    ensures Legal(s, es')
    ensures var m, t := Exec(s, es), Exec(s, es');
      && t.rx.pc == WaitEnd && t.line == Line([], false, true, false, 0, Idle, false, true)
      && Judged(t.rx, sent) && t.rx.unit == s.rx.unit
      && t.log.sent == m.log.sent && t.log.late == m.log.late
  {
    hide Exec, Verify, Outcome, Judged;
    es' := es;
    if Exec(s, es).line.t1Running {
      Snoc(s, es', T1P5);
      es' := es' + [T1P5];
    }
    var r := Exec(s, es').rx.(sawT1 := true);
    assert sent == [sent[0]] + sent[1..];
    VerifyJudges(r, sent);
    VerifyKeeps(r);
    Snoc(s, es', Rx);
    es' := es' + [Rx];
  }

  lemma Finishes(s: State, es: seq<Event>, sent: seq<bv8>) returns (es': seq<Event>)
    requires Legal(s, es) && sent != []
    requires var m := Exec(s, es);
      && m.rx.pc == WaitEnd && m.line == Line([], false, true, false, 0, Idle, false, true)
      && Judged(m.rx, sent) && m.rx.unit == s.rx.unit
    ensures Legal(s, es') && es' != [] && es'[|es'| - 1] == Rx
    ensures Exec(s, es').rx.pc == Done(Outcome(sent, s.rx.unit)) && Exec(s, es').rx.data == sent[1..]
    ensures Exec(s, es').log.sent == Exec(s, es).log.sent && Exec(s, es').log.late == Exec(s, es).log.late
  {
    hide Exec, Verify, Outcome;
    es' := es;
    var r := Exec(s, es).rx;
    Snoc(s, es', T3P5);
    es' := es' + [T3P5];
    Snoc(s, es', Rx);
    es' := es' + [Rx];
    assert Exec(s, es').rx == r.(sawT3 := true, pc := FinalClear);
    Snoc(s, es', Rx);
    es' := es' + [Rx];
  }
}
