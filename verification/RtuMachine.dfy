/** The receive side of src/mb_rtu.c as interleaved steps.

    mb_rtu_rx runs in one thread; bytes, the receive hook and the two timer callbacks arrive
    from others. They share the FIFO and the event flags. One step of the machine is one
    access to either: os_event_wait hands over a copy of the flags and clears nothing, a byte
    is pushed, the hook runs one of its three statements, a timer callback sets its flag. A
    timer that is running fires at any moment, but not before the hook has run for the latest
    byte: the timers measure silence. */
module RtuMachine {
  import opened CrcAlgebra
  import opened CrcSpec
  import opened Errors
  import Pdu

  const MAX_PDU_SIZE := Pdu.MAX_PDU_SIZE

  /** The three calls of mb_rtu_read in mb_rtu_rx. */
  datatype Site = Id | Body | End

  /** Where mb_rtu_rx is: at one of its three waits, at one of the four accesses mb_rtu_read
      makes, about to clear the flags, or done. */
  datatype Pc =
    | WaitFirst | WaitBody | WaitEnd
    | Clear(site: Site) | Avail(site: Site) | Raise(site: Site) | Read(site: Site)
    | FinalClear
    | Done(result: int)

  /** mb_rx_hook: between calls, after tmr_start, after os_event_clr. */
  datatype Hook = Idle | Started | Cleared

  /** What the threads share, and the environment: bytes no hook call has answered yet, where
      the hook is, and which timers run. */
  datatype Line = Line(
    fifo: seq<bv8>, rxAvail: bool, t1p5: bool, t3p5: bool,
    owed: nat, hook: Hook, t1Running: bool, t3Running: bool)

  /** The locals of mb_rtu_rx, the unit it listens for, the bytes it has put in
      transaction->data, and rtu->broadcast. */
  datatype Receiver = Receiver(
    pc: Pc, unit: bv8, slaveRx: bv8, data: seq<bv8>, navail: nat, sawT1: bool, sawT3: bool,
    frameOk: bool, error: int, broadcast: bool)

  /** History, which no step reads: every byte pushed, those read and thrown away, whether
      T1P5 has fired and a byte came after it, whether one came after the receive loop with
      T3P5 still clear, and how many bytes had come when T3P5 last fired before the last wait
      was over. */
  datatype Log = Log(
    sent: seq<bv8>, dropped: seq<bv8>, firedT1: bool, late: bool, stray: bool, sentAtT3: nat)

  datatype State = State(line: Line, rx: Receiver, log: Log)

  datatype Event =
    | Push(b: bv8)
    | HookStart(bytes: nat) | HookClear | HookRaise
    | T1P5 | T3P5
    | Timeout
    | Rx

  function Goto(s: State, pc: Pc): State {
    s.(rx := s.rx.(pc := pc))
  }

  function Size(r: Receiver, site: Site): nat {
    if site == Id then 1 else if |r.data| > MAX_PDU_SIZE then 0 else MAX_PDU_SIZE - |r.data|
  }

  /** Lines 305-320: the checks between the receive loop and the last one. */
  function Verify(r: Receiver): Receiver {
    var crcBad := BitwiseCrc(r.data, BitwiseCrc([r.slaveRx], 0xFFFF)) != 0;
    var idBad := r.slaveRx != r.unit && r.slaveRx != 0;
    r.(pc := WaitEnd,
       error := if idBad then ESLAVE_ID else if crcBad then ECRC_FAIL else r.error,
       frameOk := r.frameOk && !crcBad && !idBad,
       broadcast := r.slaveRx == 0)
  }

  /** What the caller of mb_rtu_read does with the bytes it got. */
  function Take(r: Receiver, site: Site, chunk: seq<bv8>): Receiver {
    match site
    case Id => r.(pc := WaitBody, slaveRx := if chunk == [] then r.slaveRx else chunk[0])
    case Body =>
      if r.sawT1 then Verify(r.(data := r.data + chunk)) else r.(pc := WaitBody, data := r.data + chunk)
    case End => r.(pc := if r.sawT3 then FinalClear else WaitEnd)
  }

  /** os_rtu_read, of at most the bytes that are there. */
  function AfterRead(s: State, site: Site): State {
    var n := if s.rx.navail <= |s.line.fifo| then s.rx.navail else |s.line.fifo|;
    var chunk := s.line.fifo[..n];
    State(s.line.(fifo := s.line.fifo[n..]), Take(s.rx, site, chunk),
          if site == End then s.log.(dropped := s.log.dropped + chunk) else s.log)
  }

  /** mb_rtu_rx can take its next step unless it waits for flags none of which is set. */
  predicate Ready(s: State) {
    match s.rx.pc
    case WaitFirst => s.line.t1p5 || s.line.rxAvail
    case WaitBody => s.line.t1p5 || s.line.rxAvail
    case WaitEnd => s.line.t3p5 || s.line.rxAvail
    case Done(_) => false
    case _ => true
  }

  /** os_event_wait returned; the receiver looks at its copy of the flags. */
  function AfterWait(line: Line, r: Receiver): Receiver {
    match r.pc
    case WaitFirst => r.(pc := Clear(Id))
    case WaitBody =>
      if line.rxAvail then r.(sawT1 := line.t1p5, pc := Clear(Body)) else Verify(r.(sawT1 := true))
    case _ =>
      if line.rxAvail then r.(sawT3 := line.t3p5, error := EFRAME_NOK, frameOk := false, pc := Clear(End))
      else r.(sawT3 := true, pc := FinalClear)
  }

  /** os_rtu_rx_avail and the comparison with the space left. */
  function AfterAvail(line: Line, r: Receiver, site: Site): Receiver {
    r.(navail := |line.fifo|, pc := if |line.fifo| > Size(r, site) then Raise(site) else Read(site))
  }

  function Result(r: Receiver): int {
    if r.frameOk then |r.data| - 2 else r.error
  }

  /** The next access of mb_rtu_rx. */
  function RxStep(s: State): State {
    match s.rx.pc
    case Clear(site) => s.(line := s.line.(rxAvail := false), rx := s.rx.(pc := Avail(site)))
    case Avail(site) => s.(rx := AfterAvail(s.line, s.rx, site))
    case Raise(site) =>
      s.(line := s.line.(rxAvail := true), rx := s.rx.(navail := Size(s.rx, site), pc := Read(site)))
    case Read(site) => AfterRead(s, site)
    case FinalClear =>
      s.(line := s.line.(rxAvail := false, t1p5 := false, t3p5 := false), rx := s.rx.(pc := Done(Result(s.rx))))
    case Done(_) => s
    case _ => s.(rx := AfterWait(s.line, s.rx))
  }

  predicate Reading(r: Receiver) {
    r.pc.Clear? || r.pc.Avail? || r.pc.Raise? || r.pc.Read?
  }

  predicate Waiting(r: Receiver) {
    r.pc == WaitFirst || r.pc == WaitBody || r.pc == WaitEnd
  }

  /** Past the receive loop, and T3P5 not yet seen. */
  predicate AfterLoop(r: Receiver) {
    r.pc == WaitEnd || (Reading(r) && r.pc.site == End && !r.sawT3)
  }

  predicate Quiet(line: Line) {
    line.owed == 0 && line.hook == Idle
  }

  /** The event can happen in s. */
  predicate Enabled(s: State, e: Event) {
    && !s.rx.pc.Done?
    && match e
       case Push(_) => true
       case HookStart(n) => s.line.hook == Idle && 1 <= n <= s.line.owed
       case HookClear => s.line.hook == Started
       case HookRaise => s.line.hook == Cleared
       case T1P5 => Quiet(s.line) && s.line.t1Running
       case T3P5 => Quiet(s.line) && s.line.t3Running
       case Timeout => s.rx.pc == WaitFirst && !s.line.t1p5 && !s.line.rxAvail
       case Rx => Ready(s)
  }

  function Next(s: State, e: Event): State
    requires Enabled(s, e)
  {
    var line, log := s.line, s.log;
    match e
    case Push(b) =>
      s.(line := line.(fifo := line.fifo + [b], owed := line.owed + 1),
         log := log.(sent := log.sent + [b], late := log.late || log.firedT1,
                     stray := log.stray || (AfterLoop(s.rx) && !line.t3p5)))
    case HookStart(n) =>
      s.(line := line.(hook := Started, owed := line.owed - n, t1Running := true, t3Running := true))
    case HookClear => s.(line := line.(hook := Cleared, t1p5 := false, t3p5 := false))
    case HookRaise => s.(line := line.(hook := Idle, rxAvail := true))
    case T1P5 => s.(line := line.(t1p5 := true, t1Running := false), log := log.(firedT1 := true))
    case T3P5 =>
      s.(line := line.(t3p5 := true, t3Running := false),
         log := log.(sentAtT3 := if s.rx.pc == FinalClear then log.sentAtT3 else |log.sent|))
    case Timeout => Goto(s, Done(ETIMEOUT))
    case Rx => RxStep(s)
  }

  /** The line is idle and the flags of an earlier reception are cleared; T3P5 may still be
      set, as mb_rtu_tx leaves it. */
  ghost predicate Initial(s: State) {
    && s.line.fifo == [] && !s.line.rxAvail && !s.line.t1p5
    && Quiet(s.line) && !s.line.t1Running && !s.line.t3Running
    && s.rx.pc == WaitFirst && s.rx.data == [] && s.rx.frameOk && !s.rx.sawT1 && !s.rx.sawT3
    && s.log == Log([], [], false, false, false, 0)
  }

  /** The events can happen one after the other, starting in s. */
  ghost predicate Legal(s: State, es: seq<Event>)
    decreases |es|, 0
  {
    es == [] || (Legal(s, es[..|es| - 1]) && Enabled(Exec(s, es[..|es| - 1]), es[|es| - 1]))
  }

  /** The state they lead to. */
  ghost function Exec(s: State, es: seq<Event>): State
    requires Legal(s, es)
    decreases |es|, 1
  {
    if es == [] then s else Next(Exec(s, es[..|es| - 1]), es[|es| - 1])
  }

  // ---- what every step keeps --------------------------------------------------------

  predicate BeforeId(r: Receiver) {
    r.pc == WaitFirst || (Reading(r) && r.pc.site == Id)
  }

  predicate InBody(r: Receiver) {
    r.pc == WaitBody || (Reading(r) && r.pc.site == Body)
  }

  predicate InEnd(r: Receiver) {
    r.pc == WaitEnd || r.pc == FinalClear || (Reading(r) && r.pc.site == End)
  }

  predicate Pending(line: Line) {
    line.rxAvail || !Quiet(line)
  }

  /** No byte is lost, duplicated or reordered. */
  ghost predicate Conserved(s: State) {
    if BeforeId(s.rx) then s.log.sent == s.line.fifo && s.rx.data == [] && s.log.dropped == []
    else
      && s.log.sent == [s.rx.slaveRx] + s.rx.data + s.log.dropped + s.line.fifo
      && (InBody(s.rx) ==> s.log.dropped == [])
  }

  /** A wait never misses a byte that is there: the flag is up or a hook will raise it. */
  ghost predicate Wakes(line: Line, r: Receiver) {
    && (Waiting(r) && r.pc != WaitFirst && line.fifo != [] ==> Pending(line))
    && (r.pc.Raise? || r.pc.Read? ==> r.navail <= |line.fifo|)
    && (r.pc.Raise? ==> r.navail > Size(r, r.pc.site))
    && (r.pc.Read? ==> r.navail <= Size(r, r.pc.site))
    && (r.pc.Read? && r.navail < |line.fifo| ==> Pending(line))
    && (r.pc == Read(Id) ==> r.navail == 1)
    && |r.data| <= MAX_PDU_SIZE
  }

  /** Silence after a byte ends in both timers. */
  ghost predicate Times(s: State) {
    var line, r, log := s.line, s.rx, s.log;
    && (log.sent == [] ==> Quiet(line) && !line.rxAvail && !line.t1p5 && !line.t1Running)
    && (log.sent != [] && Quiet(line) ==> (line.t1p5 || line.t1Running) && (line.t3p5 || line.t3Running))
    && (line.hook != Idle ==> line.t1Running && line.t3Running)
    && (line.t1p5 || r.sawT1 || InEnd(r) ==> log.firedT1)
    && (log.late || log.firedT1 ==> log.sent != [])
    && (r.pc != WaitFirst ==> log.sent != [])
    && (BeforeId(r) ==> |line.fifo| == |log.sent| && !r.sawT1)
    && (r.pc == WaitBody ==> !r.sawT1)
    && (!InEnd(r) ==> r.frameOk)
    && (line.hook == Cleared ==> !line.t1p5 && !line.t3p5)
    && (log.sent != [] && Quiet(line) ==> !(line.t1p5 && line.t1Running) && !(line.t3p5 && line.t3Running))
  }

  ghost predicate Control(s: State) {
    Wakes(s.line, s.rx) && Times(s)
  }

  /** What holds in every state of a reception until it is done. */
  ghost predicate Inv(s: State) {
    Control(s) && Conserved(s)
  }

  lemma InitialInv(s: State)
    requires Initial(s)
    ensures Inv(s)
  {
  }

  lemma EventControl(s: State, e: Event)
    requires Control(s) && Enabled(s, e) && e != Rx && e != Timeout
    ensures Control(Next(s, e))
  {
    hide RxStep;
  }

  lemma WaitControl(s: State)
    requires Control(s) && Waiting(s.rx) && Ready(s)
    ensures Control(s.(rx := AfterWait(s.line, s.rx)))
  {
    hide BitwiseCrc;
  }

  lemma ReadControl(s: State, site: Site)
    requires Control(s) && s.rx.pc == Read(site)
    ensures Control(AfterRead(s, site))
  {
    hide BitwiseCrc;
  }

  lemma StepControl(s: State, e: Event)
    requires Control(s) && Enabled(s, e) && !Next(s, e).rx.pc.Done?
    ensures Control(Next(s, e))
  {
    hide Verify, AfterRead, AfterWait;
    if e == Rx {
      match s.rx.pc {
        case Read(site) => ReadControl(s, site);
        case Clear(_) =>
        case Avail(_) =>
        case Raise(_) =>
        case FinalClear =>
        case _ => WaitControl(s);
      }
    } else {
      EventControl(s, e);
    }
  }

  lemma PushConserves(s: State, b: bv8)
    requires Conserved(s) && Enabled(s, Push(b))
    ensures Conserved(Next(s, Push(b)))
  {
    if !BeforeId(s.rx) {
      var before := [s.rx.slaveRx] + s.rx.data + s.log.dropped;
      assert before + (s.line.fifo + [b]) == before + s.line.fifo + [b];
    }
  }

  lemma ReadIdConserves(s: State)
    requires Conserved(s) && s.rx.pc == Read(Id) && s.rx.navail == 1 <= |s.line.fifo|
    ensures Conserved(AfterRead(s, Id))
  {
    assert s.line.fifo == [s.line.fifo[0]] + s.line.fifo[1..];
  }

  lemma ReadBodyConserves(s: State)
    requires Conserved(s) && s.rx.pc == Read(Body) && s.rx.navail <= |s.line.fifo|
    ensures Conserved(AfterRead(s, Body))
  {
    hide Verify;
    var chunk, rest := s.line.fifo[..s.rx.navail], s.line.fifo[s.rx.navail..];
    VerifyKeeps(s.rx.(data := s.rx.data + chunk));
    Regroup([s.rx.slaveRx], s.rx.data, chunk, s.log.dropped, rest);
    assert s.line.fifo == chunk + rest;
  }

  lemma Regroup(id: seq<bv8>, data: seq<bv8>, chunk: seq<bv8>, none: seq<bv8>, rest: seq<bv8>)
    requires none == []
    ensures id + (data + chunk) + none + rest == id + data + none + (chunk + rest)
  {
  }

  lemma ReadEndConserves(s: State)
    requires Conserved(s) && s.rx.pc == Read(End) && s.rx.navail <= |s.line.fifo|
    ensures Conserved(AfterRead(s, End))
  {
    var chunk, rest := s.line.fifo[..s.rx.navail], s.line.fifo[s.rx.navail..];
    assert s.line.fifo == chunk + rest;
    var before := [s.rx.slaveRx] + s.rx.data;
    assert before + (s.log.dropped + chunk) + rest == before + s.log.dropped + (chunk + rest);
  }

  lemma ReadConserves(s: State, site: Site)
    requires Wakes(s.line, s.rx) && Conserved(s) && s.rx.pc == Read(site)
    ensures Conserved(AfterRead(s, site))
  {
    hide Wakes, Conserved, AfterRead;
    ReadFits(s);
    match site
    case Id => ReadIdConserves(s);
    case Body => ReadBodyConserves(s);
    case End => ReadEndConserves(s);
  }

  lemma ReadFits(s: State)
    requires Wakes(s.line, s.rx) && s.rx.pc.Read?
    ensures s.rx.navail <= |s.line.fifo| && (s.rx.pc == Read(Id) ==> s.rx.navail == 1)
  {
  }

  lemma VerifyKeeps(r: Receiver)
    ensures Verify(r).pc == WaitEnd && Verify(r).data == r.data && Verify(r).slaveRx == r.slaveRx
    ensures Verify(r).unit == r.unit && Verify(r).sawT3 == r.sawT3
  {
    hide BitwiseCrc;
  }

  /** Same contents, and the same side of the address and of the receive loop. */
  ghost predicate SameHold(s: State, t: State) {
    && t.line.fifo == s.line.fifo && t.log.sent == s.log.sent && t.log.dropped == s.log.dropped
    && t.rx.slaveRx == s.rx.slaveRx && t.rx.data == s.rx.data
    && (BeforeId(t.rx) <==> BeforeId(s.rx))
    && (InBody(t.rx) ==> InBody(s.rx))
  }

  lemma SameHoldConserves(s: State, t: State)
    requires Conserved(s) && SameHold(s, t)
    ensures Conserved(t)
  {
  }

  lemma WaitHolds(s: State)
    requires Waiting(s.rx) && Ready(s)
    ensures SameHold(s, s.(rx := AfterWait(s.line, s.rx)))
  {
    hide Verify;
    VerifyKeeps(s.rx.(sawT1 := true));
  }

  lemma OtherStepsHold(s: State, e: Event)
    requires Enabled(s, e) && !e.Push? && e != Timeout
    requires e == Rx ==> !s.rx.pc.Read? && s.rx.pc != FinalClear
    ensures SameHold(s, Next(s, e))
  {
    hide AfterRead, AfterWait;
    if e == Rx && Waiting(s.rx) {
      WaitHolds(s);
    }
  }

  lemma StepConserves(s: State, e: Event)
    requires Inv(s) && Enabled(s, e) && !Next(s, e).rx.pc.Done?
    ensures Conserved(Next(s, e))
  {
    hide BitwiseCrc, AfterRead, AfterWait, AfterAvail, Conserved, Wakes, Times, SameHold;
    if e.Push? {
      PushConserves(s, e.b);
    } else if e == Rx && s.rx.pc.Read? {
      ReadConserves(s, s.rx.pc.site);
    } else {
      OtherStepsHold(s, e);
      SameHoldConserves(s, Next(s, e));
    }
  }

  lemma StepInv(s: State, e: Event)
    requires Inv(s) && Enabled(s, e) && !Next(s, e).rx.pc.Done?
    ensures Inv(Next(s, e))
  {
    hide Next, Control, Conserved;
    StepControl(s, e);
    StepConserves(s, e);
  }

  // ---- one reception, every interleaving --------------------------------------------

  /** What mb_rtu_rx must answer to the bytes of a frame; it depends on nothing else. */
  function Outcome(sent: seq<bv8>, unit: bv8): int
    requires sent != []
  {
    if |sent| - 1 > MAX_PDU_SIZE then EFRAME_NOK
    else if sent[0] != unit && sent[0] != 0 then ESLAVE_ID
    else if BitwiseCrc(sent, 0xFFFF) != 0 then ECRC_FAIL
    else |sent| - 3
  }

  ghost predicate Fits(log: Log) {
    |log.sent| - 1 <= MAX_PDU_SIZE
  }

  /** The checks made on leaving the loop agree with Outcome. */
  ghost predicate Judged(r: Receiver, sent: seq<bv8>) {
    && 0 < |sent| <= 1 + MAX_PDU_SIZE
    && r.slaveRx == sent[0] && r.data == sent[1..]
    && Result(r) == Outcome(sent, r.unit)
    && r.broadcast == (sent[0] == 0)
  }

  /** While no byte has come after T1P5: once it has fired, nothing is pending but what is in
      the FIFO; a frame that fits leaves the loop complete, and one that does not leaves the
      loop with the flag up, so that the last wait refuses it. */
  ghost predicate Clean(s: State) {
    var line, r, log := s.line, s.rx, s.log;
    !log.late ==>
      && (log.firedT1 ==> Quiet(line) && line.t1p5)
      && (InEnd(r) && r.sawT3 ==> line.t3p5)
      && (!InEnd(r) ==> !r.sawT3)
      && (r.pc == FinalClear ==> r.sawT3)
      && (r.sawT1 && r.pc == Avail(Body) ==> !line.rxAvail)
      && (r.sawT1 && r.pc == Read(Body) ==>
            if Fits(log) then r.navail == |line.fifo| && !line.rxAvail
            else r.navail == Size(r, Body) && line.rxAvail)
      && (InEnd(r) && Fits(log) ==>
            (r.pc == WaitEnd || r.pc == FinalClear) && line.fifo == [] && !line.rxAvail && Judged(r, log.sent))
      && (InEnd(r) && !Fits(log) ==>
            (r.pc == WaitEnd && line.rxAvail) || (!r.frameOk && r.error == EFRAME_NOK))
  }

  lemma Counts(s: State)
    requires Conserved(s)
    ensures |s.log.sent| == |s.rx.data| + |s.log.dropped| + |s.line.fifo| + (if BeforeId(s.rx) then 0 else 1)
    ensures InBody(s.rx) ==> s.log.dropped == []
  {
  }

  lemma VerifyJudges(r: Receiver, sent: seq<bv8>)
    requires sent == [r.slaveRx] + r.data && |r.data| <= MAX_PDU_SIZE && r.frameOk
    ensures Judged(Verify(r), sent)
  {
    hide BitwiseCrc;
    CrcConcat([r.slaveRx], r.data, 0xFFFF);
  }

  lemma EventClean(s: State, e: Event)
    requires Control(s) && Clean(s) && Enabled(s, e) && e != Rx && e != Timeout
    ensures Clean(Next(s, e))
  {
    hide RxStep, Judged, Wakes;
  }

  lemma ReadBodyClean(s: State)
    requires Inv(s) && Clean(s) && s.rx.pc == Read(Body) && s.rx.sawT1
    ensures Clean(AfterRead(s, Body))
  {
    hide Conserved, Judged, Verify;
    Counts(s);
    var r := s.rx;
    var chunk := s.line.fifo[..r.navail];
    var r' := r.(data := r.data + chunk);
    VerifyKeeps(r');
    if Fits(s.log) && !s.log.late {
      assert chunk == s.line.fifo;
      WholeFrame(s);
      VerifyJudges(r', s.log.sent);
    }
  }

  lemma WholeFrame(s: State)
    requires Conserved(s) && InBody(s.rx)
    ensures s.log.sent == [s.rx.slaveRx] + (s.rx.data + s.line.fifo)
  {
  }

  lemma ReadOtherClean(s: State, site: Site)
    requires Inv(s) && Clean(s) && s.rx.pc == Read(site) && (site == Body ==> !s.rx.sawT1)
    ensures Clean(AfterRead(s, site))
  {
    hide Conserved, Judged, Verify, Wakes;
    assert site != End ==> !InEnd(AfterRead(s, site).rx);
  }

  lemma SameJudgement(r: Receiver, r': Receiver, sent: seq<bv8>)
    requires r' == r.(sawT3 := true, pc := FinalClear)
    ensures Judged(r, sent) <==> Judged(r', sent)
  {
    hide Outcome;
  }

  lemma WaitClean(s: State)
    requires Inv(s) && Clean(s) && Waiting(s.rx) && Ready(s)
    ensures Clean(s.(rx := AfterWait(s.line, s.rx)))
  {
    hide Conserved, Judged, Verify;
    Counts(s);
    var r' := s.rx.(sawT1 := true);
    VerifyKeeps(r');
    SameJudgement(s.rx, s.rx.(sawT3 := true, pc := FinalClear), s.log.sent);
    if s.rx.pc == WaitBody && !s.line.rxAvail && !s.log.late {
      WholeFrame(s);
      assert s.rx.data + [] == s.rx.data;
      VerifyJudges(r', s.log.sent);
    }
  }

  lemma AccessClean(s: State)
    requires Inv(s) && Clean(s) && Reading(s.rx) && !s.rx.pc.Read?
    ensures Clean(RxStep(s))
  {
    hide Conserved, Judged, AfterRead, AfterWait;
    Counts(s);
  }

  lemma StepClean(s: State, e: Event)
    requires Inv(s) && Clean(s) && Enabled(s, e) && !Next(s, e).rx.pc.Done?
    ensures Clean(Next(s, e))
  {
    hide Control, Conserved, Clean, AfterRead, AfterWait, AfterAvail;
    if e != Rx {
      EventClean(s, e);
    } else if s.rx.pc == Read(Body) && s.rx.sawT1 {
      ReadBodyClean(s);
    } else if s.rx.pc.Read? {
      ReadOtherClean(s, s.rx.pc.site);
    } else if Reading(s.rx) {
      AccessClean(s);
    } else {
      WaitClean(s);
    }
  }

  // ---- frames that must be refused --------------------------------------------------

  predicate Refused(r: Receiver) {
    !r.frameOk && r.error == EFRAME_NOK
  }

  /** A byte that comes after the receive loop while T3P5 is clear keeps the last wait from
      ending before its flag is up. So does a FIFO that still holds bytes when T3P5 fires,
      which it does whenever more than 253 followed the address. */
  ghost predicate Refusing(s: State) {
    var line, r, log := s.line, s.rx, s.log;
    && log.sentAtT3 <= |log.sent|
    && (Reading(r) && r.pc.site == End ==> Refused(r))
    && (!Refused(r) ==> log.dropped == [])
    && (log.stray ==> InEnd(r))
    && (log.stray && !Refused(r) ==> r.pc == WaitEnd && (line.rxAvail || (!line.t3p5 && !Quiet(line))))
    && (log.sentAtT3 > 1 + MAX_PDU_SIZE && !Refused(r) ==>
          r.pc != FinalClear && ((Waiting(r) && r.pc != WaitFirst) || r.pc.Read? ==> line.rxAvail))
  }

  lemma EventRefusing(s: State, e: Event)
    requires Inv(s) && Refusing(s) && Enabled(s, e) && e != Rx && e != Timeout
    ensures Refusing(Next(s, e))
  {
    hide RxStep, Conserved, Times;
    Counts(s);
  }

  lemma VerifyNotRefused(r: Receiver)
    requires r.frameOk
    ensures !Refused(Verify(r))
  {
    hide BitwiseCrc;
  }

  lemma ReadRefusing(s: State, site: Site)
    requires Inv(s) && Refusing(s) && s.rx.pc == Read(site)
    ensures Refusing(AfterRead(s, site))
  {
    hide Conserved, Verify, Wakes;
    Counts(s);
    if site == Body {
      var n := if s.rx.navail <= |s.line.fifo| then s.rx.navail else |s.line.fifo|;
      var r' := s.rx.(data := s.rx.data + s.line.fifo[..n]);
      VerifyKeeps(r');
      VerifyNotRefused(r');
    }
  }

  lemma WaitRefusing(s: State)
    requires Inv(s) && Refusing(s) && Waiting(s.rx) && Ready(s)
    ensures Refusing(s.(rx := AfterWait(s.line, s.rx)))
  {
    hide Conserved, Verify, Wakes;
    VerifyKeeps(s.rx.(sawT1 := true));
    if s.rx.pc == WaitBody {
      VerifyNotRefused(s.rx.(sawT1 := true));
    }
  }

  lemma AccessRefusing(s: State)
    requires Inv(s) && Refusing(s) && !s.rx.pc.Done? && s.rx.pc != FinalClear && !Waiting(s.rx) && !s.rx.pc.Read?
    ensures Refusing(RxStep(s))
  {
    hide Conserved, Times, AfterRead, AfterWait, Wakes;
    Counts(s);
    if s.rx.pc == Avail(Id) || s.rx.pc == Avail(Body) {
      NoRoom(s);
    }
  }

  lemma NoRoom(s: State)
    requires Inv(s) && Refusing(s) && (s.rx.pc == Avail(Id) || s.rx.pc == Avail(Body))
    ensures s.log.sentAtT3 > 1 + MAX_PDU_SIZE ==> Refused(s.rx) || |s.line.fifo| > Size(s.rx, s.rx.pc.site)
  {
    hide Conserved;
    Counts(s);
  }

  lemma StepRefusing(s: State, e: Event)
    requires Inv(s) && Refusing(s) && Enabled(s, e) && !Next(s, e).rx.pc.Done?
    ensures Refusing(Next(s, e))
  {
    hide Inv, Refusing, AfterRead, AfterWait, AfterAvail;
    if e != Rx {
      EventRefusing(s, e);
    } else if s.rx.pc.Read? {
      ReadRefusing(s, s.rx.pc.site);
    } else if Waiting(s.rx) {
      WaitRefusing(s);
    } else if s.rx.pc != FinalClear {
      AccessRefusing(s);
    }
  }

  // ---- the theorems -----------------------------------------------------------------

  /** Where mb_rtu_rx may be called: on an idle line, or with bytes already there whose hook has not
      run, as after a call that timed out. */
  ghost predicate Begins(s: State) {
    s.rx.pc == WaitFirst && Inv(s) && Clean(s) && Refusing(s)
  }

  lemma InitialBegins(s: State)
    requires Initial(s)
    ensures Begins(s)
  {
    InitialInv(s);
    InitialOthers(s);
  }

  lemma BeginsEmpty(s: State)
    requires Begins(s)
    ensures s.rx.data == [] && s.rx.frameOk && !s.rx.sawT1
  {
    hide Clean, Refusing, Wakes;
  }

  /** In every state of every interleaving of one reception all of the above holds. */
  lemma {:induction false} RunInv(s: State, es: seq<Event>)
    requires Begins(s) && Legal(s, es) && !Exec(s, es).rx.pc.Done?
    ensures var t := Exec(s, es); Inv(t) && Clean(t) && Refusing(t)
    decreases |es|
  {
    hide Inv, Clean, Refusing, Next;
    if es != [] {
      var init, e := es[..|es| - 1], es[|es| - 1];
      RunInv(s, init);
      var m := Exec(s, init);
      StepInv(m, e);
      StepClean(m, e);
      StepRefusing(m, e);
    }
  }

  lemma InitialOthers(s: State)
    requires Initial(s)
    ensures Clean(s) && Refusing(s)
  {
  }
}
