/** The mb_slave task over TCP: src/mb_slave.c:395-537 with the transport of src/mb_tcp.c, whose
    rx_avail and rx_bc are always false. */
module TcpSlave {
  import opened Errors
  import opened Pdu
  import opened Slave
  import opened SlaveService
  import opened TcpFraming
  import opened TcpSocket
  import opened TcpTransport
  import Spec = SlaveSpec

  // ---- what the task does, message by message -----------------------------------------------

  /** A connection: the bytes its peer sends, the messages taken from them, and the replies. */
  datatype Talk = Talk(stream: seq<bv8>, frames: seq<Frame>, replies: seq<Frame>)

  /** The tables, the slave's buffer, and all connections so far. */
  datatype Service = Service(store: Spec.Store, buffer: seq<bv8>, talks: seq<Talk>)

  /** What can happen: the user changes the tables, a connection, bytes left in the buffer by one that
      broke down, a message. */
  datatype Step = Changed(to: Spec.Store) | Opened(stream: seq<bv8>) | Lost(scrap: seq<bv8>) | Took(frame: Frame)

  predicate ValidService(v: Service) {
    Spec.ValidStore(v.store) && |v.buffer| == MAX_PDU_SIZE
  }

  predicate IsStep(x: Step) {
    match x
    case Changed(_) => true
    case Opened(_) => true
    case Lost(scrap) => |scrap| <= MAX_PDU_SIZE
    case Took(f) => IsFrame(f)
  }

  predicate AreSteps(steps: seq<Step>) {
    forall k :: 0 <= k < |steps| ==> IsStep(steps[k])
  }

  /** A request is handled and answered under its id and unit; a message of another protocol only
      passes through the buffer. */
  function Serve(s: Spec.Store, buffer: seq<bv8>, f: Frame): (r: (Spec.Store, seq<bv8>, seq<Frame>))
    requires Spec.ValidStore(s) && |buffer| == MAX_PDU_SIZE && IsFrame(f)
    ensures Spec.ValidStore(r.0) && |r.1| == MAX_PDU_SIZE
  {
    var buf := f.pdu + buffer[|f.pdu|..];
    if f.protocol != 0 then (s, buf, [])
    else
      Spec.ResponseShape(s, buf, |f.pdu|, false);
      Spec.HandleKeepsTables(s, buf, |f.pdu|, false);
      var (s', response) := Spec.Handle(s, buf, |f.pdu|, false);
      (s', response + buf[|response|..], [Frame(f.id, 0, f.unit, response)])
  }

  function Heard(talks: seq<Talk>, f: Frame, replies: seq<Frame>): seq<Talk> {
    if talks == [] then []
    else
      var n := |talks| - 1;
      talks[n := Talk(talks[n].stream, talks[n].frames + [f], talks[n].replies + replies)]
  }

  function Do(v: Service, x: Step): (r: Service)
    requires ValidService(v) && IsStep(x)
    ensures ValidService(r)
  {
    match x
    case Changed(to) => v.(store := Spec.AfterUser(v.store, to))
    case Opened(stream) => v.(talks := v.talks + [Talk(stream, [], [])])
    case Lost(scrap) => v.(buffer := scrap + v.buffer[|scrap|..])
    case Took(f) =>
      var (s, buf, replies) := Serve(v.store, v.buffer, f);
      Service(s, buf, Heard(v.talks, f, replies))
  }

  function DoAll(v: Service, steps: seq<Step>): (r: Service)
    requires ValidService(v) && AreSteps(steps)
    ensures ValidService(r)
  {
    if steps == [] then v else Do(DoAll(v, steps[..|steps| - 1]), steps[|steps| - 1])
  }

  lemma DoMore(v: Service, steps: seq<Step>, x: Step)
    requires ValidService(v) && AreSteps(steps) && IsStep(x)
    ensures AreSteps(steps + [x]) && DoAll(v, steps + [x]) == Do(DoAll(v, steps), x)
  {
    hide Do, ValidService, IsStep;
    var more := steps + [x];
    assert more[..|more| - 1] == steps && more[|more| - 1] == x;
  }

  predicate Replies(request: Frame, reply: Frame) {
    && reply.id == request.id && reply.unit == request.unit && reply.protocol == 0
    && IsFrame(request) && IsFrame(reply)
    && Spec.WellFormed(request.pdu[0], request.pdu, reply.pdu)
  }

  /** One well-formed reply for each request, in order, under its id and unit. */
  predicate Answered(t: Talk) {
    var requests := Requests(t.frames);
    |t.replies| == |requests| && forall k :: 0 <= k < |requests| ==> Replies(requests[k], t.replies[k])
  }

  /** On every connection of every run each request is answered once; and whoever deframes the stream
      of the replies gets exactly these. */
  lemma {:induction false} OneReplyEach(v: Service, steps: seq<Step>)
    requires ValidService(v) && AreSteps(steps) && v.talks == []
    ensures forall t :: t in DoAll(v, steps).talks ==> Answered(t) && Frames(Stream(t.replies)) == t.replies
  {
    AllAnswered(v, steps);
    forall t | t in DoAll(v, steps).talks ensures Answered(t) && Frames(Stream(t.replies)) == t.replies {
      RepliesDeframe(t);
    }
  }

  lemma RepliesDeframe(t: Talk)
    requires Answered(t)
    ensures Frames(Stream(t.replies)) == t.replies
  {
    forall k | 0 <= k < |t.replies| ensures IsFrame(t.replies[k]) {
      assert Replies(Requests(t.frames)[k], t.replies[k]);
    }
    StreamRoundTrip(t.replies, []);
    assert Stream(t.replies) + [] == Stream(t.replies) && Frames([]) == [];
  }

  lemma {:induction false} AllAnswered(v: Service, steps: seq<Step>)
    requires ValidService(v) && AreSteps(steps) && v.talks == []
    ensures forall t :: t in DoAll(v, steps).talks ==> Answered(t)
  {
    hide Answered, Do, ValidService, IsStep;
    if steps != [] {
      AllAnswered(v, steps[..|steps| - 1]);
      StepAnswers(DoAll(v, steps[..|steps| - 1]), steps[|steps| - 1]);
    }
  }

  lemma StepAnswers(w: Service, x: Step)
    requires ValidService(w) && IsStep(x) && forall t :: t in w.talks ==> Answered(t)
    ensures forall t :: t in Do(w, x).talks ==> Answered(t)
  {
    hide Serve, Answered;
    match x {
      case Changed(_) =>
      case Opened(stream) => NothingAsked(stream);
      case Lost(_) =>
      case Took(f) =>
        if w.talks != [] {
          TalkGoesOn(w.talks[|w.talks| - 1], w.store, w.buffer, f);
        }
    }
  }

  lemma NothingAsked(stream: seq<bv8>)
    ensures Answered(Talk(stream, [], []))
  {
  }

  lemma TalkGoesOn(t: Talk, s: Spec.Store, buffer: seq<bv8>, f: Frame)
    requires Answered(t) && Spec.ValidStore(s) && |buffer| == MAX_PDU_SIZE && IsFrame(f)
    ensures Answered(Talk(t.stream, t.frames + [f], t.replies + Serve(s, buffer, f).2))
  {
    hide Spec.Handle, Spec.ValidStore, Requests;
    RequestsMore(t.frames, f);
    if f.protocol == 0 {
      var buf := f.pdu + buffer[|f.pdu|..];
      Spec.ResponseShape(s, buf, |f.pdu|, false);
      assert buf[..|f.pdu|] == f.pdu;
      assert Replies(f, Serve(s, buffer, f).2[0]);
    }
  }

  // ---- one turn of the task -----------------------------------------------------------------

  /** The memory of the slave and of the transport is apart. */
  ghost predicate Apart(slave: Slave, tcp: Tcp, txn: Transaction)
    reads slave.coils, slave.inputs, slave.inputRegs, slave.holding
  {
    slave.Valid() && Separate(slave, tcp, txn)
  }

  ghost predicate Separate(slave: Slave, tcp: Tcp, txn: Transaction) {
    && tcp.Valid() && tcp.Serves(txn)
    && txn.data != slave.coils.bytes && txn.data != slave.inputs.bytes
    && tcp.mbap != slave.coils.bytes && tcp.mbap != slave.inputs.bytes
  }

  /** The transaction names the connection in use, if there is one. */
  ghost predicate Linked(tcp: Tcp, txn: Transaction)
    reads tcp, tcp.net, txn
  {
    if tcp.isDown then tcp.Down() else tcp.Up(txn.arg)
  }

  /** What a turn is about: tables, buffer, what is still to come, what was sent, and whether the
      connection is up. */
  datatype World = World(store: Spec.Store, buffer: seq<bv8>, stream: seq<bv8>, sent: seq<bv8>, up: bool)

  ghost function WorldOf(slave: Slave, tcp: Tcp, txn: Transaction): World
    requires slave.Valid()
    reads tcp, tcp.net, txn, txn.data
    reads slave.coils, slave.inputs, slave.inputRegs, slave.holding
    reads slave.coils.bytes, slave.inputs.bytes, slave.inputRegs.regs, slave.holding.regs
  {
    World(slave.View(), txn.data[..], tcp.net.incoming, tcp.net.outgoing, !tcp.isDown)
  }

  /** One request, or none: a timeout changes nothing, a breakdown leaves bytes in the buffer, and a
      message is served, its reply sent whole or in part if the connection breaks down then. */
  ghost predicate Turned(w: World, w': World, steps: seq<Step>) {
    if steps == [] then w' == w
    else
      |steps| == 1 &&
      match steps[0]
      case Changed(_) => false
      case Opened(_) => false
      case Lost(scrap) =>
        && |scrap| <= |w.buffer| == MAX_PDU_SIZE && !w'.up
        && w' == w.(buffer := scrap + w.buffer[|scrap|..], stream := w'.stream, up := false)
      case Took(f) =>
        && Spec.ValidStore(w.store) && |w.buffer| == MAX_PDU_SIZE
        && Deframe(w.stream).Got? && Deframe(w.stream).frame == f
        && var (s, buf, replies) := Serve(w.store, w.buffer, f);
           && w'.store == s && w'.buffer == buf
           && (w'.up ==> w'.stream == Deframe(w.stream).rest && w'.sent == w.sent + Stream(replies))
           && exists cut :: 0 <= cut <= |Stream(replies)| && w'.sent == w.sent + Stream(replies)[..cut]
  }

  /** The part of mb_slave_handle_request after a request has come. */
  method Respond(slave: Slave, tcp: Tcp, txn: Transaction, rxCount: nat)
    returns (ghost response: seq<bv8>, ghost cut: nat)
    requires Apart(slave, tcp, txn) && tcp.Up(txn.arg) && 0 < rxCount <= MAX_PDU_SIZE
    modifies tcp`isDown, tcp.mbap, txn.data, slave.coils.bytes, slave.holding.regs
    modifies tcp.net`outgoing, tcp.net`sends, tcp.net`log, tcp.net`peer
    ensures Apart(slave, tcp, txn) && Linked(tcp, txn) && Spec.ValidStore(old(slave.View()))
    ensures (slave.View(), response) == Spec.Handle(old(slave.View()), old(txn.data[..]), rxCount, false)
    ensures |response| <= MAX_PDU_SIZE && txn.data[..] == response + old(txn.data[..])[|response|..]
    ensures var bytes := Bytes(Frame(txn.id, 0, txn.unit, response));
      cut <= |bytes| && tcp.net.outgoing == old(tcp.net.outgoing) + bytes[..cut] && (!tcp.isDown ==> cut == |bytes|)
    ensures old(tcp.Sounds(txn.arg)) ==> tcp.Sounds(txn.arg)
  {
    hide Spec.Handle, Spec.ValidStore, After, Bytes, NoneBelow;
    slave.ViewIsValid();
    tcp.net.Note(Handled(txn.arg));  // history only
    var txCount := slave.Execute(txn.data, rxCount, false);
    response := txn.data[..txCount];
    cut := tcp.MbTcpTx(txn, txCount);
  }

  /** mb_slave_handle_request */
  method HandleTcp(slave: Slave, tcp: Tcp, txn: Transaction) returns (ghost steps: seq<Step>)
    requires Apart(slave, tcp, txn) && tcp.Up(txn.arg)
    modifies tcp`isDown, tcp.mbap, txn`id, txn`unit, txn.data, slave.coils.bytes, slave.holding.regs
    modifies tcp.net`waits, tcp.net`incoming, tcp.net`recvs, tcp.net`outgoing, tcp.net`sends, tcp.net`log, tcp.net`peer
    ensures Apart(slave, tcp, txn) && Linked(tcp, txn)
    ensures Turned(old(WorldOf(slave, tcp, txn)), WorldOf(slave, tcp, txn), steps)
    ensures old(tcp.Sounds(txn.arg)) ==>
      if steps == [] then
        tcp.Sounds(txn.arg) && Timeouts(old(tcp.net.waits)) == Timeouts(tcp.net.waits) + 1
      else if steps[0].Took? then tcp.Sounds(txn.arg) && Timeouts(tcp.net.waits) == Timeouts(old(tcp.net.waits))
      else Deframe(old(tcp.net.incoming)).Short?
  {
    hide Spec.Handle, Spec.ValidStore, After, Deframe, Bytes, Timeouts, NoneBelow, Turned;
    slave.ViewIsValid();
    ghost var w := WorldOf(slave, tcp, txn);
    var rxCount;
    ghost var scrap;
    rxCount, scrap := tcp.MbTcpRx(txn);
    steps := if rxCount == ETIMEOUT then [] else if tcp.isDown then [Lost(scrap)] else [Took(Deframe(w.stream).frame)];
    if rxCount > 0 {
      ghost var response, cut := Respond(slave, tcp, txn, rxCount);
      TookRequest(w, WorldOf(slave, tcp, txn), response, cut);
    } else {
      TookNone(w, WorldOf(slave, tcp, txn), steps);
    }
  }

  lemma TookNone(w: World, w': World, steps: seq<Step>)
    requires w.up && |w.buffer| == MAX_PDU_SIZE && Spec.ValidStore(w.store)
    requires w'.store == w.store && w'.sent == w.sent
    requires || (steps == [] && w' == w)
             || (|steps| == 1 && steps[0].Lost? && |steps[0].scrap| <= MAX_PDU_SIZE && !w'.up
                 && w'.buffer == steps[0].scrap + w.buffer[|steps[0].scrap|..])
             || (|steps| == 1 && Deframe(w.stream).Got? && steps[0] == Took(Deframe(w.stream).frame)
                 && steps[0].frame.protocol != 0 && w'.up && w'.stream == Deframe(w.stream).rest
                 && w'.buffer == steps[0].frame.pdu + w.buffer[|steps[0].frame.pdu|..])
    ensures Turned(w, w', steps)
  {
    hide Deframe, Spec.ValidStore;
    if steps != [] && steps[0].Took? {
      assert Stream([]) == [] && w.sent + [] == w.sent && Stream([])[..0] == [];
    }
  }

  lemma TookRequest(w: World, w': World, response: seq<bv8>, cut: nat)
    requires w.up && |w.buffer| == MAX_PDU_SIZE && Spec.ValidStore(w.store)
    requires Deframe(w.stream).Got? && Deframe(w.stream).frame.protocol == 0
    requires var f := Deframe(w.stream).frame;
      var buf := f.pdu + w.buffer[|f.pdu|..];
      var bytes := Bytes(Frame(f.id, 0, f.unit, response));
      && (w'.store, response) == Spec.Handle(w.store, buf, |f.pdu|, false) && |response| <= MAX_PDU_SIZE
      && w'.buffer == response + buf[|response|..] && w'.stream == Deframe(w.stream).rest
      && cut <= |bytes| && w'.sent == w.sent + bytes[..cut] && (w'.up ==> cut == |bytes|)
    ensures Turned(w, w', [Took(Deframe(w.stream).frame)])
  {
    hide Deframe, Spec.ValidStore, Spec.Handle, Bytes;
    var f := Deframe(w.stream).frame;
    var reply := Frame(f.id, 0, f.unit, response);
    StreamOfOne(reply);
    assert Serve(w.store, w.buffer, f).2 == [reply];
    assert Stream([reply])[..|Bytes(reply)|] == Bytes(reply);
  }

  lemma StreamOfOne(f: Frame)
    ensures Stream([f]) == Bytes(f)
  {
    hide Bytes;
    assert [f][1..] == [] && Stream([f][1..]) == [];
  }

  // ---- the task -----------------------------------------------------------------------------

  /** What was sent is the stream of the replies, cut off at most in the last one; the messages are
      the first ones of what the peer sent. */
  predicate Conveyed(t: Talk, s: Session) {
    && t.stream == s.peer.incoming && t.frames <= Frames(t.stream) && s.sent <= Stream(t.replies)
    && (t.replies != [] ==> Stream(t.replies[..|t.replies| - 1]) <= s.sent)
  }

  /** All messages were taken, and the replies sent whole. */
  predicate Complete(t: Talk, s: Session) {
    t.frames == Frames(t.stream) && s.sent == Stream(t.replies)
  }

  /** The connections of a transport, with the bytes still to come on the current one. */
  datatype Links = Links(
    past: seq<Session>, current: Peer, outgoing: seq<bv8>, incoming: seq<bv8>, up: bool, sound: bool)

  ghost function LinksOf(tcp: Tcp, txn: Transaction): Links
    reads tcp, tcp.net, txn
  {
    Links(tcp.net.past, tcp.net.current, tcp.net.outgoing, tcp.net.incoming, !tcp.isDown, tcp.Sounds(txn.arg))
  }

  /** A connection that is over is complete if nothing on it failed; on the one that is up, every
      message taken so far has been replied to. */
  predicate InTouch(t: Talk, k: Links) {
    var s := Session(k.current, k.outgoing);
    && Conveyed(t, s)
    && (k.up ==> Leads(t.stream, t.frames, k.incoming) && s.sent == Stream(t.replies))
    && (SoundPeer(k.current) ==> if k.up then k.sound else Complete(t, s))
  }

  predicate TalksAgree(talks: seq<Talk>, k: Links) {
    var n := |k.past|;
    && (forall i :: 0 <= i < n && i < |talks| ==>
          Conveyed(talks[i], k.past[i]) && (SoundPeer(k.past[i].peer) ==> Complete(talks[i], k.past[i])))
    && if k.current.number <= 0 then |talks| == n == 0 && !k.up else |talks| == n + 1 && InTouch(talks[n], k)
  }

  lemma Opens(talks: seq<Talk>, k: Links, k': Links)
    requires TalksAgree(talks, k) && !k.up && k'.up && k'.current.number > 0
    requires k'.past == if k.current.number <= 0 then k.past else k.past + [Session(k.current, k.outgoing)]
    requires k'.outgoing == [] && k'.incoming == k'.current.incoming && (SoundPeer(k'.current) ==> k'.sound)
    ensures TalksAgree(talks + [Talk(k'.incoming, [], [])], k')
  {
    hide Frames, SoundPeer, InTouch, Conveyed, Complete;
    FreshTalk(k');
    if k.current.number > 0 {
      TalkOver(talks[|k.past|], k);
    }
  }

  lemma FreshTalk(k: Links)
    requires k.up && k.outgoing == [] && k.incoming == k.current.incoming && (SoundPeer(k.current) ==> k.sound)
    ensures InTouch(Talk(k.incoming, [], []), k)
  {
    hide Frames, SoundPeer;
    NoStream();
  }

  lemma TalkOver(t: Talk, k: Links)
    requires InTouch(t, k) && !k.up
    ensures var s := Session(k.current, k.outgoing);
      Conveyed(t, s) && (SoundPeer(k.current) ==> Complete(t, s))
  {
    hide SoundPeer, Conveyed, Complete;
  }

  /** A turn carries a connection that is up on. */
  lemma GoesOn(t: Talk, k: Links, k': Links, w: World, w': World, steps: seq<Step>)
    requires InTouch(t, k) && k.up && k'.current == k.current && Turned(w, w', steps)
    requires w.stream == k.incoming && w'.stream == k'.incoming && w.sent == k.outgoing && w'.sent == k'.outgoing
    requires w.up && w'.up == k'.up
    requires k.sound ==> if steps == [] || steps[0].Took? then k'.up && k'.sound else Deframe(w.stream).Short?
    ensures steps != [] && steps[0].Took? ==>
      InTouch(Talk(t.stream, t.frames + [steps[0].frame],
                   t.replies + Serve(w.store, w.buffer, steps[0].frame).2), k')
    ensures !(steps != [] && steps[0].Took?) ==> InTouch(t, k')
  {
    hide Deframe, Serve, SoundPeer, Leads, Frames, Stream;
    LeadsFrames(t.stream, t.frames, w.stream);
    NextFrame(w.stream);
    if steps != [] && steps[0].Took? {
      var f, rest := steps[0].frame, Deframe(w.stream).rest;
      LeadsMore(t.stream, t.frames, w.stream);
      LeadsFrames(t.stream, t.frames + [f], rest);
      ReplySent(t.replies, w, w', f);
    }
  }

  lemma ReplySent(replies: seq<Frame>, w: World, w': World, f: Frame)
    requires Turned(w, w', [Took(f)]) && w.sent == Stream(replies)
    ensures var more := replies + Serve(w.store, w.buffer, f).2;
      && w'.sent <= Stream(more) && (w'.up ==> w'.sent == Stream(more))
      && (more != [] ==> Stream(more[..|more| - 1]) <= w'.sent)
  {
    hide Deframe, Spec.Handle, Spec.ValidStore, Stream;
    var r := Serve(w.store, w.buffer, f).2;
    var more := replies + r;
    StreamConcat(replies, r);
    if r == [] {
      NoStream();
      assert more == replies;
      ShorterStream(replies);
    } else {
      assert more[..|more| - 1] == replies;
    }
  }

  lemma NoStream()
    ensures Stream([]) == []
  {
  }

  lemma ShorterStream(frames: seq<Frame>)
    ensures frames != [] ==> Stream(frames[..|frames| - 1]) <= Stream(frames)
  {
    hide Stream;
    if frames != [] {
      var n := |frames| - 1;
      StreamConcat(frames[..n], frames[n..]);
      assert frames == frames[..n] + frames[n..];
    }
  }

  predicate AllSound(queue: seq<Peer>) {
    forall k :: 0 <= k < |queue| ==> SoundPeer(queue[k])
  }

  /** The inner loop of mb_slave: connections are brought up until one is, or there is none. */
  method AwaitPeer(tcp: Tcp, txn: Transaction) returns (ghost steps: seq<Step>)
    requires Linked(tcp, txn)
    modifies tcp`isDown, tcp.net, txn`arg
    ensures old(!tcp.isDown) ==> steps == [] && unchanged(tcp, tcp.net, txn)
    ensures old(tcp.isDown) && tcp.isDown ==>
      && steps == [] && txn.arg == -1 && tcp.Down() && tcp.net.past == old(tcp.net.past)
      && tcp.net.current == old(tcp.net.current) && tcp.net.outgoing == old(tcp.net.outgoing)
    ensures old(tcp.isDown) && tcp.isDown && AllSound(old(tcp.net.queue)) ==>
      old(tcp.net.queue) == [] && tcp.net.queue == []
    ensures old(tcp.isDown) && !tcp.isDown ==>
      && steps == [Opened(tcp.net.current.incoming)] && tcp.Up(txn.arg)
      && tcp.net.past == old(tcp.net.Sessions()) && tcp.net.outgoing == []
      && tcp.net.incoming == tcp.net.current.incoming && tcp.net.waits == tcp.net.current.waits
      && (SoundPeer(tcp.net.current) ==> tcp.Sounds(txn.arg))
    ensures old(tcp.isDown) && !tcp.isDown && AllSound(old(tcp.net.queue)) ==>
      old(tcp.net.queue) == [tcp.net.current] + tcp.net.queue
  {
    hide After, SoundPeer, NoneBelow;
    ghost var queue := tcp.net.queue;
    steps := [];
    while tcp.isDown
      invariant Linked(tcp, txn)
      invariant old(!tcp.isDown) ==> steps == [] && unchanged(tcp, tcp.net, txn)
      invariant tcp.isDown ==>
        && steps == [] && tcp.net.past == old(tcp.net.past) && tcp.net.current == old(tcp.net.current)
        && tcp.net.outgoing == old(tcp.net.outgoing) && (AllSound(queue) ==> tcp.net.queue == queue)
      invariant !tcp.isDown && old(tcp.isDown) ==>
        && steps == [Opened(tcp.net.current.incoming)]
        && tcp.net.past == old(tcp.net.Sessions()) && tcp.net.outgoing == []
        && tcp.net.incoming == tcp.net.current.incoming && tcp.net.waits == tcp.net.current.waits
        && (SoundPeer(tcp.net.current) ==> tcp.Sounds(txn.arg))
        && (AllSound(queue) ==> queue == [tcp.net.current] + tcp.net.queue)
      decreases |tcp.net.queue|
    {
      ghost var before := tcp.net.queue;
      SoundNumbers(before);
      txn.arg := tcp.Bringup();
      if txn.arg == -1 {
        break;
      }
      if !tcp.isDown {
        steps := [Opened(tcp.net.current.incoming)];
      }
    }
  }

  lemma SoundNumbers(queue: seq<Peer>)
    ensures AllSound(queue) && queue != [] ==> queue[0].number > 0
  {
  }

  /** How many turns a connection takes: one for each message, one for each timeout, and one to see that
      it is over. */
  function WorkOf(stream: seq<bv8>, waits: seq<int>): (n: nat)
    ensures n > 0
  {
    |Frames(stream)| + Timeouts(waits) + 1
  }

  function Work(queue: seq<Peer>): nat {
    if queue == [] then 0 else WorkOf(queue[0].incoming, queue[0].waits) + Work(queue[1..])
  }

  ghost function Left(tcp: Tcp): nat
    reads tcp, tcp.net
  {
    Work(tcp.net.queue) + if tcp.isDown then 0 else WorkOf(tcp.net.incoming, tcp.net.waits)
  }

  /** Nothing that is under way or to come will fail. */
  ghost predicate Undisturbed(tcp: Tcp, txn: Transaction)
    reads tcp, tcp.net, txn
  {
    AllSound(tcp.net.queue) && (!tcp.isDown ==> tcp.Sounds(txn.arg))
  }

  function Peers(sessions: seq<Session>): seq<Peer> {
    seq(|sessions|, i requires 0 <= i < |sessions| => sessions[i].peer)
  }

  /** All peers, those of the past, the current one and those to come. */
  function Everyone(net: Net): seq<Peer>
    reads net
  {
    Peers(net.Sessions()) + net.queue
  }

  /** The slave, its buffer and its connections are as the steps so far have made them. */
  ghost predicate Agrees(slave: Slave, tcp: Tcp, txn: Transaction, v: Service)
    requires slave.Valid()
    reads tcp, tcp.net, txn, txn.data
    reads slave.coils, slave.inputs, slave.inputRegs, slave.holding
    reads slave.coils.bytes, slave.inputs.bytes, slave.inputRegs.regs, slave.holding.regs
  {
    slave.View() == v.store && txn.data[..] == v.buffer && TalksAgree(v.talks, LinksOf(tcp, txn))
  }

  function DoOne(v: Service, steps: seq<Step>): (r: Service)
    requires ValidService(v) && AreSteps(steps) && |steps| <= 1
    ensures ValidService(r)
  {
    if steps == [] then v else Do(v, steps[0])
  }

  lemma DoTwo(v: Service, a: seq<Step>, b: seq<Step>)
    requires ValidService(v) && AreSteps(a) && AreSteps(b) && |a| <= 1 && |b| <= 1
    ensures AreSteps(a + b) && DoAll(v, a + b) == DoOne(DoOne(v, a), b)
  {
    hide Do, ValidService, IsStep;
    assert DoAll(v, []) == v;
    if a != [] {
      DoMore(v, [], a[0]);
      assert [] + [a[0]] == a;
    }
    if b == [] {
      assert a + b == a;
    } else {
      DoMore(v, a, b[0]);
      assert a + [b[0]] == a + b;
    }
  }

  predicate NotByUser(steps: seq<Step>) {
    forall k :: 0 <= k < |steps| ==> !steps[k].Changed?
  }

  lemma TurnedSteps(w: World, w': World, steps: seq<Step>)
    requires Turned(w, w', steps)
    ensures AreSteps(steps) && |steps| <= 1 && (steps != [] ==> !steps[0].Opened? && !steps[0].Changed?)
  {
    hide Deframe, Serve;
  }

  /** A turn on a connection that is up. */
  method TakeTurn(slave: Slave, tcp: Tcp, txn: Transaction, own: bv8, ghost v: Service)
    returns (ghost steps: seq<Step>)
    requires Apart(slave, tcp, txn) && tcp.Up(txn.arg) && ValidService(v) && Agrees(slave, tcp, txn, v)
    modifies tcp`isDown, tcp.mbap, txn`id, txn`unit, txn.data, slave.coils.bytes, slave.holding.regs
    modifies tcp.net`waits, tcp.net`incoming, tcp.net`recvs, tcp.net`outgoing, tcp.net`sends, tcp.net`log, tcp.net`peer
    ensures Apart(slave, tcp, txn) && Linked(tcp, txn)
    ensures AreSteps(steps) && |steps| <= 1 && Agrees(slave, tcp, txn, DoOne(v, steps)) && NotByUser(steps)
    ensures old(tcp.Sounds(txn.arg)) && !tcp.isDown ==>
      tcp.Sounds(txn.arg)
      && WorkOf(tcp.net.incoming, tcp.net.waits) < WorkOf(old(tcp.net.incoming), old(tcp.net.waits))
  {
    hide After, SoundPeer, NoneBelow, InTouch, Conveyed, Complete, Serve, Turned;
    hide Spec.ValidStore, TalksAgree, DoOne, Frames, Timeouts;
    ghost var k, w := LinksOf(tcp, txn), WorldOf(slave, tcp, txn);
    txn.unit := own;
    steps := HandleTcp(slave, tcp, txn);
    TurnedSteps(w, WorldOf(slave, tcp, txn), steps);
    Carried(v, k, LinksOf(tcp, txn), w, WorldOf(slave, tcp, txn), steps);
    LessWork(w, WorldOf(slave, tcp, txn), steps);
  }

  lemma LessWork(w: World, w': World, steps: seq<Step>)
    requires Turned(w, w', steps) && w.up
    ensures w'.up && steps == [] ==> w'.stream == w.stream
    ensures w'.up && steps != [] ==> |Frames(w'.stream)| < |Frames(w.stream)|
    ensures steps != [] && !steps[0].Took? ==> !w'.up
  {
    hide Deframe, Serve;
  }

  lemma Carried(v: Service, k: Links, k': Links, w: World, w': World, steps: seq<Step>)
    requires ValidService(v) && TalksAgree(v.talks, k) && k.up && Turned(w, w', steps)
    requires w.store == v.store && w.buffer == v.buffer
    requires k'.current == k.current && k'.past == k.past
    requires w.stream == k.incoming && w'.stream == k'.incoming && w.sent == k.outgoing && w'.sent == k'.outgoing
    requires w.up && w'.up == k'.up
    requires k.sound ==> if steps == [] || steps[0].Took? then k'.up && k'.sound else Deframe(w.stream).Short?
    requires AreSteps(steps) && |steps| <= 1
    ensures var v' := DoOne(v, steps); v'.store == w'.store && v'.buffer == w'.buffer && TalksAgree(v'.talks, k')
  {
    hide SoundPeer, InTouch, Conveyed, Complete, Serve, Deframe;
    var n := |k.past|;
    GoesOn(v.talks[n], k, k', w, w', steps);
  }

  /** The connection of a turn: the one there is, or the next. */
  method Connect(slave: Slave, tcp: Tcp, txn: Transaction, ghost v: Service) returns (ghost steps: seq<Step>)
    requires Apart(slave, tcp, txn) && Linked(tcp, txn) && ValidService(v) && Agrees(slave, tcp, txn, v)
    modifies tcp`isDown, tcp.net, txn`arg
    ensures Apart(slave, tcp, txn) && Linked(tcp, txn) && (tcp.isDown <==> txn.arg == -1)
    ensures AreSteps(steps) && |steps| <= 1 && Agrees(slave, tcp, txn, DoOne(v, steps)) && NotByUser(steps)
    ensures old(Undisturbed(tcp, txn)) ==>
      && Undisturbed(tcp, txn) && Left(tcp) == old(Left(tcp)) && (tcp.isDown ==> Left(tcp) == 0)
      && Everyone(tcp.net) == old(Everyone(tcp.net))
  {
    hide After, ValidService, TalksAgree, AllSound, SoundPeer, WorkOf, NoneBelow;
    ghost var k, queue := LinksOf(tcp, txn), tcp.net.queue;
    steps := AwaitPeer(tcp, txn);
    if steps != [] {
      Opens(v.talks, k, LinksOf(tcp, txn));
    } else {
      StaysDown(v.talks, k, LinksOf(tcp, txn));
    }
    NextSound(queue, tcp.net.current, tcp.net.queue);
    assert steps != [] ==> Peers(tcp.net.Sessions()) == Peers(old(tcp.net.Sessions())) + [tcp.net.current];
  }

  /** One turn of mb_slave. */
  method Turn(slave: Slave, tcp: Tcp, txn: Transaction, own: bv8, ghost v: Service) returns (ghost steps: seq<Step>)
    requires Apart(slave, tcp, txn) && Linked(tcp, txn) && ValidService(v) && Agrees(slave, tcp, txn, v)
    modifies tcp`isDown, tcp.mbap, tcp.net, txn, txn.data, slave.coils.bytes, slave.holding.regs
    ensures Apart(slave, tcp, txn) && Linked(tcp, txn)
    ensures AreSteps(steps) && Agrees(slave, tcp, txn, DoAll(v, steps)) && NotByUser(steps)
    ensures old(Undisturbed(tcp, txn)) ==>
      && Undisturbed(tcp, txn) && (Left(tcp) < old(Left(tcp)) || Left(tcp) == 0)
      && Everyone(tcp.net) == old(Everyone(tcp.net))
  {
    hide After, ValidService, AllSound, WorkOf, DoAll, DoOne, Agrees, Apart;
    steps := Connect(slave, tcp, txn, v);
    DoTwo(v, steps, []);
    DoNone(DoOne(v, steps));
    assert steps + [] == steps;
    if txn.arg == -1 {
      return;
    }
    ghost var first := steps;
    ghost var more := TakeTurn(slave, tcp, txn, own, DoOne(v, first));
    steps := first + more;
    DoTwo(v, first, more);
  }

  lemma DoNone(v: Service)
    requires ValidService(v)
    ensures DoOne(v, []) == v
  {
  }

  lemma StaysDown(talks: seq<Talk>, k: Links, k': Links)
    requires TalksAgree(talks, k) && k'.past == k.past && k'.current == k.current && k'.outgoing == k.outgoing
    requires k'.up == k.up && (k.up ==> k' == k)
    ensures TalksAgree(talks, k')
  {
    hide SoundPeer, Conveyed, Complete;
  }

  lemma NextSound(queue: seq<Peer>, c: Peer, rest: seq<Peer>)
    ensures AllSound(queue) && queue == [c] + rest ==>
      SoundPeer(c) && AllSound(rest) && Work(queue) == WorkOf(c.incoming, c.waits) + Work(rest)
  {
    hide SoundPeer, WorkOf;
    if queue == [c] + rest {
      assert queue[0] == c && queue[1..] == rest;
      assert forall k :: 0 <= k < |rest| ==> rest[k] == queue[k + 1];
    }
  }

  lemma {:induction false} DoConcat(v: Service, a: seq<Step>, b: seq<Step>)
    requires ValidService(v) && AreSteps(a) && AreSteps(b)
    ensures AreSteps(a + b) && DoAll(v, a + b) == DoAll(DoAll(v, a), b)
    decreases |b|
  {
    hide Do, ValidService, IsStep;
    if b == [] {
      assert a + b == a;
    } else {
      var n := |b| - 1;
      DoConcat(v, a, b[..n]);
      DoMore(v, a + b[..n], b[n]);
      assert a + b[..n] + [b[n]] == a + b;
    }
  }

  /** Each connection's replies are in its bytes, and one that is over with no call failing is complete. */
  ghost predicate AllConveyed(talks: seq<Talk>, sessions: seq<Session>, over: bool) {
    && |talks| == |sessions|
    && forall i :: 0 <= i < |talks| ==>
         && Answered(talks[i]) && Conveyed(talks[i], sessions[i])
         && (SoundPeer(sessions[i].peer) && (over || i < |talks| - 1) ==> Complete(talks[i], sessions[i]))
  }

  lemma Conclude(talks: seq<Talk>, k: Links)
    requires TalksAgree(talks, k) && forall t :: t in talks ==> Answered(t)
    ensures AllConveyed(talks, SessionsOf(k), !k.up)
  {
    hide Answered, Conveyed, SoundPeer, Complete;
  }

  function SessionsOf(k: Links): seq<Session> {
    if k.current.number <= 0 then k.past else k.past + [Session(k.current, k.outgoing)]
  }

  lemma AllComplete(talks: seq<Talk>, k: Links, queue: seq<Peer>)
    requires TalksAgree(talks, k) && AllSound(Peers(SessionsOf(k))) && (k.up ==> Frames(k.incoming) == [])
    ensures |talks| == |SessionsOf(k)| && forall i :: 0 <= i < |talks| ==> Complete(talks[i], SessionsOf(k)[i])
  {
    hide Conveyed, SoundPeer, Frames;
    var n, ss := |k.past|, SessionsOf(k);
    assert forall i :: 0 <= i < |ss| ==> SoundPeer(Peers(ss)[i]) && Peers(ss)[i] == ss[i].peer;
    if k.up {
      LeadsFrames(talks[n].stream, talks[n].frames, k.incoming);
    }
  }

  lemma LittleWork(queue: seq<Peer>)
    requires Work(queue) <= 1
    ensures forall c :: c in queue ==> Frames(c.incoming) == []
    ensures Work(queue) == 0 ==> queue == []
  {
    hide Frames, Timeouts;
    if queue != [] {
      assert Work(queue[1..]) == 0;
      assert queue == [queue[0]] + queue[1..];
    }
  }

  /** The user's turn, if there is one. */
  method UserTurn(slave: Slave, tcp: Tcp, txn: Transaction, changes: seq<Amendment>, i: nat, ghost v: Service)
    returns (ghost steps: seq<Step>)
    requires Apart(slave, tcp, txn) && ValidService(v) && Agrees(slave, tcp, txn, v)
    requires forall k :: 0 <= k < |changes| ==> slave.Fits(changes[k])
    modifies slave.coils, slave.inputs, slave.inputRegs, slave.holding, slave.inputs.bytes, slave.inputRegs.regs
    ensures Apart(slave, tcp, txn) && |steps| <= 1 && AreSteps(steps) && Agrees(slave, tcp, txn, DoOne(v, steps))
    ensures steps == if i < |changes| then [Changed(slave.View())] else []
    ensures i < |changes| ==> Spec.UserChange(old(slave.View()), slave.View()) && Made(changes[i], slave.View())
  {
    hide TalksAgree, Spec.UserChange, Made;
    steps := [];
    if i < |changes| {
      slave.Amend(changes[i]);
      steps := [Changed(slave.View())];
    }
  }

  /** mb_slave, while running is read true `turns` times, from the start of the task; before each turn
      the user may change callbacks and input tables. In every run: each call goes to the connection
      accepted last and not closed yet, and none is closed twice; the tables are those the messages
      taken and the user have made; and what was sent on each connection is the stream of one
      well-formed reply for each request taken from it, in order, under its id and unit, cut off at
      most in the last. Waiting may time out at any time. A connection on which no call fails ends
      only when all its messages have been taken and replied to; and if there is a turn for each
      message and each timeout, and one for the end of each connection but the last, every message
      there is has been. */
  method RunSlave(slave: Slave, tcp: Tcp, txn: Transaction, own: bv8, turns: nat, changes: seq<Amendment>)
    returns (ghost steps: seq<Step>)
    requires Apart(slave, tcp, txn) && tcp.Down() && tcp.net.Sessions() == []
    requires forall k :: 0 <= k < |changes| ==> slave.Fits(changes[k])
    modifies tcp`isDown, tcp.mbap, tcp.net, txn, txn.data, slave.coils.bytes, slave.holding.regs
    modifies slave.coils, slave.inputs, slave.inputRegs, slave.holding, slave.inputs.bytes, slave.inputRegs.regs
    ensures Apart(slave, tcp, txn) && Linked(tcp, txn) && After(tcp.net.log) != Astray
    ensures ValidService(Service(old(slave.View()), old(txn.data[..]), [])) && AreSteps(steps)
    ensures AllMade(changes, ByUser(steps), turns)
    ensures var v := DoAll(Service(old(slave.View()), old(txn.data[..]), []), steps);
      && slave.View() == v.store && AllConveyed(v.talks, tcp.net.Sessions(), tcp.isDown)
      && (AllSound(old(tcp.net.queue)) && turns + 1 >= Work(old(tcp.net.queue)) ==>
            && Everyone(tcp.net) == old(tcp.net.queue)
            && (forall i :: 0 <= i < |v.talks| ==> Complete(v.talks[i], tcp.net.Sessions()[i]))
            && forall c :: c in tcp.net.queue ==> Frames(c.incoming) == [])
  {
    hide After, Spec.ValidStore, TalksAgree, AllSound, Work, WorkOf, DoAll, Answered, Slave.Fits, Agrees, DoOne;
    hide AllMade, Made, ByUser, NotByUser;
    slave.ViewIsValid();
    ghost var v := Service(slave.View(), txn.data[..], []);
    ghost var queue := tcp.net.queue;
    steps := [];
    Starts(slave, tcp, txn, v);
    NoneMade(changes);
    for i := 0 to turns
      invariant Apart(slave, tcp, txn) && Linked(tcp, txn)
      invariant AreSteps(steps) && Agrees(slave, tcp, txn, DoAll(v, steps))
      invariant AllMade(changes, ByUser(steps), i)
      invariant AllSound(queue) ==>
        && Undisturbed(tcp, txn) && Everyone(tcp.net) == queue
        && (Left(tcp) + i <= Work(queue) || Left(tcp) == 0)
    {
      ghost var first := UserTurn(slave, tcp, txn, changes, i, DoAll(v, steps));
      ghost var more := Turn(slave, tcp, txn, own, DoOne(DoAll(v, steps), first));
      TurnsAdd(v, steps, first, more);
      OneMoreMade(changes, steps, first, more, i);
      steps := steps + first + more;
    }
    Finishes(slave, tcp, txn, v, steps);
  }

  /** The tables as the user's turns left them. */
  function ByUser(steps: seq<Step>): seq<Spec.Store> {
    if steps == [] then []
    else (if steps[0].Changed? then [steps[0].to] else []) + ByUser(steps[1..])
  }

  lemma {:induction false} ByUserFirst(steps: seq<Step>)
    requires steps != []
    ensures ByUser(steps) == (if steps[0].Changed? then [steps[0].to] else []) + ByUser(steps[1..])
  {
  }

  lemma {:induction false} ByUserConcat(a: seq<Step>, b: seq<Step>)
    ensures ByUser(a + b) == ByUser(a) + ByUser(b)
  {
    if a == [] {
      assert a + b == b;
    } else {
      ByUserFirst(a + b);
      ByUserFirst(a);
      hide ByUser;
      ByUserConcat(a[1..], b);
      assert (a + b)[0] == a[0] && (a + b)[1..] == a[1..] + b;
    }
  }

  /** The first changes have been made, one in each turn. */
  predicate AllMade(changes: seq<Amendment>, stores: seq<Spec.Store>, turns: nat) {
    && |stores| == Least(turns, |changes|)
    && forall i :: 0 <= i < |stores| ==> Made(changes[i], stores[i])
  }

  lemma {:induction false} NoneByUser(steps: seq<Step>)
    requires NotByUser(steps)
    ensures ByUser(steps) == []
  {
    if steps != [] {
      NoneByUser(steps[1..]);
    }
  }

  lemma NoneMade(changes: seq<Amendment>)
    ensures AllMade(changes, ByUser([]), 0)
  {
  }

  lemma OneMoreMade(changes: seq<Amendment>, steps: seq<Step>, first: seq<Step>, more: seq<Step>, i: nat)
    requires AllMade(changes, ByUser(steps), i) && NotByUser(more)
    requires if i < |changes| then |first| == 1 && first[0].Changed? && Made(changes[i], first[0].to) else first == []
    ensures AllMade(changes, ByUser(steps + first + more), i + 1)
  {
    hide Made, ByUser, AllMade;
    ByUserConcat(steps, first);
    ByUserConcat(steps + first, more);
    NoneByUser(more);
    var stores := ByUser(steps);
    if first == [] {
      NoneByUser(first);
      assert stores + [] + [] == stores;
    } else {
      OneByUser(first);
      assert stores + [first[0].to] + [] == stores + [first[0].to];
    }
    MadeMore(changes, stores, first, i);
  }

  lemma OneByUser(first: seq<Step>)
    requires |first| == 1 && first[0].Changed?
    ensures ByUser(first) == [first[0].to]
  {
    assert first[1..] == [];
  }

  lemma MadeMore(changes: seq<Amendment>, stores: seq<Spec.Store>, first: seq<Step>, i: nat)
    requires AllMade(changes, stores, i)
    requires if i < |changes| then |first| == 1 && first[0].Changed? && Made(changes[i], first[0].to) else first == []
    ensures AllMade(changes, if first == [] then stores else stores + [first[0].to], i + 1)
  {
    hide Made;
  }

  lemma TurnsAdd(v: Service, steps: seq<Step>, first: seq<Step>, more: seq<Step>)
    requires ValidService(v) && AreSteps(steps) && AreSteps(first) && |first| <= 1 && AreSteps(more)
    ensures AreSteps(steps + first + more)
    ensures DoAll(v, steps + first + more) == DoAll(DoOne(DoAll(v, steps), first), more)
  {
    hide ValidService, DoAll, DoOne;
    DoFirst(DoAll(v, steps), first);
    DoConcat(v, steps, first);
    DoConcat(v, steps + first, more);
  }

  lemma DoFirst(v: Service, steps: seq<Step>)
    requires ValidService(v) && AreSteps(steps) && |steps| <= 1
    ensures DoAll(v, steps) == DoOne(v, steps)
  {
    hide Do, ValidService;
    if steps != [] {
      assert DoAll(v, steps[..0]) == v;
    }
  }

  lemma Starts(slave: Slave, tcp: Tcp, txn: Transaction, v: Service)
    requires slave.Valid() && tcp.Down() && tcp.net.Sessions() == []
    requires v == Service(slave.View(), txn.data[..], []) && ValidService(v)
    ensures AreSteps([]) && Agrees(slave, tcp, txn, DoAll(v, []))
    ensures Everyone(tcp.net) == tcp.net.queue && Left(tcp) == Work(tcp.net.queue)
    ensures AllSound(tcp.net.queue) ==> Undisturbed(tcp, txn)
  {
    hide AllSound, SoundPeer;
    assert Peers([]) + tcp.net.queue == tcp.net.queue;
  }

  lemma Finishes(slave: Slave, tcp: Tcp, txn: Transaction, v: Service, steps: seq<Step>)
    requires slave.Valid() && Linked(tcp, txn) && ValidService(v) && AreSteps(steps) && v.talks == []
    requires Agrees(slave, tcp, txn, DoAll(v, steps))
    ensures var w := DoAll(v, steps);
      && slave.View() == w.store && AllConveyed(w.talks, tcp.net.Sessions(), tcp.isDown)
      && (AllSound(Everyone(tcp.net)) && Left(tcp) <= 1 ==>
            && (forall i :: 0 <= i < |w.talks| ==> Complete(w.talks[i], tcp.net.Sessions()[i]))
            && forall c :: c in tcp.net.queue ==> Frames(c.incoming) == [])
  {
    hide AllConveyed, TalksAgree, SoundPeer, Complete, Answered, DoAll, Frames;
    var w, k := DoAll(v, steps), LinksOf(tcp, txn);
    OneReplyEach(v, steps);
    Conclude(w.talks, k);
    if AllSound(Everyone(tcp.net)) && Left(tcp) <= 1 {
      LittleWork(tcp.net.queue);
      var ss := Peers(tcp.net.Sessions());
      assert forall i :: 0 <= i < |ss| ==> ss[i] == Everyone(tcp.net)[i];
      AllComplete(w.talks, k, tcp.net.queue);
    }
  }
}
