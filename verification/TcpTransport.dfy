/** src/mb_tcp.c: messages over a connection, and when it is down. */
module TcpTransport {
  import opened Errors
  import opened Pdu
  import opened SlaveService
  import opened TcpFraming
  import opened TcpSocket

  class Tcp {
    const net: Net
    const mbap: array<bv8>
    var isDown: bool

    constructor (net: Net)
      requires net.log == []
      ensures Valid() && Down() && this.net == net && fresh(mbap)
    {
      this.net, isDown := net, true;
      mbap := new bv8[HEADER_SIZE + MAX_PDU_SIZE];
    }

    ghost predicate Valid() {
      mbap.Length == HEADER_SIZE + MAX_PDU_SIZE
    }

    /** The connection p is open and used, or there is none. */
    ghost predicate Up(p: int)
      reads this, net
    {
      !isDown && p > 0 && net.Open(p)
    }

    ghost predicate Down()
      reads this, net
    {
      isDown && After(net.log) == Nobody
    }

    /** Up, and no coming call fails. */
    ghost predicate Sounds(p: int)
      reads this, net
    {
      Up(p) && net.Sound(p)
    }

    /** A transaction whose buffer is not the transport's. */
    predicate Serves(txn: Transaction) {
      txn.data.Length == MAX_PDU_SIZE && txn.data != mbap
    }

    /** mb_tcp_bringup */
    method Bringup() returns (peer: int)
      modifies this`isDown, net
      ensures if old(net.queue) == [] then peer == -1 && net.queue == [] else
        var c := old(net.queue)[0];
        && net.queue == old(net.queue)[1..] && peer == c.number
        && (old(Down()) && peer > 0 ==>
              && Up(peer) && net.past == old(net.Sessions()) && net.current == c && net.outgoing == []
              && net.incoming == c.incoming && net.waits == c.waits && (SoundPeer(c) ==> Sounds(peer)))
      ensures old(Down()) && peer <= 0 ==>
        && Down() && net.past == old(net.past) && net.current == old(net.current)
        && net.outgoing == old(net.outgoing)
    {
      peer := net.Accept();
      if peer > 0 {
        isDown := false;
      }
    }

    /** Closing the connection after a failure. */
    method Drop(p: int)
      modifies this`isDown, net`peer, net`log
      ensures old(Up(p)) ==> Down()
      ensures isDown
    {
      net.Close(p);
      isDown := true;
    }

    method PutHeader(id: uint16, size: nat, unit: bv8)
      requires Valid()
      modifies mbap
      ensures mbap[..HEADER_SIZE] == Header(id, 0, size, unit)
    {
      hide HighByte, LowByte;
      var length: uint16 := (size + 1) % 0x1_0000;
      mbap[0], mbap[1] := HighByte(id), LowByte(id);
      mbap[4], mbap[5] := HighByte(length), LowByte(length);
      mbap[2], mbap[3] := HighByte(0), LowByte(0);
      mbap[6] := unit;
    }

    /** mb_tcp_tx: the message goes out whole, or in part and the connection is closed. */
    method MbTcpTx(txn: Transaction, size: nat) returns (ghost sent: nat)
      requires Valid() && Serves(txn) && size <= MAX_PDU_SIZE
      modifies this`isDown, mbap, net`outgoing, net`sends, net`log, net`peer
      ensures var bytes := Bytes(Frame(txn.id, 0, txn.unit, txn.data[..size]));
        && sent <= |bytes| && net.outgoing == old(net.outgoing) + bytes[..sent]
        && (!isDown ==> sent == |bytes|)
      ensures old(Up(txn.arg)) ==> Up(txn.arg) || Down()
      ensures old(Sounds(txn.arg)) ==> Sounds(txn.arg)
    {
      hide Header, After;
      PutHeader(txn.id, size, txn.unit);
      forall k | 0 <= k < size {
        mbap[HEADER_SIZE + k] := txn.data[k];
      }
      assert mbap[..HEADER_SIZE + size] == Bytes(Frame(txn.id, 0, txn.unit, txn.data[..size])) by {
        assert mbap[..HEADER_SIZE] == Header(txn.id, 0, size, txn.unit);
        assert mbap[HEADER_SIZE..HEADER_SIZE + size] == txn.data[..size];
      }
      var result;
      result, sent := OsTcpSend(net, txn.arg, mbap, HEADER_SIZE + size);
      assert mbap[..sent] == mbap[..HEADER_SIZE + size][..sent];
      if result <= 0 {
        Drop(txn.arg);
      }
    }

    /** The two reads of mb_tcp_rx: header and PDU of the next message, or no success. */
    method GetMessage(txn: Transaction) returns (result: int, size: nat, ghost scrap: seq<bv8>)
      requires Valid() && Serves(txn)
      modifies mbap, txn.data, net`incoming, net`recvs, net`log
      ensures old(net.Open(txn.arg)) ==> net.Open(txn.arg)
      ensures |scrap| <= MAX_PDU_SIZE && txn.data[..] == scrap + old(txn.data[..])[|scrap|..]
      ensures result > 0 ==>
        match Deframe(old(net.incoming))
        case Short => false
        case Got(f, rest) =>
          && size == |f.pdu| && scrap == f.pdu && net.incoming == rest
          && Be16(mbap[..], 0) == f.id && Be16(mbap[..], 2) == f.protocol && mbap[6] == f.unit
      ensures old(net.Sound(txn.arg)) ==>
        net.Sound(txn.arg) && (result > 0 <==> Deframe(old(net.incoming)).Got?)
    {
      hide Be16, After, NoneBelow;
      ghost var stream := net.incoming;
      ghost var got, more;
      size, scrap := 0, [];
      result, got := OsTcpRecv(net, txn.arg, mbap, HEADER_SIZE);
      if result == HEADER_SIZE {
        SameFields(mbap[..], stream);
        size := SizeOf(Be16(mbap[..], 4));
        ghost var body := net.incoming;
        result, more := OsTcpRecv(net, txn.arg, txn.data, size);
        scrap := body[..more];
        assert |body| >= size ==> body[..size] == stream[7..7 + size] && body[size..] == stream[7 + size..];
      }
    }

    /** mb_tcp_rx. A timeout leaves everything as it was. Otherwise a whole message is taken from the
        stream, and dropped if it is of another protocol; whatever cannot be taken whole brings the
        connection down, and may leave bytes in the buffer. */
    method MbTcpRx(txn: Transaction) returns (result: int, ghost scrap: seq<bv8>)
      requires Valid() && Serves(txn)
      modifies this`isDown, mbap, txn`id, txn`unit, txn.data
      modifies net`waits, net`incoming, net`recvs, net`log, net`peer
      ensures result == ETIMEOUT || result == EFRAME_NOK || 0 < result <= MAX_PDU_SIZE
      ensures result < 0 ==> txn.id == old(txn.id) && txn.unit == old(txn.unit)
      ensures result == ETIMEOUT ==>
        net.incoming == old(net.incoming) && txn.data[..] == old(txn.data[..]) && isDown == old(isDown)
      ensures result != ETIMEOUT && !isDown ==>
        Delivers(old(net.incoming), old(txn.data[..]), result, txn.id, txn.unit, txn.data[..], net.incoming)
      ensures isDown && !old(isDown) ==>
        result == EFRAME_NOK && |scrap| <= MAX_PDU_SIZE && txn.data[..] == scrap + old(txn.data[..])[|scrap|..]
      ensures old(Up(txn.arg)) ==> if isDown then Down() else Up(txn.arg)
      ensures old(Sounds(txn.arg)) ==>
        if result == ETIMEOUT then Sounds(txn.arg) && Timeouts(old(net.waits)) == Timeouts(net.waits) + 1
        else if Deframe(old(net.incoming)).Got? then Sounds(txn.arg) && Timeouts(net.waits) == Timeouts(old(net.waits))
        else Down()
    {
      hide Be16, After, Deframe;
      var peer, size := txn.arg, 0;
      scrap := [];
      result := net.RecvWait(peer);
      if result == -1 {
        Drop(peer);
        return EFRAME_NOK, scrap;
      }
      if result == 0 {
        return ETIMEOUT, scrap;
      }
      result, size, scrap := GetMessage(txn);
      if result <= 0 {
        Drop(peer);
        return EFRAME_NOK, scrap;
      }
      if Be16(mbap[..], 2) != 0 {
        return EFRAME_NOK, scrap;
      }
      txn.id, txn.unit := Be16(mbap[..], 0), mbap[6];
      result := size;
    }
  }

  /** What a call took from the head of the stream into the buffer, and whether it is a request. */
  predicate Delivers(stream: seq<bv8>, was: seq<bv8>,
        result: int, id: uint16, unit: bv8, data: seq<bv8>, rest: seq<bv8>)
    requires |was| == MAX_PDU_SIZE
  {
    match Deframe(stream)
    case Short => false
    case Got(f, more) =>
      && rest == more && data == f.pdu + was[|f.pdu|..]
      && if f.protocol == 0 then result == |f.pdu| && id == f.id && unit == f.unit else result == EFRAME_NOK
  }

  lemma SameFields(a: seq<bv8>, b: seq<bv8>)
    requires |a| >= HEADER_SIZE && |b| >= HEADER_SIZE && a[..HEADER_SIZE] == b[..HEADER_SIZE]
    ensures Be16(a, 0) == Be16(b, 0) && Be16(a, 2) == Be16(b, 2) && Be16(a, 4) == Be16(b, 4) && a[6] == b[6]
  {
    assert forall k :: 0 <= k < HEADER_SIZE ==> a[k] == a[..HEADER_SIZE][k] && b[k] == b[..HEADER_SIZE][k];
  }

  /** Repeated rx, as long as the connection lasts, gives the requests among the first messages of the
      stream, in order, whatever happens; and all of them if nothing fails and there are as many calls
      as there are messages and timeouts. Messages of another protocol do not lose sync. */
  method ReceiveAll(tcp: Tcp, txn: Transaction, n: nat) returns (got: seq<Frame>, ghost taken: seq<Frame>)
    requires tcp.Valid() && tcp.Serves(txn) && tcp.Up(txn.arg)
    modifies tcp`isDown, tcp.mbap, tcp.net, txn`id, txn`unit, txn.data
    ensures got == Requests(taken) && taken <= Frames(old(tcp.net.incoming))
    ensures old(tcp.Sounds(txn.arg)) && n >= |Frames(old(tcp.net.incoming))| + Timeouts(old(tcp.net.waits)) ==>
      taken == Frames(old(tcp.net.incoming))
  {
    hide After, Deframe, Requests, Timeouts, NoneBelow;
    got, taken := [], [];
    ghost var stream, z := tcp.net.incoming, Timeouts(tcp.net.waits);
    ghost var sound := tcp.Sounds(txn.arg);
    RequestsOfNone();
    var i := 0;
    while i < n && !tcp.isDown
      invariant i <= n && got == Requests(taken) && taken <= Frames(stream)
      invariant !tcp.isDown ==> tcp.Up(txn.arg) && Leads(stream, taken, tcp.net.incoming)
      invariant sound && !tcp.isDown ==> tcp.Sounds(txn.arg) && i == |taken| + z - Timeouts(tcp.net.waits)
      invariant sound && tcp.isDown ==> taken == Frames(stream)
    {
      ghost var before := tcp.net.incoming;
      LeadsFrames(stream, taken, before);
      NextFrame(before);
      var count;
      ghost var scrap;
      count, scrap := tcp.MbTcpRx(txn);
      if count != ETIMEOUT && !tcp.isDown {
        LeadsMore(stream, taken, before);
        RequestsMore(taken, Deframe(before).frame);
        taken := taken + [Deframe(before).frame];
        LeadsFrames(stream, taken, tcp.net.incoming);
      }
      if count > 0 {
        got := got + [Frame(txn.id, 0, txn.unit, txn.data[..count])];
      }
      i := i + 1;
    }
    if !tcp.isDown {
      LeadsFrames(stream, taken, tcp.net.incoming);
    }
  }

  lemma NextFrame(stream: seq<bv8>)
    ensures Deframe(stream).Short? ==> Frames(stream) == []
    ensures Deframe(stream).Got? ==> Frames(stream) != []
  {
    hide Deframe;
  }

  lemma RequestsOfNone()
    ensures Requests([]) == []
  {
  }
}
