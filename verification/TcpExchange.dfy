/** A request and its response between a master and a slave over TCP, both ends being the code of
    src/mb_tcp.c and the network cutting the bytes into any pieces. */
module TcpExchange {
  import opened Pdu
  import opened Slave
  import opened SlaveService
  import opened TcpFraming
  import opened TcpSlave
  import opened TcpSocket
  import opened TcpTransport
  import Spec = SlaveSpec

  /** The network: what one end has sent since, the other can receive. */
  method Carry(from: Net, to: Net, since: nat, ghost p: int)
    requires since <= |from.outgoing| && from != to
    modifies to`incoming
    ensures to.incoming == old(to.incoming) + from.outgoing[since..]
    ensures old(to.Sound(p)) ==> to.Sound(p)
  {
    to.incoming := to.incoming + from.outgoing[since..];
  }

  /** The connection p, on which nothing fails or times out, with a stream still to come. */
  ghost predicate Steady(tcp: Tcp, p: int, stream: seq<bv8>)
    reads tcp, tcp.net
  {
    tcp.Valid() && tcp.Sounds(p) && Timeouts(tcp.net.waits) == 0 && tcp.net.incoming == stream
  }

  ghost predicate Settled(tcp: Tcp, txn: Transaction, stream: seq<bv8>)
    reads tcp, tcp.net, txn
  {
    tcp.Serves(txn) && Steady(tcp, txn.arg, stream)
  }

  /** The two ends share no memory. */
  predicate Distinct(client: Tcp, master: Transaction, server: Tcp, txn: Transaction) {
    && client != server && client.net != server.net && client.mbap != server.mbap && master != txn
    && master.data != txn.data && master.data != server.mbap && txn.data != client.mbap
  }

  /** The request of the master goes out and arrives. */
  method Post(client: Tcp, master: Transaction, size: nat, server: Tcp, txn: Transaction)
    requires Distinct(client, master, server, txn) && size <= MAX_PDU_SIZE
    requires Settled(client, master, []) && Settled(server, txn, [])
    modifies client`isDown, client.mbap, client.net, server.net`incoming
    ensures Settled(client, master, [])
    ensures Settled(server, txn, Bytes(Frame(master.id, 0, master.unit, master.data[..size])))
  {
    hide After, NoneBelow, Bytes, Timeouts;
    ghost var bytes := Bytes(Frame(master.id, 0, master.unit, master.data[..size]));
    var since := |client.net.outgoing|;
    ghost var sent := client.MbTcpTx(master, size);
    assert client.net.outgoing[since..] == bytes && [] + bytes == bytes;
    Carry(client.net, server.net, since, txn.arg);
  }

  /** The slave takes its turn, and its response arrives. */
  method Serve(slave: Slave, client: Tcp, master: Transaction, server: Tcp, txn: Transaction, ghost request: Frame)
    returns (ghost reply: Frame)
    requires Distinct(client, master, server, txn) && Apart(slave, server, txn)
    requires IsFrame(request) && request.protocol == 0
    requires Settled(client, master, []) && Settled(server, txn, Bytes(request))
    modifies server`isDown, server.mbap, server.net, txn`id, txn`unit, txn.data, client.net`incoming
    modifies slave.coils.bytes, slave.holding.regs
    ensures Apart(slave, server, txn) && Settled(server, txn, []) && Settled(client, master, Bytes(reply))
    ensures IsReply(old(slave.View()), old(txn.data[..]), request, slave.View(), reply)
  {
    hide After, NoneBelow, Bytes, Timeouts, Turned, IsReply, Deframe;
    ghost var w := WorldOf(slave, server, txn);
    var since := |server.net.outgoing|;
    assert Bytes(request) + [] == Bytes(request);
    DeframeBytes(request, []);
    ghost var steps := HandleTcp(slave, server, txn);
    reply := ServedWhole(w, WorldOf(slave, server, txn), request, steps);
    assert server.net.outgoing[since..] == Bytes(reply) && [] + Bytes(reply) == Bytes(reply);
    Carry(server.net, client.net, since, master.arg);
  }

  /** The reply to a request that comes while was lies in the slave's buffer. */
  ghost predicate IsReply(s: Spec.Store, was: seq<bv8>, request: Frame, s': Spec.Store, reply: Frame) {
    && |was| == MAX_PDU_SIZE && |request.pdu| <= MAX_PDU_SIZE && Spec.ValidStore(s)
    && (s', reply.pdu) == Spec.Handle(s, request.pdu + was[|request.pdu|..], |request.pdu|, false)
    && reply.id == request.id && reply.unit == request.unit && reply.protocol == 0 && IsFrame(reply)
  }

  lemma ServedWhole(w: World, w': World, request: Frame, steps: seq<Step>) returns (reply: Frame)
    requires Turned(w, w', steps) && steps != [] && steps[0].Took? && w'.up
    requires Deframe(w.stream) == Got(request, []) && IsFrame(request) && request.protocol == 0
    ensures w'.stream == [] && w'.sent == w.sent + Bytes(reply)
    ensures IsReply(w.store, w.buffer, request, w'.store, reply)
  {
    hide Deframe, Bytes, Spec.Handle, Spec.ValidStore;
    var buf := request.pdu + w.buffer[|request.pdu|..];
    Spec.ResponseShape(w.store, buf, |request.pdu|, false);
    reply := Frame(request.id, 0, request.unit, Spec.Handle(w.store, buf, |request.pdu|, false).1);
    StreamOfOne(reply);
  }

  /** An exchange leaves with the master exactly the slave's response to its request, under the id and
      unit of the request, as a transport that loses nothing would; both ends are as settled as before. */
  method Exchange(client: Tcp, master: Transaction, size: nat, server: Tcp, txn: Transaction, slave: Slave)
    returns (rxCount: int, ghost reply: Frame)
    requires Distinct(client, master, server, txn) && 0 < size <= MAX_PDU_SIZE
    requires Apart(slave, server, txn) && Apart(slave, client, master)
    requires Settled(client, master, []) && Settled(server, txn, [])
    modifies client`isDown, client.mbap, client.net, master`id, master`unit, master.data
    modifies server`isDown, server.mbap, server.net, txn`id, txn`unit, txn.data
    modifies slave.coils.bytes, slave.holding.regs
    ensures Apart(slave, server, txn) && Apart(slave, client, master)
    ensures Settled(client, master, []) && Settled(server, txn, [])
    ensures IsReply(old(slave.View()), old(txn.data[..]),
      Frame(old(master.id), 0, old(master.unit), old(master.data[..size])), slave.View(), reply)
    ensures rxCount == |reply.pdu| && master.id == reply.id && master.unit == reply.unit
    ensures rxCount <= MAX_PDU_SIZE && master.data[..] == reply.pdu + old(master.data[..])[|reply.pdu|..]
  {
    hide After, NoneBelow, Bytes, Timeouts, IsReply, Deframe;
    ghost var request := Frame(master.id, 0, master.unit, master.data[..size]);
    Post(client, master, size, server, txn);
    reply := Serve(slave, client, master, server, txn, request);
    RepliesAreFrames(old(slave.View()), old(txn.data[..]), request, slave.View(), reply);
    assert Bytes(reply) + [] == Bytes(reply);
    DeframeBytes(reply, []);
    ghost var scrap;
    rxCount, scrap := client.MbTcpRx(master);
  }

  lemma RepliesAreFrames(s: Spec.Store, was: seq<bv8>, request: Frame, s': Spec.Store, reply: Frame)
    requires IsReply(s, was, request, s', reply)
    ensures IsFrame(reply) && reply.protocol == 0
  {
  }
}
