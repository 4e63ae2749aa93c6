/** Sockets as src/ports/linux/mbal_tcp.c uses them, and its two reassembly loops. */
module TcpSocket {

  /** What is done to a connection, in order. */
  datatype Event =
    | Accepted(peer: int) | Polled(peer: int) | Received(peer: int) | Sent(peer: int) | Closed(peer: int)
    | Handled(peer: int)

  /** The connection that is open, if everything so far was done to the one open then. */
  datatype Connection = Nobody | With(peer: int) | Astray

  function Follow(c: Connection, e: Event): Connection {
    match e
    case Accepted(p) => if c == Nobody then With(p) else Astray
    case Closed(p) => if c == With(p) then Nobody else Astray
    case _ => if c == With(e.peer) then c else Astray
  }

  function After(log: seq<Event>): Connection {
    if log == [] then Nobody else Follow(After(log[..|log| - 1]), log[|log| - 1])
  }

  /** Once astray, always astray: an orderly log was orderly at every moment. */
  lemma {:induction false} PrefixesOrderly(log: seq<Event>, k: nat)
    requires k <= |log| && After(log) != Astray
    ensures After(log[..k]) != Astray
  {
    if k == |log| {
      assert log[..k] == log;
    } else {
      PrefixesOrderly(log[..|log| - 1], k);
      assert log[..|log| - 1][..k] == log[..k];
    }
  }

  /** In an orderly log whatever is received, sent, closed or handled concerns a connection that
      was accepted before, with no other accepted and none closed in between. */
  lemma {:induction false} OnlyTheOpenPeer(log: seq<Event>, k: nat) returns (j: nat)
    requires k < |log| && After(log) != Astray && !log[k].Accepted?
    ensures j < k && log[j] == Accepted(log[k].peer)
    ensures forall i :: j < i < k ==> !log[i].Accepted? && !log[i].Closed?
  {
    PrefixesOrderly(log, k + 1);
    assert log[..k + 1][..k] == log[..k];
    j := LastAccept(log[..k], log[k].peer);
  }

  lemma {:induction false} LastAccept(log: seq<Event>, p: int) returns (j: nat)
    requires After(log) == With(p)
    ensures j < |log| && log[j] == Accepted(p)
    ensures forall i :: j < i < |log| ==> !log[i].Accepted? && !log[i].Closed?
  {
    var n := |log| - 1;
    if log[n].Accepted? {
      j := n;
    } else {
      j := LastAccept(log[..n], p);
    }
  }

  /** A connection to come: its number, the bytes its peer sends, and how the calls on it go. */
  datatype Peer = Peer(number: int, incoming: seq<bv8>, waits: seq<int>, recvs: seq<int>, sends: seq<int>)

  /** A connection there was, and what was sent on it. */
  datatype Session = Session(peer: Peer, sent: seq<bv8>)

  predicate NoneBelow(answers: seq<int>, least: int) {
    forall k :: 0 <= k < |answers| ==> answers[k] >= least
  }

  /** No call on the connection fails, however little it transfers; waiting may time out. */
  predicate SoundPeer(c: Peer) {
    c.number > 0 && NoneBelow(c.waits, 0) && NoneBelow(c.recvs, 1) && NoneBelow(c.sends, 1)
  }

  /** How many of the coming waits time out. */
  function Timeouts(waits: seq<int>): nat {
    if waits == [] then 0 else (if waits[0] == 0 then 1 else 0) + Timeouts(waits[1..])
  }

  class Net {
    // connections still to be accepted
    var queue: seq<Peer>
    // the latest one as it was when accepted (number 0: none yet), and its number while it is open
    var current: Peer
    var peer: int
    // what of it is still to come: bytes, and what each select, recv and send will answer at most
    // (what was asked for, once used up)
    var incoming: seq<bv8>
    var waits: seq<int>
    var recvs: seq<int>
    var sends: seq<int>
    // what was sent on it, the connections before it, and what was done
    var outgoing: seq<bv8>
    var past: seq<Session>
    var log: seq<Event>

    constructor (queue: seq<Peer>)
      ensures this.queue == queue && log == [] && Sessions() == []
    {
      this.queue, log, past, current := queue, [], [], Peer(0, [], [], [], []);
      peer, incoming, waits, recvs, sends, outgoing := 0, [], [], [], [], [];
    }

    /** All connections so far. */
    function Sessions(): seq<Session>
      reads this
    {
      if current.number <= 0 then past else past + [Session(current, outgoing)]
    }

    ghost predicate Open(p: int)
      reads this
    {
      After(log) == With(p) && peer == p == current.number && p > 0
    }

    /** No coming call on the open connection fails. */
    ghost predicate Sound(p: int)
      reads this
    {
      Open(p) && NoneBelow(waits, 0) && NoneBelow(recvs, 1) && NoneBelow(sends, 1)
    }

    method Note(e: Event)
      modifies this`log
      ensures After(log) == Follow(After(old(log)), e)
    {
      log := log + [e];
      assert log[..|log| - 1] == old(log);
    }

    /** accept or connect: -1 if there is nobody. */
    method Accept() returns (p: int)
      modifies this
      ensures if old(queue) == [] then p == -1 && queue == [] else
        var c := old(queue)[0];
        && queue == old(queue)[1..] && p == c.number
        && (p > 0 ==>
              && past == old(Sessions()) && current == c && outgoing == []
              && incoming == c.incoming && waits == c.waits)
        && (p > 0 && After(old(log)) == Nobody ==> Open(p) && (SoundPeer(c) ==> Sound(p)))
      ensures p <= 0 ==>
        log == old(log) && past == old(past) && current == old(current) && outgoing == old(outgoing)
    {
      if queue == [] {
        return -1;
      }
      var c := queue[0];
      queue, p := queue[1..], c.number;
      if p > 0 {
        past := Sessions();
        current, peer, incoming, waits, recvs, sends, outgoing := c, p, c.incoming, c.waits, c.recvs, c.sends, [];
        Note(Accepted(p));
      }
    }

    /** os_tcp_close */
    method Close(p: int)
      modifies this`peer, this`log
      ensures After(log) == Follow(After(old(log)), Closed(p))
    {
      if p == peer {
        peer := 0;
      }
      Note(Closed(p));
    }

    /** os_tcp_recv_wait: -1, 0 on a timeout, or positive. */
    method RecvWait(p: int) returns (result: int)
      modifies this`waits, this`log
      ensures After(log) == Follow(After(old(log)), Polled(p))
      ensures result >= -1
      ensures old(Sound(p)) ==>
        Sound(p) && result >= 0 && Timeouts(old(waits)) == Timeouts(waits) + (if result == 0 then 1 else 0)
    {
      result := if waits == [] then 1 else if waits[0] < 0 then -1 else waits[0];
      waits := if waits == [] then [] else waits[1..];
      Note(Polled(p));
      if p != peer {
        result := -1;
      }
    }

    /** recv: -1, 0 at the end of the stream, or how many bytes it got. */
    method Recv(p: int, buffer: array<bv8>, from: nat, remain: nat) returns (n: int)
      requires from + remain <= buffer.Length
      modifies this`incoming, this`recvs, this`log, buffer
      ensures After(log) == Follow(After(old(log)), Received(p))
      ensures -1 <= n <= remain && n <= |old(incoming)|
      ensures incoming == if n > 0 then old(incoming)[n..] else old(incoming)
      ensures buffer[..] == if n > 0 then old(buffer[..from]) + old(incoming)[..n] + old(buffer[from + n..])
                            else old(buffer[..])
      ensures old(Sound(p)) ==> Sound(p) && n >= 0 && (remain > 0 && old(incoming) != [] ==> n > 0)
    {
      var grant := if recvs == [] then remain else recvs[0];
      recvs := if recvs == [] then [] else recvs[1..];
      Note(Received(p));
      if p != peer || grant < 0 {
        return -1;
      }
      n := if grant < remain then grant else remain;
      n := if n < |incoming| then n else |incoming|;
      ghost var was := buffer[..];
      forall k | 0 <= k < n {
        buffer[from + k] := incoming[k];
      }
      assert buffer[..] == was[..from] + incoming[..n] + was[from + n..];
      incoming := incoming[n..];
    }

    /** send: -1 or how many bytes it took. */
    method Send(p: int, buffer: array<bv8>, from: nat, remain: nat) returns (n: int)
      requires from + remain <= buffer.Length
      modifies this`outgoing, this`sends, this`log
      ensures After(log) == Follow(After(old(log)), Sent(p))
      ensures -1 <= n <= remain
      ensures outgoing == if n > 0 then old(outgoing) + buffer[from..from + n] else old(outgoing)
      ensures old(Sound(p)) ==> Sound(p) && n >= 0 && (remain > 0 ==> n > 0)
    {
      var grant := if sends == [] then remain else sends[0];
      sends := if sends == [] then [] else sends[1..];
      Note(Sent(p));
      if p != peer || grant < 0 {
        return -1;
      }
      n := if grant < remain then grant else remain;
      outgoing := outgoing + buffer[from..from + n];
    }
  }

  function Least(a: nat, b: nat): nat {
    if a < b then a else b
  }

  lemma Further(stream: seq<bv8>, was: seq<bv8>, got: nat, n: nat, before: seq<bv8>, after: seq<bv8>)
    requires got + n <= |stream| && got + n <= |was|
    requires before == stream[..got] + was[got..]
    requires after == before[..got] + stream[got..][..n] + before[got + n..]
    ensures after == stream[..got + n] + was[got + n..]
    ensures stream[got..][n..] == stream[got + n..]
  {
  }

  /** One recv of the loop below, in terms of the stream as it was at the start. */
  method RecvMore(net: Net, p: int, buffer: array<bv8>, from: nat, remain: nat,
        ghost stream: seq<bv8>, ghost was: seq<bv8>)
    returns (n: int)
    requires from + remain <= buffer.Length == |was| && from <= |stream|
    requires net.incoming == stream[from..] && buffer[..] == stream[..from] + was[from..]
    modifies net`incoming, net`recvs, net`log, buffer
    ensures -1 <= n <= remain
    ensures var got := from + if n > 0 then n else 0;
      got <= |stream| && net.incoming == stream[got..] && buffer[..] == stream[..got] + was[got..]
    ensures old(net.Open(p)) ==> net.Open(p)
    ensures old(net.Sound(p)) ==> net.Sound(p) && n >= 0 && (remain > 0 && from < |stream| ==> n > 0)
  {
    hide After, NoneBelow, Net.Sound;
    ghost var before := buffer[..];
    n := net.Recv(p, buffer, from, remain);
    if n > 0 {
      assert buffer[..] == before[..from] + stream[from..][..n] + before[from + n..];
      Further(stream, was, from, n, before, buffer[..]);
    }
  }

  /** os_tcp_recv: the head of the stream, all of the size asked for or less and no success. */
  method OsTcpRecv(net: Net, p: int, buffer: array<bv8>, size: nat) returns (result: int, ghost got: nat)
    requires size <= buffer.Length
    modifies net`incoming, net`recvs, net`log, buffer
    ensures old(net.Open(p)) ==> net.Open(p)
    ensures got <= size && got <= |old(net.incoming)| && net.incoming == old(net.incoming)[got..]
    ensures buffer[..] == old(net.incoming)[..got] + old(buffer[got..])
    ensures result > 0 ==> result == size == got
    ensures size > 0 && got == size ==> result == size
    ensures old(net.Sound(p)) ==> net.Sound(p) && got == Least(size, |old(net.incoming)|)
  {
    hide After, NoneBelow;
    var from, remain, n := 0, size as int, 0;
    got := 0;
    ghost var stream, was := net.incoming, buffer[..];
    var first := true;
    while first || (remain > 0 && n > 0)
      invariant old(net.Open(p)) ==> net.Open(p)
      invariant 0 <= got <= size && got <= |stream| && net.incoming == stream[got..]
      invariant buffer[..] == stream[..got] + was[got..]
      invariant if n >= 0 then from == got && remain == size - got else remain > size - got
      invariant first ==> got == 0 && n == 0
      invariant !first && n <= 0 && size > 0 ==> got < size
      invariant old(net.Sound(p)) ==> net.Sound(p) && n >= 0 && (!first && n == 0 ==> got == Least(size, |stream|))
      decreases first, if n > 0 then remain + 1 else 0
    {
      first := false;
      n := RecvMore(net, p, buffer, from, remain, stream, was);
      remain := remain - n;
      if n > 0 {
        from := from + n;
        got := got + n;
      }
    }
    if remain == 0 {
      return size, got;
    }
    result := n;
  }

  /** os_tcp_send: all of the buffer, or less and no success. */
  method OsTcpSend(net: Net, p: int, buffer: array<bv8>, size: nat) returns (result: int, ghost sent: nat)
    requires size <= buffer.Length
    modifies net`outgoing, net`sends, net`log
    ensures old(net.Open(p)) ==> net.Open(p)
    ensures sent <= size && net.outgoing == old(net.outgoing) + buffer[..sent]
    ensures result > 0 ==> result == size == sent
    ensures size > 0 && sent == size ==> result == size
    ensures old(net.Sound(p)) ==> net.Sound(p) && sent == size
  {
    hide After, NoneBelow;
    var from, remain, n := 0, size as int, 0;
    var first := true;
    sent := 0;
    while first || (remain > 0 && n > 0)
      invariant old(net.Open(p)) ==> net.Open(p)
      invariant 0 <= sent <= size && net.outgoing == old(net.outgoing) + buffer[..sent]
      invariant if n >= 0 then from == sent && remain == size - sent else remain > size - sent
      invariant first ==> sent == 0 && n == 0
      invariant !first && n <= 0 && size > 0 ==> sent < size
      invariant old(net.Sound(p)) ==> net.Sound(p) && n >= 0 && (!first && n == 0 ==> size == 0)
      decreases first, if n > 0 then remain + 1 else 0
    {
      first := false;
      n := net.Send(p, buffer, from, remain);
      remain := remain - n;
      if n > 0 {
        assert buffer[..from + n] == buffer[..from] + buffer[from..from + n];
        from := from + n;
        sent := sent + n;
      }
    }
    if remain == 0 {
      return size, sent;
    }
    result := n;
  }
}
