/** mb_slave_handle_request, src/mb_slave.c:395-507, over any transport, and what every run of it
    keeps. */
module SlaveService {
  import opened Errors
  import opened Pdu
  import opened Tables
  import opened Slave
  import Spec = SlaveSpec

  /** One call of the transport's rx: the bytes it leaves at the head of the buffer, what it
      returns, the id and unit it leaves in the transaction, and whether rx_bc holds after it. */
  datatype Arrival = Arrival(data: seq<bv8>, result: int, id: uint16, unit: bv8, broadcast: bool)

  datatype Message = Message(id: uint16, unit: bv8, pdu: seq<bv8>)

  predicate IsArrival(a: Arrival) {
    a.result <= |a.data| <= MAX_PDU_SIZE
  }

  /** pdu_txn_t */
  class Transaction {
    var arg: int
    var id: uint16
    var unit: bv8
    const data: array<bv8>

    constructor (data: array<bv8>)
      ensures this.data == data
    {
      this.data, arg, id, unit := data, 0, 0, 0;
    }
  }

  datatype LinkState = LinkState(inbox: seq<Arrival>, newer: seq<bool>, broadcast: bool, outbox: seq<Message>)

  /** A transport as the slave sees it. */
  class Link {
    // what comes in; what each coming rx_avail answers (false once used up); what went out
    var inbox: seq<Arrival>
    var newer: seq<bool>
    var broadcast: bool
    var outbox: seq<Message>

    constructor ()
      ensures State() == LinkState([], [], false, [])
    {
      inbox, newer, broadcast, outbox := [], [], false, [];
    }

    ghost predicate Valid()
      reads this
    {
      forall k :: 0 <= k < |inbox| ==> IsArrival(inbox[k])
    }

    ghost function State(): LinkState
      reads this
    {
      LinkState(inbox, newer, broadcast, outbox)
    }

    method Rx(txn: Transaction) returns (result: int)
      requires Valid() && txn.data.Length == MAX_PDU_SIZE
      modifies this, txn, txn.data
      ensures Valid()
      ensures (State(), txn.data[..], txn.id, txn.unit, result) ==
        Receive(old(State()), old(txn.data[..]), old(txn.id), old(txn.unit))
    {
      if inbox == [] {
        return ETIMEOUT;
      }
      var a := inbox[0];
      inbox, broadcast := inbox[1..], a.broadcast;
      txn.id, txn.unit := a.id, a.unit;
      forall k | 0 <= k < |a.data| {
        txn.data[k] := a.data[k];
      }
      assert txn.data[..] == a.data + old(txn.data[..])[|a.data|..];
      result := a.result;
    }

    method RxAvail() returns (available: bool)
      modifies this`newer
      ensures available == NewerIn(old(State())) && newer == Later(old(newer))
    {
      available := newer != [] && newer[0];
      newer := if newer == [] then [] else newer[1..];
    }

    method Tx(txn: Transaction, size: nat)
      requires size <= txn.data.Length
      modifies this`outbox
      ensures outbox == old(outbox) + [Message(txn.id, txn.unit, txn.data[..size])]
    {
      outbox := outbox + [Message(txn.id, txn.unit, txn.data[..size])];
    }
  }

  function Receive(l: LinkState, buf: seq<bv8>, id: uint16, unit: bv8): (LinkState, seq<bv8>, uint16, bv8, int)
    requires |buf| == MAX_PDU_SIZE && Arrivals(l)
  {
    if l.inbox == [] then (l, buf, id, unit, ETIMEOUT)
    else
      var a := l.inbox[0];
      (l.(inbox := l.inbox[1..], broadcast := a.broadcast), a.data + buf[|a.data|..], a.id, a.unit, a.result)
  }

  predicate Arrivals(l: LinkState) {
    forall k :: 0 <= k < |l.inbox| ==> IsArrival(l.inbox[k])
  }

  predicate NewerIn(l: LinkState) {
    l.newer != [] && l.newer[0]
  }

  function Later(newer: seq<bool>): seq<bool> {
    if newer == [] then [] else newer[1..]
  }

  // ---- one request --------------------------------------------------------------------

  datatype Node = Node(store: Spec.Store, buffer: seq<bv8>, id: uint16, unit: bv8, link: LinkState)

  predicate ValidNode(n: Node) {
    Spec.ValidStore(n.store) && |n.buffer| == MAX_PDU_SIZE && Arrivals(n.link)
  }

  /** One request: the tables become those of Handle, and its response goes out unless the request
      was broadcast or something newer has come, which is then dropped unread. */
  function Served(n: Node): (r: Node)
    requires ValidNode(n)
    ensures |r.buffer| == MAX_PDU_SIZE && Arrivals(r.link)
  {
    var (l, buf, id, unit, rx) := Receive(n.link, n.buffer, n.id, n.unit);
    if rx <= 0 then Node(n.store, buf, id, unit, l)
    else
      var (s, response) := Spec.Handle(n.store, buf, rx, l.broadcast);
      Spec.ResponseShape(n.store, buf, rx, l.broadcast);
      var after := response + buf[|response|..];
      var l' := l.(newer := Later(l.newer));
      if NewerIn(l) then
        var (l'', buf'', id'', unit'', _) := Receive(l', after, id, unit);
        Node(s, buf'', id'', unit'', l'')
      else
        Node(s, after, id, unit,
          if l.broadcast then l' else l'.(outbox := l.outbox + [Message(id, unit, response)]))
  }

  /** mb_slave_handle_request */
  method HandleRequest(slave: Slave, link: Link, txn: Transaction)
    requires slave.Valid() && link.Valid() && txn.data.Length == MAX_PDU_SIZE
    requires txn.data != slave.coils.bytes && txn.data != slave.inputs.bytes
    modifies link, txn, txn.data, slave.coils.bytes, slave.holding.regs
    ensures slave.Valid() && link.Valid()
    ensures ValidNode(old(Node(slave.View(), txn.data[..], txn.id, txn.unit, link.State())))
    ensures Node(slave.View(), txn.data[..], txn.id, txn.unit, link.State()) ==
      Served(old(Node(slave.View(), txn.data[..], txn.id, txn.unit, link.State())))
  {
    hide Spec.Handle, Spec.ValidStore;
    slave.ViewIsValid();
    var rxCount := link.Rx(txn);
    if rxCount > 0 {
      ghost var buf := txn.data[..];
      var txCount := slave.Execute(txn.data, rxCount, link.broadcast);
      var available := link.RxAvail();
      if available {
        rxCount := link.Rx(txn);
      } else if !link.broadcast {
        link.Tx(txn, txCount);
      }
    }
  }

  // ---- all runs -----------------------------------------------------------------------

  lemma ServedIsValid(n: Node)
    requires ValidNode(n)
    ensures ValidNode(Served(n))
  {
    hide Spec.Handle, Spec.ValidStore, Spec.WellFormed;
    var (l, buf, _, _, rx) := Receive(n.link, n.buffer, n.id, n.unit);
    if rx > 0 {
      Spec.HandleKeepsTables(n.store, buf, rx, l.broadcast);
    }
  }

  /** The body of the mb_slave loop, again and again; before each turn the user may change the tables. */
  function Run(n: Node, own: bv8, users: seq<Spec.Store>): (r: Node)
    requires ValidNode(n)
    ensures ValidNode(r)
    decreases |users|
  {
    if users == [] then n
    else
      var m := Before(n, own, users);
      ServedIsValid(m);
      Served(m)
  }

  /** The state at the start of the last turn. */
  function Before(n: Node, own: bv8, users: seq<Spec.Store>): (r: Node)
    requires ValidNode(n) && users != []
    ensures ValidNode(r)
    decreases |users|, 0
  {
    var k := |users| - 1;
    var m := Run(n, own, users[..k]);
    m.(unit := own, store := Spec.AfterUser(m.store, users[k]))
  }

  /** A message answers an arrival: a request not broadcast; same id and unit; well-formed. */
  predicate Responds(a: Arrival, m: Message) {
    && IsArrival(a) && a.result > 0 && !a.broadcast && m.id == a.id && m.unit == a.unit
    && Spec.WellFormed(a.data[0], a.data[..a.result], m.pdu)
  }

  /** How many arrivals the turns take, and which of them they answer. */
  function Taken(n: Node, own: bv8, users: seq<Spec.Store>): int
    requires ValidNode(n)
  {
    |n.link.inbox| - |Run(n, own, users).link.inbox|
  }

  function Answered(n: Node, own: bv8, users: seq<Spec.Store>): seq<int>
    requires ValidNode(n)
  {
    if users == [] then []
    else
      var before := users[..|users| - 1];
      if |Run(n, own, users).link.outbox| == |Run(n, own, before).link.outbox| then Answered(n, own, before)
      else Answered(n, own, before) + [Taken(n, own, before)]
  }

  /** Of the inbox, d arrivals are taken; the messages out answer the arrivals `which`, in order. */
  predicate Disciplined(inbox: seq<Arrival>, d: int, which: seq<int>, l: LinkState) {
    && 0 <= d <= |inbox| && l.inbox == inbox[d..] && |which| == |l.outbox|
    && (forall i, j :: 0 <= i < j < |which| ==> which[i] < which[j])
    && (forall i :: 0 <= i < |which| ==> 0 <= which[i] < d && Responds(inbox[which[i]], l.outbox[i]))
  }

  /** One turn takes one arrival, or two if something newer had come, and sends at most one
      message; it sends one exactly if it took one request, not broadcast. Every request received is
      executed, answered or not. */
  lemma OneTurn(n: Node)
    requires ValidNode(n)
    ensures var s := Served(n);
      if n.link.inbox == [] then s.link == n.link && s.store == n.store
      else
        var a := n.link.inbox[0];
        var buf := a.data + n.buffer[|a.data|..];
        && (if a.result > 0 then s.store == Spec.Handle(n.store, buf, a.result, a.broadcast).0 else s.store == n.store)
        && if a.result > 0 && !a.broadcast && !NewerIn(n.link) then
             && s.link.inbox == n.link.inbox[1..]
             && s.link.outbox == n.link.outbox + [Message(a.id, a.unit, Spec.Handle(n.store, buf, a.result, false).1)]
             && Responds(a, s.link.outbox[|n.link.outbox|])
           else
             && s.link.outbox == n.link.outbox
             && s.link.inbox == n.link.inbox[if a.result > 0 && NewerIn(n.link) && |n.link.inbox| > 1 then 2 else 1..]
  {
    hide Spec.Handle, Spec.ValidStore, Spec.WellFormed;
    if n.link.inbox != [] {
      var (l, buf, _, _, rx) := Receive(n.link, n.buffer, n.id, n.unit);
      if rx > 0 {
        Spec.ResponseShape(n.store, buf, rx, l.broadcast);
        assert buf[..rx] == n.link.inbox[0].data[..rx];
      }
    }
  }

  /** Response discipline over every run, whatever the user does to the tables in between: the messages
      sent answer different arrivals, in the order these came, and every one of them is the proper
      answer to its arrival. */
  lemma {:induction false} Discipline(n: Node, own: bv8, users: seq<Spec.Store>)
    requires ValidNode(n) && n.link.outbox == []
    ensures Disciplined(n.link.inbox, Taken(n, own, users), Answered(n, own, users), Run(n, own, users).link)
    decreases |users|
  {
    hide Responds, Served, Arrivals, Spec.Handle, Spec.AfterUser;
    if users != [] {
      var before := users[..|users| - 1];
      Discipline(n, own, before);
      var m := Before(n, own, users);
      OneTurn(m);
      hide Disciplined;
      TurnIsDisciplined(n.link.inbox, Taken(n, own, before), Answered(n, own, before), m.link,
        Run(n, own, users).link, |m.link.inbox| - |Run(n, own, users).link.inbox|);
    }
  }

  /** One turn's part in it: k arrivals are taken, and the first of them may be answered. */
  lemma TurnIsDisciplined(inbox: seq<Arrival>, d: int, which: seq<int>, l: LinkState, l': LinkState, k: int)
    requires Disciplined(inbox, d, which, l) && 0 <= k <= |l.inbox| && l'.inbox == l.inbox[k..]
    requires l'.outbox != l.outbox ==>
      && k > 0 && |l'.outbox| == |l.outbox| + 1 && l'.outbox[..|l.outbox|] == l.outbox
      && Responds(l.inbox[0], l'.outbox[|l.outbox|])
    ensures Disciplined(inbox, d + k, if |l'.outbox| == |l.outbox| then which else which + [d], l')
  {
    hide Responds;
    assert l'.inbox == inbox[d + k..];
    if l'.outbox != l.outbox {
      assert l.inbox[0] == inbox[d];
      assert forall i :: 0 <= i < |l.outbox| ==> l'.outbox[i] == l.outbox[i];
    }
  }
}
