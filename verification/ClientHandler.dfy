/** The client handler as the program has it: an object whose maps its methods update and whose queue they fill. */
module ClientHandlers {
  import opened ExchangeTypes
  import opened BrokerSpec
  import opened HandlerSpec

  /** What the environment decides while one response is handled. */
  datatype Choice = Choice(fails: bool, keys: seq<uint64>)

  ghost predicate CanHandleAll(h: Handler, ps: seq<Payload>, cs: seq<Choice>)
    decreases |ps|, 0
  {
    |cs| == |ps| &&
    (ps == [] ||
     (var n := |ps| - 1;
      CanHandleAll(h, ps[..n], cs[..n]) && CanHandle(HandleAll(h, ps[..n], cs[..n]), ps[n], cs[n].fails, cs[n].keys)))
  }

  /** Responses handled one after the other. */
  ghost function HandleAll(h: Handler, ps: seq<Payload>, cs: seq<Choice>): Handler
    requires CanHandleAll(h, ps, cs)
    decreases |ps|, 1
  {
    if ps == [] then h
    else var n := |ps| - 1; Handle(HandleAll(h, ps[..n], cs[..n]), ps[n], cs[n].fails, cs[n].keys)
  }

  lemma HandleAllPush(h: Handler, ps: seq<Payload>, cs: seq<Choice>, p: Payload, c: Choice)
    requires CanHandleAll(h, ps, cs) && CanHandle(HandleAll(h, ps, cs), p, c.fails, c.keys)
    ensures CanHandleAll(h, ps + [p], cs + [c])
    ensures HandleAll(h, ps + [p], cs + [c]) == Handle(HandleAll(h, ps, cs), p, c.fails, c.keys)
  {
    assert (ps + [p])[..|ps|] == ps && (cs + [c])[..|ps|] == cs;
  }

  class ClientHandler {
    const rules: Rules
    var sessions: map<Sock, Session>
    var socks: map<uint32, Sock>
    var open: map<uint32, OpenOrders>
    var known: map<uint64, ClientOrder>
    var toEngine: seq<Payload>
    var fromEngine: seq<Payload>
    var sent: seq<Sent>

    ghost function Contents(): Handler
      reads this
    {
      Handler(sessions, socks, open, known, toEngine, sent)
    }

    constructor (rules: Rules)
      ensures this.rules == rules && fromEngine == []
      ensures Contents() == Handler(map[], map[], map[], map[], [], [])
    {
      this.rules := rules;
      sessions, socks, open, known, toEngine, fromEngine, sent := map[], map[], map[], map[], [], [], [];
    }

    /** A delete for every open order, in whatever order the hash map is walked. */
    method CancelAllClientOrders(client: uint32) returns (ghost keys: seq<uint64>)
      modifies this`toEngine, this`open
      ensures Enumerates(keys, Orders(old(Contents()), client))
      ensures Contents() == CancelAll(old(Contents()), client, keys)
    {
      keys := [];
      if client !in open {
        return;
      }
      var m := open[client];
      var rest := m.Keys;
      while rest != {}
        invariant rest <= m.Keys
        invariant forall k :: k in keys <==> k in m.Keys - rest
        invariant forall i, j :: 0 <= i < j < |keys| ==> keys[i] != keys[j]
        invariant toEngine == old(toEngine) + Cancels(m, keys, client)
        invariant open == old(open)
        decreases |rest|
      {
        var o :| o in rest;
        ghost var before := keys;
        assert o !in before;
        keys := keys + [o];
        rest := rest - {o};
        toEngine := toEngine + [DeletePayload(m[o], 0, client)];
        assert Cancels(m, keys, client) == Cancels(m, before, client) + [DeletePayload(m[o], 0, client)];
      }
      open := open - {client};
    }

    method OnSocketClosed(sock: Sock) returns (ghost keys: seq<uint64>)
      modifies this`toEngine, this`open, this`socks, this`sessions
      ensures CanClose(old(Contents()), sock, keys)
      ensures Contents() == SocketClosed(old(Contents()), sock, keys)
    {
      keys := [];
      if sock !in sessions {
        return;
      }
      var client := sessions[sock].client;
      keys := CancelAllClientOrders(client);
      socks := socks - {client};
      sessions := sessions - {sock};
    }

    /** `valid` is the verdict on the credentials, `session` the generated session id, `fails` that the response cannot be sent. */
    method OnLogin(sock: Sock, client: uint32, valid: bool, session: uint64, fails: bool) returns (ghost keys: seq<uint64>)
      modifies this`toEngine, this`open, this`socks, this`sessions
      ensures CanLogin(old(Contents()), sock, client, valid, session, fails, keys)
      ensures Contents() == Login(old(Contents()), sock, client, valid, session, fails, keys)
    {
      keys := [];
      if !valid {
        return;
      }
      if client in socks {
        var other := socks[client];
        if other == sock {
          return;
        }
        keys := OnSocketClosed(other);
        return;
      }
      sessions := sessions[sock := Session(session, client)];
      socks := socks[client := sock];
      if fails {
        keys := OnSocketClosed(sock);
      }
    }

    method SendOrderReject(seqNum: uint32, client: uint32, reason: uint8, order: uint64)
      modifies this`toEngine
      ensures Contents() == Push(old(Contents()), RejectPayload(seqNum, client, reason, order))
    {
      toEngine := toEngine + [RejectPayload(seqNum, client, reason, order)];
    }

    /** `id` is the exchange order id read from the clock. */
    method OnNewOrder(sock: Sock, m: NewRequest, id: uint64)
      modifies this`toEngine, this`open, this`known
      ensures Contents() == NewOrder(old(Contents()), rules, sock, m, id)
    {
      if !(sock in sessions && sessions[sock] == Session(m.session, m.client)) {
        SendOrderReject(m.seqNum, m.client, UNKNOWN_SESSION_ID, m.order);
        return;
      }
      var reject := Validate(rules, m.symbol, m.quantity, m.price);
      if reject != NONE {
        SendOrderReject(m.seqNum, m.client, reject, m.order);
        return;
      }
      if m.client in open && m.order in open[m.client] {
        SendOrderReject(m.seqNum, m.client, DUPLICATE_ORDER_ID, m.order);
        return;
      }
      var orders := if m.client in open then open[m.client] else map[];
      open := open[m.client := orders[m.order := OpenOrder(id, m.symbol)]];
      known := known[id := ClientOrder(m.client, m.order)];
      toEngine := toEngine + [Payload(NewOrderKind, id, m.symbol, m.seqNum, m.client, m.side, m.quantity, m.price, m.flags)];
    }

    method OnDeleteOrder(sock: Sock, m: OrderRequest)
      modifies this`toEngine
      ensures Contents() == DeleteOrder(old(Contents()), sock, m)
    {
      if !(sock in sessions && sessions[sock] == Session(m.session, m.client)) {
        SendOrderReject(m.seqNum, m.client, UNKNOWN_SESSION_ID, m.order);
        return;
      }
      if m.client !in open || m.order !in open[m.client] {
        SendOrderReject(m.seqNum, m.client, UNKNOWN_ORDER_ID, m.order);
        return;
      }
      toEngine := toEngine + [DeletePayload(open[m.client][m.order], m.seqNum, m.client)];
    }

    method OnModifyOrder(sock: Sock, m: OrderRequest, side: Side, quantity: uint32, price: int)
      modifies this`toEngine
      ensures Contents() == ModifyOrder(old(Contents()), rules, sock, m, side, quantity, price)
    {
      if !(sock in sessions && sessions[sock] == Session(m.session, m.client)) {
        SendOrderReject(m.seqNum, m.client, UNKNOWN_SESSION_ID, m.order);
        return;
      }
      if m.client !in open || m.order !in open[m.client] {
        SendOrderReject(m.seqNum, m.client, UNKNOWN_ORDER_ID, m.order);
        return;
      }
      var o := open[m.client][m.order];
      var reject := Validate(rules, o.symbol, quantity, price);
      if reject != NONE {
        SendOrderReject(m.seqNum, m.client, reject, m.order);
        return;
      }
      toEngine := toEngine + [Payload(ModifyOrderKind, o.id, o.symbol, m.seqNum, m.client, side, quantity, price, 0)];
    }

    /** A send that fails closes the socket it was for. */
    method WriteToClient(client: uint32, id: uint64, message: Message, fails: bool) returns (ghost keys: seq<uint64>)
      modifies this`toEngine, this`open, this`socks, this`sessions, this`sent
      ensures CanWrite(old(Contents()), client, fails, keys)
      ensures Contents() == Write(old(Contents()), client, id, message, fails, keys)
    {
      keys := [];
      if client !in socks {
        return;
      }
      var sock := socks[client];
      if sock !in sessions || fails {
        keys := OnSocketClosed(sock);
      } else {
        sent := sent + [Sent(sock, id, message)];
      }
    }

    method HandleOne(p: Payload, fails: bool) returns (ghost keys: seq<uint64>)
      modifies this`toEngine, this`open, this`socks, this`sessions, this`sent, this`known
      ensures CanHandle(old(Contents()), p, fails, keys)
      ensures Contents() == Handle(old(Contents()), p, fails, keys)
    {
      keys := [];
      if !p.kind.RejectKind? && p.id !in known {
        return;
      }
      if p.kind.RejectKind? {
        keys := WriteToClient(p.client, p.id, Rejected(p.id, p.flags), fails);
        return;
      }
      var at := known[p.id];
      match p.kind
      case AckKind =>
        keys := WriteToClient(at.client, p.id, Ack(at.order, p.quantity, p.price), fails);
      case FillKind =>
        keys := WriteToClient(at.client, p.id, Fill(at.order, p.quantity, p.price, p.flags), fails);
        if IsClosed(p.flags) {
          Erase(at, p.id);
        }
      case CloseKind =>
        keys := WriteToClient(at.client, p.id, Closed(at.order), fails);
        Erase(at, p.id);
      case _ =>
    }

    method Erase(at: ClientOrder, id: uint64)
      modifies this`open, this`known
      ensures Contents() == Forget(old(Contents()), at, id)
    {
      var orders := if at.client in open then open[at.client] else map[];
      open := open[at.client := orders - {at.order}];
      known := known - {id};
    }

    /** Drain the queue from the broker; whether each send fails is the network's choice. */
    method Process() returns (ghost cs: seq<Choice>)
      modifies this
      ensures fromEngine == [] && CanHandleAll(old(Contents()), old(fromEngine), cs)
      ensures Contents() == HandleAll(old(Contents()), old(fromEngine), cs)
    {
      cs := [];
      ghost var n := 0;
      while fromEngine != []
        invariant 0 <= n <= |old(fromEngine)| && fromEngine == old(fromEngine)[n..]
        invariant CanHandleAll(old(Contents()), old(fromEngine)[..n], cs)
        invariant Contents() == HandleAll(old(Contents()), old(fromEngine)[..n], cs)
        decreases |fromEngine|
      {
        var p := fromEngine[0];
        var fails: bool := *;
        ghost var before := Contents();
        ghost var keys := HandleOne(p, fails);
        HandleAllPush(old(Contents()), old(fromEngine)[..n], cs, p, Choice(fails, keys));
        assert old(fromEngine)[..n] + [p] == old(fromEngine)[..n + 1];
        cs := cs + [Choice(fails, keys)];
        fromEngine := fromEngine[1..];
        n := n + 1;
      }
      assert old(fromEngine)[..n] == old(fromEngine);
    }
  }
}
