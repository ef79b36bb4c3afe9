/** The order entry handler as a value: sessions, the two order maps, and what each event pushes and sends. */
module HandlerSpec {
  import opened ExchangeTypes
  import opened BrokerSpec

  type Sock = int

  datatype Session = Session(id: uint64, client: uint32)
  datatype OpenOrder = OpenOrder(id: uint64, symbol: uint32)
  datatype ClientOrder = ClientOrder(client: uint32, order: uint64)

  /** What is written to a client's socket about one exchange order. */
  datatype Message =
    | Ack(order: uint64, quantity: uint32, price: int)
    | Fill(order: uint64, quantity: uint32, price: int, flags: uint8)
    | Closed(order: uint64)
    | Rejected(order: uint64, reason: uint8)

  datatype Sent = Sent(sock: Sock, id: uint64, message: Message)

  type OpenOrders = map<uint64, OpenOrder>

  datatype Handler = Handler(sessions: map<Sock, Session>, socks: map<uint32, Sock>, open: map<uint32, OpenOrders>,
                             known: map<uint64, ClientOrder>, toEngine: seq<Payload>, sent: seq<Sent>)

  // ----- validation -----

  /** `tick` and `minLot` are divisors in the validator. */
  datatype SymbolRules = SymbolRules(tick: uint32, minLot: uint32, maxLot: uint32, maxPrice: int, minPrice: int)

  type Rules = r: map<uint32, SymbolRules> | forall s :: s in r ==> r[s].tick > 0 && r[s].minLot > 0 witness map[]

  const NONE: uint8 := 0
  const UNKNOWN_SYMBOL: uint8 := 1
  const DUPLICATE_ORDER_ID: uint8 := 3
  const UNKNOWN_ORDER_ID: uint8 := 4
  const INVALID_PRICE: uint8 := 5
  const INVALID_QUANTITY: uint8 := 6
  const UNKNOWN_SESSION_ID: uint8 := 8

  /** The tick test is made on the price converted to unsigned. */
  function Validate(rules: Rules, symbol: uint32, quantity: uint32, price: int): uint8 {
    if symbol !in rules then UNKNOWN_SYMBOL
    else
      var r := rules[symbol];
      if quantity % r.minLot != 0 then INVALID_QUANTITY
      else if Wrap32(price) % r.tick != 0 then INVALID_PRICE
      else if quantity > r.maxLot then INVALID_QUANTITY
      else if price > r.maxPrice || price < r.minPrice then INVALID_PRICE
      else if quantity == 0 then INVALID_QUANTITY
      else NONE
  }

  // ----- helpers -----

  function Orders(h: Handler, client: uint32): OpenOrders {
    if client in h.open then h.open[client] else map[]
  }

  predicate Tracks(h: Handler, client: uint32, order: uint64) {
    client in h.open && order in h.open[client]
  }

  predicate ValidSession(h: Handler, sock: Sock, session: uint64, client: uint32) {
    sock in h.sessions && h.sessions[sock] == Session(session, client)
  }

  function Push(h: Handler, p: Payload): Handler {
    h.(toEngine := h.toEngine + [p])
  }

  /** Rejects travel through the broker so that they stay in order with its responses. */
  function RejectPayload(seqNum: uint32, client: uint32, reason: uint8, order: uint64): Payload {
    Payload(RejectKind, order, 0, seqNum, client, Buy, 0, 0, reason)
  }

  function DeletePayload(o: OpenOrder, seqNum: uint32, client: uint32): Payload {
    Payload(DeleteOrderKind, o.id, o.symbol, seqNum, client, Buy, 0, 0, 0)
  }

  // ----- disconnection -----

  /** Some order in which the hash map of a client's open orders may be walked. */
  predicate Enumerates(keys: seq<uint64>, m: OpenOrders) {
    && (forall i, j :: 0 <= i < j < |keys| ==> keys[i] != keys[j])
    && (forall k :: k in keys ==> k in m)
    && (forall k :: k in m ==> k in keys)
  }

  function Cancels(m: OpenOrders, keys: seq<uint64>, client: uint32): seq<Payload>
    requires forall k :: k in keys ==> k in m
  {
    seq(|keys|, i requires 0 <= i < |keys| => DeletePayload(m[keys[i]], 0, client))
  }

  function CancelAll(h: Handler, client: uint32, keys: seq<uint64>): Handler
    requires Enumerates(keys, Orders(h, client))
  {
    h.(toEngine := h.toEngine + Cancels(Orders(h, client), keys, client), open := h.open - {client})
  }

  /** The client whose orders go when this socket closes has its open orders walked in the order `keys`. */
  predicate CanClose(h: Handler, sock: Sock, keys: seq<uint64>) {
    sock in h.sessions ==> Enumerates(keys, Orders(h, h.sessions[sock].client))
  }

  function SocketClosed(h: Handler, sock: Sock, keys: seq<uint64>): Handler
    requires CanClose(h, sock, keys)
  {
    if sock !in h.sessions then h
    else
      var client := h.sessions[sock].client;
      var h1 := CancelAll(h, client, keys);
      h1.(socks := h1.socks - {client}, sessions := h1.sessions - {sock})
  }

  // ----- requests -----

  /** A login with its credentials already judged; `fails` says whether the response could not be sent. */
  function Login(h: Handler, sock: Sock, client: uint32, valid: bool, session: uint64, fails: bool, keys: seq<uint64>): Handler
    requires CanLogin(h, sock, client, valid, session, fails, keys)
  {
    if !valid then h
    else if client in h.socks then
      var other := h.socks[client];
      if other == sock || other !in h.sessions then h else SocketClosed(h, other, keys)
    else
      var h1 := h.(sessions := h.sessions[sock := Session(session, client)], socks := h.socks[client := sock]);
      if fails then SocketClosed(h1, sock, keys) else h1
  }

  predicate CanLogin(h: Handler, sock: Sock, client: uint32, valid: bool, session: uint64, fails: bool, keys: seq<uint64>) {
    valid ==>
      && (client in h.socks && h.socks[client] != sock ==> CanClose(h, h.socks[client], keys))
      && (client !in h.socks && fails ==> Enumerates(keys, Orders(h, client)))
  }

  /** The login that opens a session, as opposed to one refused or answered by closing the other socket. */
  predicate Opens(h: Handler, client: uint32, valid: bool) {
    valid && client !in h.socks
  }

  datatype NewRequest = NewRequest(session: uint64, client: uint32, seqNum: uint32, order: uint64, symbol: uint32,
                                   side: Side, quantity: uint32, price: int, flags: uint8)

  /** Why a new order is refused, NONE when it is not. */
  function NewRefusal(h: Handler, rules: Rules, sock: Sock, m: NewRequest): uint8 {
    if !ValidSession(h, sock, m.session, m.client) then UNKNOWN_SESSION_ID
    else if Validate(rules, m.symbol, m.quantity, m.price) != NONE then Validate(rules, m.symbol, m.quantity, m.price)
    else if Tracks(h, m.client, m.order) then DUPLICATE_ORDER_ID
    else NONE
  }

  function NewOrder(h: Handler, rules: Rules, sock: Sock, m: NewRequest, id: uint64): Handler {
    var reason := NewRefusal(h, rules, sock, m);
    if reason != NONE then
      Push(h, RejectPayload(m.seqNum, m.client, reason, m.order))
    else
      var h1 := h.(open := h.open[m.client := Orders(h, m.client)[m.order := OpenOrder(id, m.symbol)]],
                   known := h.known[id := ClientOrder(m.client, m.order)]);
      Push(h1, Payload(NewOrderKind, id, m.symbol, m.seqNum, m.client, m.side, m.quantity, m.price, m.flags))
  }

  datatype OrderRequest = OrderRequest(session: uint64, client: uint32, seqNum: uint32, order: uint64)

  function DeleteOrder(h: Handler, sock: Sock, m: OrderRequest): Handler {
    if !ValidSession(h, sock, m.session, m.client) then
      Push(h, RejectPayload(m.seqNum, m.client, UNKNOWN_SESSION_ID, m.order))
    else if !Tracks(h, m.client, m.order) then
      Push(h, RejectPayload(m.seqNum, m.client, UNKNOWN_ORDER_ID, m.order))
    else
      Push(h, DeletePayload(h.open[m.client][m.order], m.seqNum, m.client))
  }

  function ModifyOrder(h: Handler, rules: Rules, sock: Sock, m: OrderRequest, side: Side, quantity: uint32, price: int): Handler {
    if !ValidSession(h, sock, m.session, m.client) then
      Push(h, RejectPayload(m.seqNum, m.client, UNKNOWN_SESSION_ID, m.order))
    else if !Tracks(h, m.client, m.order) then
      Push(h, RejectPayload(m.seqNum, m.client, UNKNOWN_ORDER_ID, m.order))
    else
      var o := h.open[m.client][m.order];
      var reason := Validate(rules, o.symbol, quantity, price);
      if reason != NONE then
        Push(h, RejectPayload(m.seqNum, m.client, reason, m.order))
      else
        Push(h, Payload(ModifyOrderKind, o.id, o.symbol, m.seqNum, m.client, side, quantity, price, 0))
  }

  // ----- responses from the broker -----

  /** Closing after a failed send, when the client still has a socket with a session. */
  predicate CanWrite(h: Handler, client: uint32, fails: bool, keys: seq<uint64>) {
    client in h.socks && fails ==> CanClose(h, h.socks[client], keys)
  }

  /** A message for a client that has no socket, or whose socket has no session, goes nowhere. */
  function Write(h: Handler, client: uint32, id: uint64, message: Message, fails: bool, keys: seq<uint64>): Handler
    requires CanWrite(h, client, fails, keys)
  {
    if client !in h.socks || h.socks[client] !in h.sessions then h
    else if fails then SocketClosed(h, h.socks[client], keys)
    else h.(sent := h.sent + [Sent(h.socks[client], id, message)])
  }

  /** An order that is over: forgotten under both its ids. */
  function Forget(h: Handler, at: ClientOrder, id: uint64): Handler {
    h.(open := h.open[at.client := Orders(h, at.client) - {at.order}], known := h.known - {id})
  }

  predicate IsClosed(flags: uint8) {
    flags / CLOSED % 2 == 1
  }

  /** No more will happen to the order of this message. */
  predicate Terminal(p: Payload) {
    p.kind.CloseKind? || (p.kind.FillKind? && IsClosed(p.flags))
  }

  predicate CanHandle(h: Handler, p: Payload, fails: bool, keys: seq<uint64>) {
    if p.kind.RejectKind? then CanWrite(h, p.client, fails, keys)
    else p.id in h.known && p.kind in {AckKind, FillKind, CloseKind} ==> CanWrite(h, h.known[p.id].client, fails, keys)
  }

  /** One payload from the broker. */
  function Handle(h: Handler, p: Payload, fails: bool, keys: seq<uint64>): Handler
    requires CanHandle(h, p, fails, keys)
  {
    if p.kind.RejectKind? then
      Write(h, p.client, p.id, Rejected(p.id, p.flags), fails, keys)
    else if p.id !in h.known then
      h
    else
      var at := h.known[p.id];
      match p.kind
      case AckKind => Write(h, at.client, p.id, Ack(at.order, p.quantity, p.price), fails, keys)
      case FillKind =>
        var h1 := Write(h, at.client, p.id, Fill(at.order, p.quantity, p.price, p.flags), fails, keys);
        if IsClosed(p.flags) then Forget(h1, at, p.id) else h1
      case CloseKind => Forget(Write(h, at.client, p.id, Closed(at.order), fails, keys), at, p.id)
      case _ => h
  }
}
