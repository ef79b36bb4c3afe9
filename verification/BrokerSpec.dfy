/** The matching engine broker as a value: what one request from the handler does to everything it writes. */
module BrokerSpec {
  import opened ExchangeTypes
  import opened BookSpec
  import opened MarketData

  datatype Kind = NewOrderKind | DeleteOrderKind | ModifyOrderKind | AckKind | RejectKind | FillKind | CloseKind | OtherKind

  /** What travels on the two queues between the client handler and the broker. */
  datatype Payload = Payload(kind: Kind, id: uint64, symbol: uint32, clientSeq: uint32, client: uint32,
                             side: Side, quantity: uint32, price: int, flags: uint8)

  const PARTIAL_FILL: uint8 := 1
  const CLOSED: uint8 := 2

  /** One leg of a trade, as sent to the clearing house. */
  datatype ClearingFill = ClearingFill(client: uint32, symbol: uint32, quantity: uint32, price: int, side: Side)

  /** `owners` is keyed by the low 32 bits of the exchange order id. */
  type Owners = map<uint32, uint32>

  datatype BrokerState = BrokerState(books: map<uint32, Book>, owners: Owners, aggressor: Side,
                                     toClient: seq<Payload>, log: seq<MdMsg>, fills: seq<ClearingFill>)

  datatype BrokerOutcome = Processed | InvalidSymbol | InvalidKind | UnknownOwner | LadderThrew(outcome: Outcome)

  /** The request being processed, as the callbacks see it. */
  datatype Context = Context(owners: Owners, symbol: uint32, clientSeq: uint32, client: uint32)

  function Low32(id: uint64): uint32 {
    Wrap32(id)
  }

  /** onFill can name the client: the incoming order's is the request's, a resting one's is looked up. */
  predicate Attributable(owners: Owners, e: Event) {
    e.OnFill? && !e.active ==> Low32(e.id) in owners
  }

  function Owner(c: Context, e: Event): uint32
    requires e.OnFill? && Attributable(c.owners, e)
  {
    if e.active then c.client else c.owners[Low32(e.id)]
  }

  /** The payload a callback sends back to the handler. */
  function Response(c: Context, e: Event): seq<Payload>
    requires Attributable(c.owners, e)
  {
    match e
    case OnNewOrder(id, side, quantity, price, flags) =>
      [Payload(AckKind, id, c.symbol, c.clientSeq, c.client, side, quantity, price, flags)]
    case OnModifyOrder(id, side, quantity, price) =>
      [Payload(AckKind, id, c.symbol, c.clientSeq, c.client, side, quantity, price, 0)]
    case OnDeleteOrder(id, _) => [Payload(CloseKind, id, 0, c.clientSeq, c.client, Buy, 0, 0, 0)]
    case OnCancelReject(id) => [Payload(RejectKind, id, 0, c.clientSeq, c.client, Buy, 0, 0, 0)]
    case OnFill(id, side, quantity, price, closed, active) =>
      [Payload(FillKind, id, c.symbol, if active then c.clientSeq else 0, Owner(c, e), side, quantity, price,
               if closed then CLOSED else PARTIAL_FILL)]
    case OnTrade(_, _, _) => []
  }

  predicate AllAttributable(owners: Owners, events: seq<Event>) {
    forall i :: 0 <= i < |events| ==> Attributable(owners, events[i])
  }

  function Responses(c: Context, events: seq<Event>): seq<Payload>
    requires AllAttributable(c.owners, events)
  {
    if events == [] then [] else Response(c, events[0]) + Responses(c, events[1..])
  }

  function Cleared(c: Context, events: seq<Event>): seq<ClearingFill>
    requires AllAttributable(c.owners, events)
  {
    if events == [] then []
    else
      (if events[0].OnFill?
       then [ClearingFill(Owner(c, events[0]), c.symbol, events[0].quantity, events[0].price, events[0].side)]
       else [])
      + Cleared(c, events[1..])
  }

  /** How many leading callbacks complete before one throws for want of an owner. */
  function Completed(owners: Owners, events: seq<Event>): (n: nat)
    ensures n <= |events| && AllAttributable(owners, events[..n])
    ensures n < |events| ==> !Attributable(owners, events[n])
  {
    if events == [] || !Attributable(owners, events[0]) then 0
    else
      var n := 1 + Completed(owners, events[1..]);
      assert forall i :: 0 <= i < n ==> events[..n][i] == if i == 0 then events[0] else events[1..][..n - 1][i - 1];
      n
  }

  /** Everything the callbacks of one ladder call write; trades wait for the end of the request. */
  function Dispatched(st: BrokerState, c: Context, events: seq<Event>): BrokerState {
    var done := events[..Completed(c.owners, events)];
    st.(toClient := st.toClient + Responses(c, done),
        log := st.log + Immediate(c.symbol, done),
        fills := st.fills + Cleared(c, done))
  }

  function RequestOf(p: Payload): Request
    requires p.kind in {NewOrderKind, DeleteOrderKind, ModifyOrderKind}
  {
    if p.kind.NewOrderKind? then New(p.id, p.side, p.quantity, p.price, p.flags)
    else if p.kind.DeleteOrderKind? then Delete(p.id)
    else Modify(p.id, p.side, p.quantity, p.price)
  }

  /**
   One turn of the broker's loop. What it sends stops where it throws; the ladder, which the program leaves in the
   middle of the operation when an owner is unknown, is given as the operation would have left it.
   */
  function BrokerApply(st: BrokerState, p: Payload): (BrokerState, BrokerOutcome) {
    if p.kind.RejectKind? then
      (st.(toClient := st.toClient + [p]), Processed)
    else if p.kind !in {NewOrderKind, DeleteOrderKind, ModifyOrderKind} then
      (st, InvalidKind)
    else if p.symbol !in st.books then
      (st, InvalidSymbol)
    else
      var owners := if p.kind.NewOrderKind? then st.owners[Low32(p.id) := p.client] else st.owners;
      var aggressor := if p.kind.DeleteOrderKind? then st.aggressor else p.side;
      var r := Apply(st.books[p.symbol], RequestOf(p));
      var c := Context(owners, p.symbol, p.clientSeq, p.client);
      var st' := Dispatched(st.(books := st.books[p.symbol := r.book], owners := owners, aggressor := aggressor), c, r.events);
      if Completed(owners, r.events) < |r.events| then (st', UnknownOwner)
      else if r.outcome != Done then (st', LadderThrew(r.outcome))
      else
        QueuedAreTrades(r.events);
        (st'.(log := st'.log + WithSummary(p.symbol, aggressor, QueuedTrades(r.events))), Processed)
  }
}
