/** Market data messages and what they mean to anyone who keeps a map of the resting orders. */
module MarketData {
  import opened ExchangeTypes
  import opened BookSpec

  datatype MdMsg =
    | MdNew(id: uint64, symbol: uint32, side: Side, quantity: uint32, price: int, flags: uint8)
    | MdDelete(id: uint64)
    | MdModify(id: uint64, side: Side, quantity: uint32, price: int)
    | MdTrade(id: uint64, quantity: uint32, price: int)
    | MdSummary(symbol: uint32, aggressor: Side, total: uint32, lastPrice: int)
    | MdHeartbeat

  /** A message under its sequence number. */
  datatype Numbered = Numbered(seqNum: uint32, msg: MdMsg)

  /** What a replica knows of one resting order. */
  datatype Quote = Quote(side: Side, price: int, quantity: uint32)

  type Quotes = map<uint64, Quote>

  /** One message applied to the orders of one symbol; unknown orders are ignored, as are oversized trades. */
  function ApplyQuote(m: Quotes, msg: MdMsg): Quotes {
    match msg
    case MdNew(id, _, side, quantity, price, _) => if id in m then m else m[id := Quote(side, price, quantity)]
    case MdDelete(id) => m - {id}
    case MdModify(id, side, quantity, price) => if id in m then m[id := Quote(side, price, quantity)] else m
    case MdTrade(id, quantity, _) =>
      if id !in m || m[id].quantity < quantity then m
      else if m[id].quantity == quantity then m - {id}
      else m[id := m[id].(quantity := m[id].quantity - quantity)]
    case MdSummary(_, _, _, _) => m
    case MdHeartbeat => m
  }

  function ReplayQuotes(m: Quotes, msgs: seq<MdMsg>): Quotes
    decreases |msgs|
  {
    if msgs == [] then m else ReplayQuotes(ApplyQuote(m, msgs[0]), msgs[1..])
  }

  lemma {:induction false} ReplayConcat(m: Quotes, a: seq<MdMsg>, b: seq<MdMsg>)
    ensures ReplayQuotes(m, a + b) == ReplayQuotes(ReplayQuotes(m, a), b)
    decreases |a|
  {
    if a == [] {
      assert a + b == b;
    } else {
      assert (a + b)[1..] == a[1..] + b;
      ReplayConcat(ApplyQuote(m, a[0]), a[1..], b);
    }
  }

  // ----- what the broker publishes for the callbacks of one request -----

  /** Published at once: onNewOrder with something left, onModifyOrder, onDeleteOrder with publish set. */
  function Immediate(symbol: uint32, events: seq<Event>): seq<MdMsg> {
    if events == [] then [] else
      (match events[0]
       case OnNewOrder(id, side, quantity, price, flags) =>
         if quantity > 0 then [MdNew(id, symbol, side, quantity, price, flags)] else []
       case OnModifyOrder(id, side, quantity, price) => [MdModify(id, side, quantity, price)]
       case OnDeleteOrder(id, publish) => if publish then [MdDelete(id)] else []
       case _ => [])
      + Immediate(symbol, events[1..])
  }

  /** Held back until the end of the request. */
  function QueuedTrades(events: seq<Event>): seq<MdMsg> {
    if events == [] then []
    else (if events[0].OnTrade? then [MdTrade(events[0].id, events[0].quantity, events[0].price)] else [])
         + QueuedTrades(events[1..])
  }

  function TotalQuantity(trades: seq<MdMsg>): nat {
    if trades == [] then 0
    else (if trades[0].MdTrade? then trades[0].quantity else 0) + TotalQuantity(trades[1..])
  }

  /** The held-back trades behind their summary; nothing when there was no trade. */
  function WithSummary(symbol: uint32, aggressor: Side, trades: seq<MdMsg>): seq<MdMsg>
    requires forall i :: 0 <= i < |trades| ==> trades[i].MdTrade?
  {
    if trades == [] then []
    else [MdSummary(symbol, aggressor, Wrap32(TotalQuantity(trades)), trades[|trades| - 1].price)] + trades
  }

  lemma {:induction false} QueuedAreTrades(events: seq<Event>)
    ensures forall i :: 0 <= i < |QueuedTrades(events)| ==> QueuedTrades(events)[i].MdTrade?
  {
    if events != [] {
      QueuedAreTrades(events[1..]);
    }
  }

  /** Everything published for one request, in the order it goes out. */
  function Published(symbol: uint32, aggressor: Side, events: seq<Event>): seq<MdMsg> {
    QueuedAreTrades(events);
    Immediate(symbol, events) + WithSummary(symbol, aggressor, QueuedTrades(events))
  }

  lemma {:induction false} TotalPush(trades: seq<MdMsg>, t: MdMsg)
    requires t.MdTrade?
    ensures TotalQuantity(trades + [t]) == TotalQuantity(trades) + t.quantity
    ensures Wrap32(TotalQuantity(trades + [t])) == Wrap32(Wrap32(TotalQuantity(trades)) + t.quantity)
  {
    hide Wrap32;
    if trades == [] {
      assert trades + [t] == [t] && [t][1..] == [];
    } else {
      assert (trades + [t])[1..] == trades[1..] + [t];
      TotalPush(trades[1..], t);
    }
    WrapAdd(TotalQuantity(trades), t.quantity);
  }

  lemma WrapAdd(x: nat, y: nat)
    ensures Wrap32(x + y) == Wrap32(Wrap32(x) + y)
  {
    var k := x / TWO32;
    assert x == TWO32 * k + x % TWO32;
    assert x + y == TWO32 * k + (x % TWO32 + y);
  }

  /** The held-back trades behind their summary: the total they come to, in 32 bits, and the price of the last. */
  method Summarise(symbol: uint32, aggressor: Side, trades: seq<MdMsg>) returns (ms: seq<MdMsg>)
    requires forall i :: 0 <= i < |trades| ==> trades[i].MdTrade?
    ensures ms == WithSummary(symbol, aggressor, trades)
  {
    if trades == [] {
      return [];
    }
    var total: uint32, lastPrice, n := 0, 0, 0;
    while n < |trades|
      invariant 0 <= n <= |trades| && total == Wrap32(TotalQuantity(trades[..n]))
      invariant n > 0 ==> lastPrice == trades[n - 1].price
    {
      total := Wrap32(total + trades[n].quantity);
      lastPrice := trades[n].price;
      assert trades[..n + 1] == trades[..n] + [trades[n]];
      TotalPush(trades[..n], trades[n]);
      n := n + 1;
    }
    assert trades[..n] == trades;
    ms := [MdSummary(symbol, aggressor, total, lastPrice)] + trades;
  }
}
