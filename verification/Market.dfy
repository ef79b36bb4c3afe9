/** All live orders of the exchange at once, by id: what a gapless market data log means. */
module Markets {
  import opened ExchangeTypes
  import opened MarketData

  datatype Live = Live(symbol: uint32, quote: Quote)

  type Market = map<uint64, Live>

  /** The orders of one symbol. */
  function Of(g: Market, s: uint32): Quotes {
    map x | x in g && g[x].symbol == s :: g[x].quote
  }

  function ApplyMarket(g: Market, msg: MdMsg): Market {
    match msg
    case MdNew(id, symbol, side, quantity, price, _) => if id in g then g else g[id := Live(symbol, Quote(side, price, quantity))]
    case MdDelete(id) => g - {id}
    case MdModify(id, side, quantity, price) => if id in g then g[id := g[id].(quote := Quote(side, price, quantity))] else g
    case MdTrade(id, quantity, _) =>
      if id !in g || g[id].quote.quantity < quantity then g
      else if g[id].quote.quantity == quantity then g - {id}
      else g[id := g[id].(quote := g[id].quote.(quantity := g[id].quote.quantity - quantity))]
    case MdSummary(_, _, _, _) => g
    case MdHeartbeat => g
  }

  function Replay(g: Market, log: seq<MdMsg>): Market
    decreases |log|
  {
    if log == [] then g else Replay(ApplyMarket(g, log[0]), log[1..])
  }

  lemma {:induction false} ReplayConcat(g: Market, a: seq<MdMsg>, b: seq<MdMsg>)
    ensures Replay(g, a + b) == Replay(Replay(g, a), b)
    decreases |a|
  {
    if a == [] {
      assert a + b == b;
    } else {
      assert (a + b)[1..] == a[1..] + b;
      ReplayConcat(ApplyMarket(g, a[0]), a[1..], b);
    }
  }

  /** A new order's id is not live; the one thing the log owes its readers. */
  predicate Fresh(g: Market, msg: MdMsg) {
    msg.MdNew? ==> msg.id !in g
  }

  predicate AllFresh(g: Market, log: seq<MdMsg>)
    decreases |log|
  {
    log == [] || (Fresh(g, log[0]) && AllFresh(ApplyMarket(g, log[0]), log[1..]))
  }

  lemma {:induction false} FreshConcat(g: Market, a: seq<MdMsg>, b: seq<MdMsg>)
    ensures AllFresh(g, a + b) <==> AllFresh(g, a) && AllFresh(Replay(g, a), b)
    decreases |a|
  {
    if a == [] {
      assert a + b == b;
    } else {
      assert (a + b)[1..] == a[1..] + b;
      FreshConcat(ApplyMarket(g, a[0]), a[1..], b);
    }
  }

  predicate HasId(msg: MdMsg) {
    !msg.MdSummary? && !msg.MdHeartbeat?
  }

  /** The symbol a message is about, None when it is about no live order. */
  function Subject(g: Market, msg: MdMsg): Option<uint32> {
    if msg.MdNew? then Some(msg.symbol)
    else if HasId(msg) && msg.id in g then Some(g[msg.id].symbol)
    else None
  }

  /** A message changes the orders of its own symbol, as ApplyQuote says, and of no other. */
  lemma ApplyOf(g: Market, msg: MdMsg, s: uint32)
    requires Fresh(g, msg)
    ensures Of(ApplyMarket(g, msg), s) == if Subject(g, msg) == Some(s) then ApplyQuote(Of(g, s), msg) else Of(g, s)
  {
    var g' := ApplyMarket(g, msg);
    var m := if Subject(g, msg) == Some(s) then ApplyQuote(Of(g, s), msg) else Of(g, s);
    assert Of(g', s).Keys == m.Keys;
    assert forall x :: x in m ==> Of(g', s)[x] == m[x];
  }
}
