/** The two replicas of the market data log agree: the writer's vectors are the client's order book. */
module SnapshotAgreement {
  import opened ExchangeTypes
  import opened MarketData
  import opened Markets
  import opened OrderBooks
  import opened SnapshotWriters

  /** A list of orders read as a map, the first of two orders with one id winning, as when a client loads it. */
  function AsQuotes(v: seq<Snap>): Quotes {
    if v == [] then map[]
    else
      var n := |v| - 1;
      ApplyQuote(AsQuotes(v[..n]), EntryOf(v[n]))
  }

  /** The message a stored order would be entered by. */
  function EntryOf(e: Snap): MdMsg {
    MdNew(e.id, e.symbol, e.side, e.quantity, e.price, e.flags)
  }

  function QuoteOf(e: Snap): Quote {
    Quote(e.side, e.price, e.quantity)
  }

  /** What a list of distinct orders reads as, one order more. */
  lemma AsQuotesPush(v: seq<Snap>, e: Snap)
    ensures AsQuotes(v + [e]) == if e.id in AsQuotes(v) then AsQuotes(v) else AsQuotes(v)[e.id := QuoteOf(e)]
  {
    assert (v + [e])[..|v|] == v;
  }

  lemma {:induction false} AsQuotesKeys(v: seq<Snap>)
    ensures forall x :: x in AsQuotes(v) ==> Holds(v, x)
  {
    if v != [] {
      var n := |v| - 1;
      var t := v[..n];
      assert v == t + [v[n]];
      AsQuotesKeys(t);
      AsQuotesPush(t, v[n]);
      hide AsQuotes;
      forall x | x in AsQuotes(v) ensures Holds(v, x) {
        if x != v[n].id {
          var i :| 0 <= i < n && t[i].id == x;
          assert v[i].id == x;
        }
      }
    }
  }

  lemma {:induction false} DistinctAsQuotes(v: seq<Snap>, i: nat)
    requires Distinct(v) && i < |v|
    ensures v[i].id in AsQuotes(v) && AsQuotes(v)[v[i].id] == QuoteOf(v[i])
  {
    var n := |v| - 1;
    var t := v[..n];
    assert v == t + [v[n]];
    AsQuotesPush(t, v[n]);
    AsQuotesKeys(t);
    hide AsQuotes;
    if i < n {
      DistinctAsQuotes(t, i);
      assert t[i] == v[i];
    } else {
      assert !Holds(t, v[n].id);
    }
  }

  lemma BothDistinct(b: seq<Snap>, a: seq<Snap>, symbol: uint32, q: Quotes)
    requires Lists(b, Buy, symbol, q) && Lists(a, Sell, symbol, q)
    ensures Distinct(b + a)
    ensures forall i :: 0 <= i < |b + a| ==> (b + a)[i].id in q && q[(b + a)[i].id] == QuoteOf((b + a)[i])
  {
    var v := b + a;
    forall i | 0 <= i < |v| ensures v[i].id in q && q[v[i].id] == QuoteOf(v[i]) && v[i].side == if i < |b| then Buy else Sell {
      if i < |b| { assert Right(b[i], Buy, symbol, q); } else { assert Right(a[i - |b|], Sell, symbol, q); }
    }
    forall i, j | 0 <= i < j < |v| ensures v[i].id != v[j].id {
      if j < |b| { assert b[i].id != b[j].id; }
      else if i >= |b| { assert a[i - |b|].id != a[j - |b|].id; }
    }
  }

  /** The two vectors of a symbol together hold every live order exactly once. */
  lemma BothSides(b: seq<Snap>, a: seq<Snap>, symbol: uint32, q: Quotes)
    requires Lists(b, Buy, symbol, q) && Lists(a, Sell, symbol, q)
    ensures Distinct(b + a) && AsQuotes(b + a) == q
  {
    hide Distinct, AsQuotes, Right;
    var v := b + a;
    BothDistinct(b, a, symbol, q);
    AsQuotesKeys(v);
    forall x | x in q ensures x in AsQuotes(v) && AsQuotes(v)[x] == q[x] {
      var i := Place(b, a, symbol, q, x);
      DistinctAsQuotes(v, i);
    }
    forall x | x in AsQuotes(v) ensures x in q {
      var i :| 0 <= i < |v| && v[i].id == x;
    }
  }

  lemma Place(b: seq<Snap>, a: seq<Snap>, symbol: uint32, q: Quotes, x: uint64) returns (i: nat)
    requires Lists(b, Buy, symbol, q) && Lists(a, Sell, symbol, q) && x in q
    ensures i < |b + a| && (b + a)[i].id == x
  {
    if q[x].side.Buy? {
      assert Holds(b, x);
      i :| i < |b| && b[i].id == x;
    } else {
      assert Holds(a, x);
      var k :| 0 <= k < |a| && a[k].id == x;
      i := |b| + k;
    }
  }

  /** The client's book of one symbol, given every message of the log about that symbol. */
  function Routed(g: Market, st: BookState, log: seq<MdMsg>, s: uint32): BookState
    decreases |log|
  {
    if log == [] then st
    else Routed(ApplyMarket(g, log[0]), if Subject(g, log[0]) == Some(s) then ApplyBook(st, log[0]) else st, log[1..], s)
  }

  lemma {:induction false} RoutedOrders(g: Market, st: BookState, log: seq<MdMsg>, s: uint32)
    requires AllFresh(g, log) && st.orders == Of(g, s)
    ensures Routed(g, st, log, s).orders == Of(Replay(g, log), s)
    decreases |log|
  {
    hide Of, ApplyMarket, ApplyBook, Subject, Fresh;
    if log != [] {
      ApplyOf(g, log[0], s);
      OrdersAreQuotes(st, log[0]);
      RoutedOrders(ApplyMarket(g, log[0]), if Subject(g, log[0]) == Some(s) then ApplyBook(st, log[0]) else st, log[1..], s);
    }
  }

  /**
   After any log with fresh ids the writer's vectors of every covered symbol, read as a map, are the order map
   of a client book fed the same log, and no id occurs twice across the two vectors.
   */
  lemma WriterIsReplica(writer: SnapshotWriter, log: seq<MdMsg>, s: uint32)
    requires writer.Valid() && AllFresh(map[], log) && writer.market == Replay(map[], log) && s in writer.bids
    ensures s in writer.asks && Distinct(writer.bids[s] + writer.asks[s])
    ensures AsQuotes(writer.bids[s] + writer.asks[s]) == Routed(map[], EMPTY_BOOK, log, s).orders
  {
    assert Of(map[], s) == map[];
    RoutedOrders(map[], EMPTY_BOOK, log, s);
    BothSides(writer.bids[s], writer.asks[s], s, Of(writer.market, s));
  }
}
