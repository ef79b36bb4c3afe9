/**
 The snapshot writer: bid and ask vectors of the covered symbols, kept from the market data log and
 sent out from time to time. Whatever the log, the vectors are the covered part of what it means.
 */
module SnapshotWriters {
  import opened ExchangeTypes
  import opened MarketData
  import opened Markets

  /** An order as the writer stores and sends it. */
  datatype Snap = Snap(id: uint64, symbol: uint32, side: Side, quantity: uint32, price: int, flags: uint8)

  datatype SnapMsg = Info(symbol: uint32, bids: nat, asks: nat, lastSeq: uint32) | SnapOrder(order: Snap)

  /** Bytes of a message on the wire. */
  function Size(m: SnapMsg): nat {
    if m.Info? then 39 else 45
  }

  function Bytes(ms: seq<SnapMsg>): nat {
    if ms == [] then 0 else Bytes(ms[..|ms| - 1]) + Size(ms[|ms| - 1])
  }

  function Msgs(ms: seq<Numbered>): seq<MdMsg> {
    seq(|ms|, i requires 0 <= i < |ms| => ms[i].msg)
  }

  /** The snapshot of one symbol: how many orders to expect at which point of the log, then the orders. */
  function SnapshotOf(symbol: uint32, b: seq<Snap>, a: seq<Snap>, lastSeq: uint32): seq<SnapMsg> {
    [Info(symbol, |b|, |a|, lastSeq)] + (Orders(b) + Orders(a))
  }

  function Orders(v: seq<Snap>): seq<SnapMsg> {
    seq(|v|, i requires 0 <= i < |v| => SnapOrder(v[i]))
  }

  /** Packets that fit the send buffer. */
  ghost predicate PacketsFit(ps: seq<seq<SnapMsg>>) {
    forall i :: 0 <= i < |ps| ==> ps[i] != [] && Bytes(ps[i]) <= PACKET_SIZE
  }

  // ----- a vector listing one side of one symbol -----

  ghost predicate Distinct(v: seq<Snap>) {
    forall i, j :: 0 <= i < j < |v| ==> v[i].id != v[j].id
  }

  predicate Right(e: Snap, side: Side, symbol: uint32, q: Quotes) {
    e.symbol == symbol && e.side == side && e.id in q && q[e.id] == Quote(side, e.price, e.quantity)
  }

  ghost predicate Holds(v: seq<Snap>, id: uint64) {
    exists i :: 0 <= i < |v| && v[i].id == id
  }

  /** The vector lists the orders of that side, each once. */
  ghost predicate Lists(v: seq<Snap>, side: Side, symbol: uint32, q: Quotes) {
    && Distinct(v)
    && (forall i :: 0 <= i < |v| ==> Right(v[i], side, symbol, q))
    && (forall x :: x in q && q[x].side == side ==> Holds(v, x))
  }

  lemma ListsPush(v: seq<Snap>, side: Side, symbol: uint32, q: Quotes, e: Snap)
    requires Lists(v, side, symbol, q) && e.side == side && e.symbol == symbol && (e.id in q ==> q[e.id].side != side)
    ensures Lists(v + [e], side, symbol, q[e.id := Quote(side, e.price, e.quantity)])
  {
    var w, q' := v + [e], q[e.id := Quote(side, e.price, e.quantity)];
    assert w[|v|] == e && forall i :: 0 <= i < |v| ==> w[i] == v[i];
    forall x | x in q' && q'[x].side == side ensures Holds(w, x) {
      if x != e.id {
        var i :| 0 <= i < |v| && v[i].id == x;
        assert w[i].id == x;
      }
    }
  }

  /** The other side does not notice an order that was not on it and is not now. */
  lemma ListsOther(v: seq<Snap>, side: Side, symbol: uint32, q: Quotes, id: uint64, quote: Quote)
    requires Lists(v, side, symbol, q) && quote.side != side && (id in q ==> q[id].side != side)
    ensures Lists(v, side, symbol, q[id := quote])
  {}

  lemma ListsGone(v: seq<Snap>, side: Side, symbol: uint32, q: Quotes, id: uint64)
    requires Lists(v, side, symbol, q) && (id in q ==> q[id].side != side)
    ensures Lists(v, side, symbol, q - {id})
  {}

  function EraseAt(v: seq<Snap>, k: nat): (w: seq<Snap>)
    requires k < |v|
    ensures |w| == |v| - 1
    ensures forall i {:trigger w[i]} :: 0 <= i < |w| ==> w[i] == if i < k then v[i] else v[i + 1]
  {
    v[..k] + v[k + 1..]
  }

  lemma ListsErase(v: seq<Snap>, side: Side, symbol: uint32, q: Quotes, k: nat)
    requires Lists(v, side, symbol, q) && k < |v|
    ensures Lists(EraseAt(v, k), side, symbol, q - {v[k].id})
  {
    var w := EraseAt(v, k);
    forall x | x in q - {v[k].id} && q[x].side == side ensures Holds(w, x) {
      var i :| 0 <= i < |v| && v[i].id == x;
      assert i != k;
      if i < k { assert w[i].id == x; } else { assert w[i - 1].id == x; }
    }
  }

  /** Erased here and present on the other side from now on. */
  lemma ListsMovedAway(v: seq<Snap>, side: Side, symbol: uint32, q: Quotes, k: nat, quote: Quote)
    requires Lists(v, side, symbol, q) && k < |v| && quote.side != side
    ensures Lists(EraseAt(v, k), side, symbol, q[v[k].id := quote])
  {
    var id := v[k].id;
    ListsErase(v, side, symbol, q, k);
    ListsOther(EraseAt(v, k), side, symbol, q - {id}, id, quote);
    assert (q - {id})[id := quote] == q[id := quote];
  }

  lemma ListsUpdate(v: seq<Snap>, side: Side, symbol: uint32, q: Quotes, k: nat, quantity: uint32, price: int, flags: uint8)
    requires Lists(v, side, symbol, q) && k < |v|
    ensures Lists(v[k := v[k].(quantity := quantity, price := price, flags := flags)], side, symbol, q[v[k].id := Quote(side, price, quantity)])
  {
    var id := v[k].id;
    var w, q' := v[k := v[k].(quantity := quantity, price := price, flags := flags)], q[id := Quote(side, price, quantity)];
    assert Right(v[k], side, symbol, q);
    forall x | x in q' && q'[x].side == side ensures Holds(w, x) {
      if x == id {
        assert w[k].id == id;
      } else {
        var i :| 0 <= i < |v| && v[i].id == x;
        assert w[i].id == x;
      }
    }
  }

  lemma HoldsIs(v: seq<Snap>, side: Side, symbol: uint32, q: Quotes, id: uint64)
    requires Lists(v, side, symbol, q)
    ensures Holds(v, id) <==> id in q && q[id].side == side
  {}

  /** Dropping every entry of this id: there is at most one. */
  method RemoveIf(v: seq<Snap>, id: uint64, side: Side, ghost symbol: uint32, ghost q: Quotes) returns (w: seq<Snap>)
    requires Lists(v, side, symbol, q)
    ensures Lists(w, side, symbol, q - {id})
  {
    w := [];
    ghost var k: int := |v|;
    var n := 0;
    while n < |v|
      invariant 0 <= n <= |v| && (k == |v| || 0 <= k < n)
      invariant forall i :: 0 <= i < n ==> (v[i].id == id <==> i == k)
      invariant |w| == if k == |v| then n else n - 1
      invariant forall i {:trigger w[i]} :: 0 <= i < |w| ==> w[i] == if i < k then v[i] else v[i + 1]
    {
      assert k < n ==> v[k].id != v[n].id;
      if v[n].id != id {
        w := w + [v[n]];
      } else {
        k := n;
      }
      n := n + 1;
    }
    HoldsIs(v, side, symbol, q, id);
    if k < |v| {
      assert w == EraseAt(v, k);
      ListsErase(v, side, symbol, q, k);
    } else {
      assert w == v;
      ListsGone(v, side, symbol, q, id);
    }
  }

  // ----- sorting -----

  /** In the order the side is sent: best price first. */
  predicate Before(side: Side, a: Snap, b: Snap) {
    if side.Buy? then a.price > b.price else a.price < b.price
  }

  ghost predicate InOrder(v: seq<Snap>, side: Side) {
    forall i, j :: 0 <= i < j < |v| ==> !Before(side, v[j], v[i])
  }

  lemma {:induction false} CountDistinct(v: seq<Snap>, e: Snap)
    requires Distinct(v)
    ensures multiset(v)[e] <= 1
  {
    if v != [] {
      var n := |v| - 1;
      assert v == v[..n] + [v[n]];
      CountDistinct(v[..n], e);
      assert v[n] !in v[..n];
    }
  }

  lemma CountTwice(v: seq<Snap>, i: nat, j: nat)
    requires i < j < |v| && v[i] == v[j]
    ensures multiset(v)[v[i]] >= 2
  {
    assert v == v[..j] + v[j..];
    assert v[..j][i] in v[..j] && v[j..][0] in v[j..];
    assert multiset(v) == multiset(v[..j]) + multiset(v[j..]);
  }

  /** A permutation of a listing is a listing. */
  lemma ListsPermuted(v: seq<Snap>, w: seq<Snap>, side: Side, symbol: uint32, q: Quotes)
    requires Lists(v, side, symbol, q) && multiset(w) == multiset(v)
    ensures Lists(w, side, symbol, q)
  {
    forall i | 0 <= i < |w| ensures w[i] in v {
      assert w[i] in multiset(w);
    }
    forall i, j | 0 <= i < j < |w| ensures w[i].id != w[j].id {
      if w[i].id == w[j].id {
        var a :| 0 <= a < |v| && v[a] == w[i];
        var b :| 0 <= b < |v| && v[b] == w[j];
        assert a == b;
        CountTwice(w, i, j);
        CountDistinct(v, w[i]);
      }
    }
    forall x | x in q && q[x].side == side ensures Holds(w, x) {
      var i :| 0 <= i < |v| && v[i].id == x;
      assert v[i] in multiset(v);
      assert v[i] in w;
      var k :| 0 <= k < |w| && w[k] == v[i];
      assert w[k].id == x;
    }
  }

  lemma InOrderInsert(w: seq<Snap>, k: nat, e: Snap, side: Side)
    requires k <= |w| && InOrder(w, side)
    requires forall i :: 0 <= i < k ==> !Before(side, e, w[i])
    requires k < |w| ==> Before(side, e, w[k])
    ensures InOrder(w[..k] + [e] + w[k..], side)
  {
    var r := w[..k] + [e] + w[k..];
    forall j | k <= j < |w| ensures !Before(side, w[j], e) {
      assert j > k ==> !Before(side, w[j], w[k]);
    }
    hide Before;
    forall i, j | 0 <= i < j < |r| ensures !Before(side, r[j], r[i]) {
      assert r[j] == if j < k then w[j] else if j == k then e else w[j - 1];
      assert r[i] == if i < k then w[i] else if i == k then e else w[i - 1];
    }
  }

  lemma InsertMultiset(w: seq<Snap>, k: nat, e: Snap)
    requires k <= |w|
    ensures multiset(w[..k] + [e] + w[k..]) == multiset(w) + multiset{e}
  {
    assert w == w[..k] + w[k..];
  }

  /** std::sort by price: some sorted permutation. */
  method SortByPrice(v: seq<Snap>, side: Side) returns (w: seq<Snap>)
    ensures multiset(w) == multiset(v) && InOrder(w, side)
  {
    hide InOrder, Before;
    w := [];
    var n := 0;
    assert InOrder([], side) by { Nothing(side); }
    while n < |v|
      invariant 0 <= n <= |v| && multiset(w) == multiset(v[..n]) && InOrder(w, side)
    {
      var k := 0;
      while k < |w| && !Before(side, v[n], w[k])
        invariant 0 <= k <= |w| && forall i :: 0 <= i < k ==> !Before(side, v[n], w[i])
      {
        k := k + 1;
      }
      InOrderInsert(w, k, v[n], side);
      InsertMultiset(w, k, v[n]);
      assert v[..n + 1] == v[..n] + [v[n]];
      w := w[..k] + [v[n]] + w[k..];
      n := n + 1;
    }
    assert v[..n] == v;
  }

  lemma Nothing(side: Side)
    ensures InOrder([], side)
  {}

  method FindIn(v: seq<Snap>, id: uint64) returns (k: nat)
    ensures k <= |v| && (k < |v| ==> v[k].id == id) && (k == |v| ==> !Holds(v, id))
  {
    k := 0;
    while k < |v| && v[k].id != id
      invariant 0 <= k <= |v| && forall i :: 0 <= i < k ==> v[i].id != id
    {
      k := k + 1;
    }
  }

  // ----- the vectors against the market -----

  type Vectors = map<uint32, seq<Snap>>

  /** The vectors of every covered symbol list its live orders; the index finds every one of them. */
  ghost predicate Mirrors(bids: Vectors, asks: Vectors, index: map<uint64, uint32>, g: Market) {
    && bids.Keys == asks.Keys
    && (forall s :: s in bids ==> Lists(bids[s], Buy, s, Of(g, s)) && Lists(asks[s], Sell, s, Of(g, s)))
    && (forall x :: x in index ==> index[x] in bids)
    && (forall x :: x in g && g[x].symbol in bids ==> x in index && index[x] == g[x].symbol)
  }

  function Entered(g: Market, e: Snap): Market {
    g[e.id := Live(e.symbol, Quote(e.side, e.price, e.quantity))]
  }

  lemma EnteredOf(g: Market, e: Snap, s: uint32)
    requires e.id !in g
    ensures Of(Entered(g, e), s) == if e.symbol == s then Of(g, s)[e.id := Quote(e.side, e.price, e.quantity)] else Of(g, s)
  {}

  lemma EnteredElsewhere(bids: Vectors, asks: Vectors, index: map<uint64, uint32>, g: Market, e: Snap)
    requires Mirrors(bids, asks, index, g) && e.id !in g && e.symbol !in bids
    ensures Mirrors(bids, asks, index, Entered(g, e))
  {
    hide Lists, Of;
    forall s | s in bids ensures Of(Entered(g, e), s) == Of(g, s) {
      EnteredOf(g, e, s);
    }
  }

  lemma EnteredMirrors(bids: Vectors, asks: Vectors, index: map<uint64, uint32>, g: Market, e: Snap)
    requires Mirrors(bids, asks, index, g) && e.id !in g && e.symbol in bids
    ensures e.side.Buy? ==> Mirrors(bids[e.symbol := bids[e.symbol] + [e]], asks, index[e.id := e.symbol], Entered(g, e))
    ensures e.side.Sell? ==> Mirrors(bids, asks[e.symbol := asks[e.symbol] + [e]], index[e.id := e.symbol], Entered(g, e))
  {
    hide Lists, Of;
    var quote, q := Quote(e.side, e.price, e.quantity), Of(g, e.symbol);
    assert e.id !in q by { OfKeys(g, e.symbol, e.id); }
    forall s | s in bids ensures Of(Entered(g, e), s) == if s == e.symbol then q[e.id := quote] else Of(g, s) {
      EnteredOf(g, e, s);
    }
    if e.side.Buy? {
      ListsPush(bids[e.symbol], Buy, e.symbol, q, e);
      ListsOther(asks[e.symbol], Sell, e.symbol, q, e.id, quote);
    } else {
      ListsPush(asks[e.symbol], Sell, e.symbol, q, e);
      ListsOther(bids[e.symbol], Buy, e.symbol, q, e.id, quote);
    }
  }

  lemma OfKeys(g: Market, s: uint32, x: uint64)
    ensures x in Of(g, s) <==> x in g && g[x].symbol == s
  {}

  /** A message about an existing order, seen from any one symbol. */
  lemma ChangedOf(g: Market, msg: MdMsg, s: uint32)
    requires HasId(msg) && !msg.MdNew?
    ensures Of(ApplyMarket(g, msg), s) == ApplyQuote(Of(g, s), msg)
    ensures msg.id !in Of(g, s) ==> Of(ApplyMarket(g, msg), s) == Of(g, s)
  {
    ApplyOf(g, msg, s);
    if msg.id !in Of(g, s) {
      Missing(Of(g, s), msg);
    }
  }

  lemma Missing(q: Quotes, msg: MdMsg)
    requires HasId(msg) && !msg.MdNew? && msg.id !in q
    ensures ApplyQuote(q, msg) == q
  {}

  lemma ChangedKeys(g: Market, msg: MdMsg)
    requires !msg.MdNew?
    ensures forall x :: x in ApplyMarket(g, msg) ==> x in g && ApplyMarket(g, msg)[x].symbol == g[x].symbol
    ensures msg.MdDelete? ==> msg.id !in ApplyMarket(g, msg)
  {}

  lemma ChangedElsewhere(bids: Vectors, asks: Vectors, index: map<uint64, uint32>, g: Market, msg: MdMsg)
    requires Mirrors(bids, asks, index, g) && HasId(msg) && !msg.MdNew? && msg.id !in index
    ensures Mirrors(bids, asks, index, ApplyMarket(g, msg))
  {
    hide Lists, Of, ApplyMarket;
    ChangedKeys(g, msg);
    forall s | s in bids ensures Of(ApplyMarket(g, msg), s) == Of(g, s) {
      OfKeys(g, s, msg.id);
      ChangedOf(g, msg, s);
    }
  }

  lemma ChangedMirrors(bids: Vectors, asks: Vectors, index: map<uint64, uint32>, g: Market, msg: MdMsg, b: seq<Snap>, a: seq<Snap>, index': map<uint64, uint32>)
    requires Mirrors(bids, asks, index, g) && HasId(msg) && !msg.MdNew? && msg.id in index
    requires index' == if msg.MdDelete? then index - {msg.id} else index
    requires var s := index[msg.id]; var q' := ApplyQuote(Of(g, s), msg); Lists(b, Buy, s, q') && Lists(a, Sell, s, q')
    ensures index[msg.id] in bids && Mirrors(bids[index[msg.id] := b], asks[index[msg.id] := a], index', ApplyMarket(g, msg))
  {
    hide Lists, Of, ApplyMarket, ApplyQuote;
    ChangedKeys(g, msg);
    forall s | s in bids ensures Of(ApplyMarket(g, msg), s) == if s == index[msg.id] then ApplyQuote(Of(g, s), msg) else Of(g, s) {
      OfKeys(g, s, msg.id);
      ChangedOf(g, msg, s);
    }
  }

  lemma PermutedMirrors(bids: Vectors, asks: Vectors, index: map<uint64, uint32>, g: Market, s: uint32, b: seq<Snap>, a: seq<Snap>)
    requires Mirrors(bids, asks, index, g) && s in bids && s in asks && multiset(b) == multiset(bids[s]) && multiset(a) == multiset(asks[s])
    ensures Mirrors(bids[s := b], asks[s := a], index, g)
  {
    hide Lists, Of;
    ListsPermuted(bids[s], b, Buy, s, Of(g, s));
    ListsPermuted(asks[s], a, Sell, s, Of(g, s));
  }

  /** The same vectors up to order, sorted except for the symbols in `rest`. */
  ghost predicate Resorted(before: Vectors, after: Vectors, rest: set<uint32>, side: Side) {
    before.Keys == after.Keys && forall s :: s in after ==> multiset(after[s]) == multiset(before[s]) && (s in rest || InOrder(after[s], side))
  }

  lemma NotSorted(v: Vectors, rest: set<uint32>, side: Side)
    requires rest == v.Keys
    ensures Resorted(v, v, rest, side)
  {}

  lemma MoreSorted(before: Vectors, after: Vectors, rest: set<uint32>, side: Side, s: uint32, w: seq<Snap>)
    requires Resorted(before, after, rest, side) && s in after && multiset(w) == multiset(after[s]) && InOrder(w, side)
    ensures Resorted(before, after[s := w], rest - {s}, side)
  {
    hide InOrder;
  }

  lemma QuietMirrors(bids: Vectors, asks: Vectors, index: map<uint64, uint32>, g: Market, msg: MdMsg)
    requires Mirrors(bids, asks, index, g) && !HasId(msg)
    ensures Mirrors(bids, asks, index, ApplyMarket(g, msg))
  {}

  // ----- the writer -----

  class SnapshotWriter {
    var queue: seq<Numbered>
    var bids: Vectors
    var asks: Vectors
    /** Every order entered in a covered symbol and not deleted since; traded-out orders stay. */
    var orderToSymbol: map<uint64, uint32>
    var lastSeq: uint32
    /** Messages waiting in the send buffer, how many bytes they are, and the packets sent. */
    var buffer: seq<SnapMsg>
    var bufferSize: nat
    var sent: seq<seq<SnapMsg>>
    /** What the log so far means for all symbols. */
    ghost var market: Market

    ghost predicate Valid()
      reads this`bids, this`asks, this`orderToSymbol, this`market
    {
      Mirrors(bids, asks, orderToSymbol, market)
    }

    /** The send buffer never outgrows a packet. */
    ghost predicate Buffered()
      reads this`buffer, this`bufferSize, this`sent
    {
      bufferSize == Bytes(buffer) <= PACKET_SIZE && PacketsFit(sent)
    }

    constructor (covered: set<uint32>)
      ensures Valid() && Buffered() && bids.Keys == covered && market == map[] && queue == [] && sent == [] && buffer == [] && lastSeq == 0
    {
      bids, asks := map s | s in covered :: [], map s | s in covered :: [];
      orderToSymbol, lastSeq, queue, buffer, bufferSize, sent := map[], 0, [], [], 0, [];
      market := map[];
    }

    /** One message of the queue. */
    method Take(m: Numbered)
      requires Valid() && Fresh(market, m.msg)
      modifies this`bids, this`asks, this`orderToSymbol, this`lastSeq, this`market
      ensures Valid() && market == ApplyMarket(old(market), m.msg) && lastSeq == m.seqNum && bids.Keys == old(bids.Keys)
    {
      hide Mirrors, ApplyMarket;
      EffectOf(market, m.msg);
      lastSeq := m.seqNum;
      match m.msg
      case MdNew(id, symbol, side, quantity, price, flags) => Enter(Snap(id, symbol, side, quantity, price, flags));
      case MdDelete(id) => Delete(id);
      case MdModify(id, side, quantity, price) => Modify(id, side, quantity, price);
      case MdTrade(id, quantity, price) => Trade(id, quantity, price);
      case MdSummary(_, _, _, _) => QuietMirrors(bids, asks, orderToSymbol, market, m.msg);
      case MdHeartbeat => QuietMirrors(bids, asks, orderToSymbol, market, m.msg);
    }

    lemma EffectOf(g: Market, msg: MdMsg)
      requires Fresh(g, msg)
      ensures msg.MdNew? ==> msg.id !in g
      ensures msg.MdNew? ==> ApplyMarket(g, msg) == Entered(g, Snap(msg.id, msg.symbol, msg.side, msg.quantity, msg.price, msg.flags))
      ensures !HasId(msg) ==> ApplyMarket(g, msg) == g
    {}

    method Enter(e: Snap)
      requires Valid() && e.id !in market
      modifies this`bids, this`asks, this`orderToSymbol, this`market
      ensures Valid() && bids.Keys == old(bids.Keys) && market == Entered(old(market), e)
    {
      hide Mirrors;
      ghost var was := market;
      market := Entered(market, e);
      if e.symbol !in bids {
        EnteredElsewhere(bids, asks, orderToSymbol, was, e);
        return;
      }
      EnteredMirrors(bids, asks, orderToSymbol, was, e);
      SameCovered(was, e.symbol);
      if e.side.Buy? {
        bids := bids[e.symbol := bids[e.symbol] + [e]];
      } else {
        asks := asks[e.symbol := asks[e.symbol] + [e]];
      }
      orderToSymbol := orderToSymbol[e.id := e.symbol];
    }

    lemma SameCovered(g: Market, symbol: uint32)
      requires Mirrors(bids, asks, orderToSymbol, g)
      ensures symbol in bids <==> symbol in asks
      ensures symbol in bids ==> Lists(bids[symbol], Buy, symbol, Of(g, symbol)) && Lists(asks[symbol], Sell, symbol, Of(g, symbol))
      ensures forall x :: x in orderToSymbol ==> orderToSymbol[x] in bids
    {}

    method Delete(id: uint64)
      requires Valid()
      modifies this`bids, this`asks, this`orderToSymbol, this`market
      ensures Valid() && bids.Keys == old(bids.Keys) && market == ApplyMarket(old(market), MdDelete(id))
    {
      hide Mirrors, ApplyMarket, Lists;
      ghost var was := market;
      market := ApplyMarket(market, MdDelete(id));
      if id !in orderToSymbol {
        ChangedElsewhere(bids, asks, orderToSymbol, was, MdDelete(id));
        return;
      }
      var symbol := orderToSymbol[id];
      SameCovered(was, symbol);
      var b := RemoveIf(bids[symbol], id, Buy, symbol, Of(was, symbol));
      var a := RemoveIf(asks[symbol], id, Sell, symbol, Of(was, symbol));
      ChangedMirrors(bids, asks, orderToSymbol, was, MdDelete(id), b, a, orderToSymbol - {id});
      bids, asks := bids[symbol := b], asks[symbol := a];
      orderToSymbol := orderToSymbol - {id};
    }

    /** Amend in place, or move to the back of the other side. */
    method Modify(id: uint64, side: Side, quantity: uint32, price: int)
      requires Valid()
      modifies this`bids, this`asks, this`market
      ensures Valid() && bids.Keys == old(bids.Keys) && market == ApplyMarket(old(market), MdModify(id, side, quantity, price))
    {
      hide Mirrors, ApplyMarket, Lists, Of;
      ghost var was, msg := market, MdModify(id, side, quantity, price);
      market := ApplyMarket(market, msg);
      if id !in orderToSymbol {
        ChangedElsewhere(bids, asks, orderToSymbol, was, msg);
        return;
      }
      var symbol := orderToSymbol[id];
      SameCovered(was, symbol);
      var b, a := ModifyIn(bids[symbol], asks[symbol], symbol, Of(was, symbol), id, side, quantity, price);
      ChangedMirrors(bids, asks, orderToSymbol, was, msg, b, a, orderToSymbol);
      bids, asks := bids[symbol := b], asks[symbol := a];
    }

    method Trade(id: uint64, quantity: uint32, price: int)
      requires Valid()
      modifies this`bids, this`asks, this`market
      ensures Valid() && bids.Keys == old(bids.Keys) && market == ApplyMarket(old(market), MdTrade(id, quantity, price))
    {
      hide Mirrors, ApplyMarket, Lists, Of;
      ghost var was, msg := market, MdTrade(id, quantity, price);
      market := ApplyMarket(market, msg);
      if id !in orderToSymbol {
        ChangedElsewhere(bids, asks, orderToSymbol, was, msg);
        return;
      }
      var symbol := orderToSymbol[id];
      SameCovered(was, symbol);
      var b, a := TradeIn(bids[symbol], asks[symbol], symbol, Of(was, symbol), id, quantity, price);
      ChangedMirrors(bids, asks, orderToSymbol, was, msg, b, a, orderToSymbol);
      bids, asks := bids[symbol := b], asks[symbol := a];
    }
  
    // ----- draining and sending -----

    /** Apply everything queued; the log owes its readers fresh ids. */
    method Drain()
      requires Valid() && AllFresh(market, Msgs(queue))
      modifies this`queue, this`bids, this`asks, this`orderToSymbol, this`lastSeq, this`market
      ensures Valid() && queue == [] && bids.Keys == old(bids.Keys)
      ensures market == Replay(old(market), Msgs(old(queue)))
      ensures lastSeq == if old(queue) == [] then old(lastSeq) else old(queue[|queue| - 1].seqNum)
    {
      hide SnapshotWriter.Valid, Fresh, ApplyMarket;
      ghost var all := queue;
      ghost var n := 0;
      assert Msgs([]) == [] && all[..0] == [];
      while queue != []
        invariant Valid() && 0 <= n <= |all| && queue == all[n..] && bids.Keys == old(bids.Keys)
        invariant AllFresh(market, Msgs(queue)) && market == Replay(old(market), Msgs(all[..n]))
        invariant lastSeq == if n == 0 then old(lastSeq) else all[n - 1].seqNum
        decreases |queue|
      {
        var m := queue[0];
        assert Msgs(queue)[0] == m.msg && Msgs(queue)[1..] == Msgs(queue[1..]);
        ghost var before := market;
        Take(m);
        assert Msgs(all[..n + 1]) == Msgs(all[..n]) + [m.msg];
        Markets.ReplayConcat(old(market), Msgs(all[..n]), [m.msg]);
        ReplayOne(before, m.msg);
        queue := queue[1..];
        n := n + 1;
      }
      assert all[..n] == all;
    }

    lemma ReplayOne(g: Market, msg: MdMsg)
      ensures Replay(g, [msg]) == ApplyMarket(g, msg)
    {
      assert [msg][1..] == [];
    }

    method Send()
      requires Buffered() && buffer != []
      modifies this`buffer, this`bufferSize, this`sent
      ensures Buffered() && buffer == [] && sent == old(sent) + [old(buffer)]
    {
      sent := sent + [buffer];
      buffer, bufferSize := [], 0;
    }

    /** Append to the send buffer, sending it first when the message would not fit. */
    method Write(m: SnapMsg)
      requires Buffered()
      modifies this`buffer, this`bufferSize, this`sent
      ensures Buffered() && buffer != [] && old(sent) <= sent
      ensures Flatten(sent) + buffer == Flatten(old(sent)) + old(buffer) + [m]
    {
      hide Flatten, Bytes, PacketsFit;
      ghost var was, packets := buffer, sent;
      BytesPush(buffer, m);
      BytesPush([], m);
      if bufferSize + Size(m) > PACKET_SIZE {
        assert was != [];
        Send();
        FlattenPush(packets, was);
      }
      buffer := buffer + [m];
      bufferSize := bufferSize + Size(m);
    }

    lemma BytesPush(ms: seq<SnapMsg>, m: SnapMsg)
      ensures Bytes(ms + [m]) == Bytes(ms) + Size(m) && Bytes([]) == 0
    {
      assert (ms + [m])[..|ms|] == ms;
    }

    method WriteOrders(v: seq<Snap>)
      requires Buffered() && buffer != []
      modifies this`buffer, this`bufferSize, this`sent
      ensures Buffered() && buffer != [] && old(sent) <= sent
      ensures Flatten(sent) + buffer == Flatten(old(sent)) + old(buffer) + Orders(v)
    {
      hide Flatten, Bytes;
      var n := 0;
      ghost var start := Flatten(sent) + buffer;
      while n < |v|
        invariant 0 <= n <= |v| && Buffered() && buffer != [] && old(sent) <= sent
        invariant Flatten(sent) + buffer == start + Orders(v[..n])
      {
        Write(SnapOrder(v[n]));
        assert Orders(v[..n + 1]) == Orders(v[..n]) + [SnapOrder(v[n])];
        n := n + 1;
      }
      assert v[..n] == v;
    }

    /** One symbol's snapshot, in packets of its own. */
    method SendSymbol(symbol: uint32)
      requires Buffered() && buffer == [] && symbol in bids && symbol in asks
      modifies this`buffer, this`bufferSize, this`sent
      ensures Buffered() && buffer == [] && old(sent) <= sent
      ensures Flatten(sent) == Flatten(old(sent)) + SnapshotOf(symbol, bids[symbol], asks[symbol], lastSeq)
    {
      hide Flatten, Bytes;
      Write(Info(symbol, |bids[symbol]|, |asks[symbol]|, lastSeq));
      WriteOrders(bids[symbol]);
      WriteOrders(asks[symbol]);
      ghost var out, last := sent, buffer;
      Send();
      FlattenPush(out, last);
    }

    /** Sort every vector; what it lists stays the same. */
    method SortAll()
      requires Valid()
      modifies this`bids, this`asks
      ensures Valid() && Resorted(old(bids), bids, {}, Buy) && Resorted(old(asks), asks, {}, Sell)
    {
      hide Mirrors, InOrder, Lists, Of, Resorted;
      SameKeys();
      var rest := bids.Keys;
      NotSorted(bids, rest, Buy);
      NotSorted(asks, rest, Sell);
      while rest != {}
        invariant rest <= bids.Keys && bids.Keys == asks.Keys && Valid()
        invariant Resorted(old(bids), bids, rest, Buy) && Resorted(old(asks), asks, rest, Sell)
        decreases |rest|
      {
        var s :| s in rest;
        var b := SortByPrice(bids[s], Buy);
        var a := SortByPrice(asks[s], Sell);
        PermutedMirrors(bids, asks, orderToSymbol, market, s, b, a);
        MoreSorted(old(bids), bids, rest, Buy, s, b);
        MoreSorted(old(asks), asks, rest, Sell, s, a);
        bids, asks := bids[s := b], asks[s := a];
        rest := rest - {s};
      }
    }

    /** The snapshots of the symbols walked so far, one after the other. */
    ghost function Snapshots(symbols: seq<uint32>): seq<SnapMsg>
      reads this`bids, this`asks, this`lastSeq
      requires forall s :: s in symbols ==> s in bids && s in asks
    {
      if symbols == [] then []
      else
        var n := |symbols| - 1;
        Snapshots(symbols[..n]) + SnapshotOf(symbols[n], bids[symbols[n]], asks[symbols[n]], lastSeq)
    }

    ghost predicate OnceEach(symbols: seq<uint32>) {
      forall i, j :: 0 <= i < j < |symbols| ==> symbols[i] != symbols[j]
    }

    lemma OncePush(symbols: seq<uint32>, s: uint32)
      requires OnceEach(symbols) && s !in symbols
      ensures OnceEach(symbols + [s])
    {}

    /** Every covered symbol once, in hash map order. */
    method SendAll() returns (ghost symbols: seq<uint32>)
      requires Buffered() && buffer == [] && bids.Keys == asks.Keys
      modifies this`buffer, this`bufferSize, this`sent
      ensures Buffered() && buffer == [] && old(sent) <= sent
      ensures (forall s :: s in symbols <==> s in bids) && OnceEach(symbols)
      ensures Flatten(sent) == Flatten(old(sent)) + Snapshots(symbols)
    {
      hide Flatten, PacketsFit, Bytes, SnapshotWriter.Buffered;
      symbols := [];
      var rest := bids.Keys;
      ghost var start := Flatten(sent);
      assert start + [] == start;
      while rest != {}
        invariant rest <= bids.Keys && Buffered() && buffer == [] && old(sent) <= sent
        invariant forall s :: s in symbols <==> s in bids.Keys - rest
        invariant OnceEach(symbols)
        invariant Flatten(sent) == start + Snapshots(symbols)
        decreases |rest|
      {
        var s :| s in rest;
        SendSymbol(s);
        OncePush(symbols, s);
        assert (symbols + [s])[..|symbols|] == symbols;
        symbols := symbols + [s];
        rest := rest - {s};
      }
    }

    /** Drain the queue; when a snapshot is due, sort and send. */
    method Process(due: bool) returns (ghost symbols: seq<uint32>)
      requires Valid() && Buffered() && buffer == [] && AllFresh(market, Msgs(queue))
      modifies this
      ensures Valid() && Buffered() && buffer == [] && queue == [] && bids.Keys == asks.Keys == old(bids.Keys)
      ensures market == Replay(old(market), Msgs(old(queue)))
      ensures lastSeq == if old(queue) == [] then old(lastSeq) else old(queue[|queue| - 1].seqNum)
      ensures !due ==> sent == old(sent)
      ensures due ==>
        && (forall s :: s in symbols <==> s in bids) && OnceEach(symbols)
        && (forall s, i, j :: s in bids && 0 <= i < j < |bids[s]| ==> bids[s][i].price >= bids[s][j].price)
        && (forall s, i, j :: s in asks && 0 <= i < j < |asks[s]| ==> asks[s][i].price <= asks[s][j].price)
        && Flatten(sent) == Flatten(old(sent)) + Snapshots(symbols)
    {
      hide Flatten, Mirrors, InOrder, PacketsFit, Bytes, SnapshotWriter.Buffered, AllFresh, Replay, Msgs;
      symbols := [];
      Drain();
      SameKeys();
      if due {
        SortAll();
        SortedPrices();
        symbols := SendAll();
      }
    }

    lemma SortedPrices()
      requires bids.Keys == asks.Keys && forall s :: s in bids ==> InOrder(bids[s], Buy) && InOrder(asks[s], Sell)
      ensures forall s, i, j :: s in bids && 0 <= i < j < |bids[s]| ==> bids[s][i].price >= bids[s][j].price
      ensures forall s, i, j :: s in asks && 0 <= i < j < |asks[s]| ==> asks[s][i].price <= asks[s][j].price
    {
      forall s, i, j | s in bids && 0 <= i < j < |bids[s]| ensures bids[s][i].price >= bids[s][j].price {
        assert !Before(Buy, bids[s][j], bids[s][i]);
      }
      forall s, i, j | s in asks && 0 <= i < j < |asks[s]| ensures asks[s][i].price <= asks[s][j].price {
        assert !Before(Sell, asks[s][j], asks[s][i]);
      }
    }

    lemma SameKeys()
      requires Valid()
      ensures bids.Keys == asks.Keys
    {}
  }

  method ModifyIn(bids: seq<Snap>, asks: seq<Snap>, symbol: uint32, ghost q: Quotes, id: uint64, side: Side, quantity: uint32, price: int)
    returns (b: seq<Snap>, a: seq<Snap>)
    requires Lists(bids, Buy, symbol, q) && Lists(asks, Sell, symbol, q)
    ensures var q' := ApplyQuote(q, MdModify(id, side, quantity, price)); Lists(b, Buy, symbol, q') && Lists(a, Sell, symbol, q')
  {
    hide Lists, Holds;
    b, a := bids, asks;
    HoldsIs(bids, Buy, symbol, q, id);
    HoldsIs(asks, Sell, symbol, q, id);
    var e, quote := Snap(id, symbol, side, quantity, price, 0), Quote(side, price, quantity);
    var k := FindIn(bids, id);
    if k < |bids| {
      HoldsAt(bids, k);
      if side.Buy? {
        ListsUpdate(bids, Buy, symbol, q, k, quantity, price, 0);
        ListsOther(asks, Sell, symbol, q, id, quote);
        b := bids[k := bids[k].(quantity := quantity, price := price, flags := 0)];
      } else {
        ListsMovedAway(bids, Buy, symbol, q, k, quote);
        ListsPush(asks, Sell, symbol, q, e);
        b, a := EraseAt(bids, k), asks + [e];
      }
      return;
    }
    k := FindIn(asks, id);
    if k < |asks| {
      HoldsAt(asks, k);
      if side.Sell? {
        ListsUpdate(asks, Sell, symbol, q, k, quantity, price, 0);
        ListsOther(bids, Buy, symbol, q, id, quote);
        a := asks[k := asks[k].(quantity := quantity, price := price, flags := 0)];
      } else {
        ListsMovedAway(asks, Sell, symbol, q, k, quote);
        ListsPush(bids, Buy, symbol, q, e);
        a, b := EraseAt(asks, k), bids + [e];
      }
    }
  }

  lemma HoldsAt(v: seq<Snap>, k: nat)
    requires k < |v|
    ensures Holds(v, v[k].id)
  {}

  lemma ListsQuote(v: seq<Snap>, side: Side, symbol: uint32, q: Quotes, k: nat)
    requires Lists(v, side, symbol, q) && k < |v|
    ensures Right(v[k], side, symbol, q)
  {}

  method TradeIn(bids: seq<Snap>, asks: seq<Snap>, symbol: uint32, ghost q: Quotes, id: uint64, quantity: uint32, price: int)
    returns (b: seq<Snap>, a: seq<Snap>)
    requires Lists(bids, Buy, symbol, q) && Lists(asks, Sell, symbol, q)
    ensures var q' := ApplyQuote(q, MdTrade(id, quantity, price)); Lists(b, Buy, symbol, q') && Lists(a, Sell, symbol, q')
  {
    hide Lists, Holds;
    b, a := bids, asks;
    HoldsIs(bids, Buy, symbol, q, id);
    HoldsIs(asks, Sell, symbol, q, id);
    var k := FindIn(bids, id);
    if k < |bids| {
      b := Reduce(bids, asks, Buy, symbol, q, k, quantity, price);
      return;
    }
    k := FindIn(asks, id);
    if k < |asks| {
      a := Reduce(asks, bids, Sell, symbol, q, k, quantity, price);
    }
  }

  /** A trade against the order at `k`; too large a trade is refused, an order traded out is erased. */
  method Reduce(v: seq<Snap>, ghost other: seq<Snap>, side: Side, symbol: uint32, ghost q: Quotes, k: nat, quantity: uint32, ghost price: int)
    returns (w: seq<Snap>)
    requires Lists(v, side, symbol, q) && Lists(other, Opposite(side), symbol, q) && k < |v|
    ensures var q' := ApplyQuote(q, MdTrade(v[k].id, quantity, price)); Lists(w, side, symbol, q') && Lists(other, Opposite(side), symbol, q')
  {
    hide Lists;
    w := v;
    ListsQuote(v, side, symbol, q, k);
    if v[k].quantity < quantity {
      return;
    }
    if v[k].quantity - quantity == 0 {
      ListsErase(v, side, symbol, q, k);
      ListsGone(other, Opposite(side), symbol, q, v[k].id);
      w := EraseAt(v, k);
    } else {
      ListsUpdate(v, side, symbol, q, k, v[k].quantity - quantity, v[k].price, v[k].flags);
      ListsOther(other, Opposite(side), symbol, q, v[k].id, Quote(side, v[k].price, v[k].quantity - quantity));
      w := v[k := v[k].(quantity := v[k].quantity - quantity)];
      assert w == v[k := v[k].(quantity := v[k].quantity - quantity, price := v[k].price, flags := v[k].flags)];
    }
  }
}
