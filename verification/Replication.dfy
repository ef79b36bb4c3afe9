/**
 The replica follows the ladder: although new, modify and delete messages overtake the trades that
 preceded them, replaying what one request published gives exactly the orders that rest after it.
 */
module Replication {
  import opened ExchangeTypes
  import opened BookSpec
  import opened BookOrder
  import opened MatchTheorems
  import opened BookTheorems
  import opened MarketData

  function QuoteOf(o: Order): Quote {
    Quote(o.side, o.price, o.quantity)
  }

  function QuotesOf(os: seq<Order>): Quotes {
    if os == [] then map[] else QuotesOf(os[1..])[os[0].id := QuoteOf(os[0])]
  }

  /** The orders of a ladder as a replica should see them. */
  function View(b: Book): Quotes {
    QuotesOf(b.bids) + QuotesOf(b.asks)
  }

  lemma {:induction false} QuotesOfExact(os: seq<Order>)
    requires UniqueIds(os)
    ensures QuotesOf(os).Keys == Ids(os)
    ensures forall i :: 0 <= i < |os| ==> os[i].id in QuotesOf(os) && QuotesOf(os)[os[i].id] == QuoteOf(os[i])
  {
    if os != [] {
      Tail(os, Buy);
      QuotesOfExact(os[1..]);
      IdsTail(os);
      forall i | 0 <= i < |os| ensures os[i].id in QuotesOf(os) && QuotesOf(os)[os[i].id] == QuoteOf(os[i]) {
        if i > 0 {
          assert os[1..][i - 1] == os[i];
        }
      }
    }
  }

  /** A map that agrees with a queue on the ids of that queue. */
  ghost predicate Shows(m: Quotes, os: seq<Order>) {
    forall i :: 0 <= i < |os| ==> os[i].id in m && m[os[i].id] == QuoteOf(os[i])
  }

  lemma ShowsExact(m: Quotes, os: seq<Order>)
    requires UniqueIds(os) && Shows(m, os)
    ensures m == (m - Ids(os)) + QuotesOf(os)
  {
    QuotesOfExact(os);
    var r := (m - Ids(os)) + QuotesOf(os);
    assert r.Keys == m.Keys;
    forall x | x in m ensures r[x] == m[x] {
      if x in Ids(os) {
        var i :| 0 <= i < |os| && os[i].id == x;
      }
    }
  }

  lemma {:induction false} QueuedConcat(a: seq<Event>, b: seq<Event>)
    ensures QueuedTrades(a + b) == QueuedTrades(a) + QueuedTrades(b)
  {
    if a == [] {
      assert a + b == b;
    } else {
      assert (a + b)[1..] == a[1..] + b;
      QueuedConcat(a[1..], b);
    }
  }

  lemma {:induction false} ImmediateConcat(symbol: uint32, a: seq<Event>, b: seq<Event>)
    ensures Immediate(symbol, a + b) == Immediate(symbol, a) + Immediate(symbol, b)
  {
    if a == [] {
      assert a + b == b;
    } else {
      assert (a + b)[1..] == a[1..] + b;
      ImmediateConcat(symbol, a[1..], b);
    }
  }

  lemma QueuedOfFill(id: uint64, side: Side, o: Order, q: uint32, c: bool, d: bool)
    ensures QueuedTrades(FillEvents(id, side, o, q, c, d)) == [MdTrade(o.id, q, o.price)]
  {
    var f := FillEvents(id, side, o, q, c, d);
    assert f == [f[0]] + ([f[1]] + [f[2]]);
    QueuedConcat([f[0]], [f[1]] + [f[2]]);
    QueuedConcat([f[1]], [f[2]]);
  }

  lemma ImmediateOfFill(symbol: uint32, id: uint64, side: Side, o: Order, q: uint32, c: bool, d: bool)
    ensures Immediate(symbol, FillEvents(id, side, o, q, c, d)) == []
  {
    var f := FillEvents(id, side, o, q, c, d);
    assert f == [f[0]] + ([f[1]] + [f[2]]);
    ImmediateConcat(symbol, [f[0]], [f[1]] + [f[2]]);
    ImmediateConcat(symbol, [f[1]], [f[2]]);
  }

  lemma ReplayOne(m: Quotes, msg: MdMsg, more: seq<MdMsg>)
    ensures ReplayQuotes(m, [msg] + more) == ReplayQuotes(ApplyQuote(m, msg), more)
  {
    assert ([msg] + more)[1..] == more;
  }

  /** A resting order traded out publishes one trade that takes it from any map that shows it. */
  lemma TradedOutReplay(id: uint64, side: Side, quantity: uint32, limit: int, os: seq<Order>, m: Quotes)
    requires 0 < quantity && os != [] && Crosses(side, limit, os[0].price) && os[0].quantity <= quantity
    requires os[0].id in m && m[os[0].id] == QuoteOf(os[0])
    ensures ReplayQuotes(m, QueuedTrades(Match(id, side, quantity, limit, os).events))
      == ReplayQuotes(m - {os[0].id}, QueuedTrades(Match(id, side, quantity - os[0].quantity, limit, os[1..]).events))
  {
    hide Crosses, FillEvents, QueuedTrades;
    var o := os[0];
    var left := quantity - o.quantity;
    var rest := Match(id, side, left, limit, os[1..]);
    QueuedOfFill(id, side, o, o.quantity, true, left == 0);
    QueuedConcat(FillEvents(id, side, o, o.quantity, true, left == 0), rest.events);
    ReplayOne(m, MdTrade(o.id, o.quantity, o.price), QueuedTrades(rest.events));
  }

  lemma FirstReplayed(id: uint64, side: Side, quantity: uint32, limit: int, os: seq<Order>, m: Quotes)
    requires UniqueIds(os) && os != [] && os[0].id in m && m[os[0].id] == QuoteOf(os[0])
    requires 0 < quantity && Crosses(side, limit, os[0].price) && os[0].quantity <= quantity
    requires var r := Match(id, side, quantity - os[0].quantity, limit, os[1..]);
      ReplayQuotes(m - {os[0].id}, QueuedTrades(r.events)) == ((m - {os[0].id}) - Ids(os[1..])) + QuotesOf(r.resting)
    ensures var r := Match(id, side, quantity, limit, os);
      ReplayQuotes(m, QueuedTrades(r.events)) == (m - Ids(os)) + QuotesOf(r.resting)
  {
    hide *;
    var x := os[0].id;
    IdsTail(os);
    ConsumedFirst(id, side, quantity, limit, os, x);
    TradedOutReplay(id, side, quantity, limit, os, m);
    assert (m - {x}) - Ids(os[1..]) == m - Ids(os);
  }

  /** The trades of a match, applied to any map that shows the queue, take it to the queue left over. */
  lemma {:induction false} TradesReplay(id: uint64, side: Side, quantity: uint32, limit: int, os: seq<Order>, m: Quotes)
    requires UniqueIds(os) && Shows(m, os)
    ensures var r := Match(id, side, quantity, limit, os);
      ReplayQuotes(m, QueuedTrades(r.events)) == (m - Ids(os)) + QuotesOf(r.resting)
    decreases |os|
  {
    hide UniqueIds, Ids, Crosses, FillEvents;
    if quantity == 0 || os == [] || !Crosses(side, limit, os[0].price) {
      ShowsExact(m, os);
    } else if os[0].quantity <= quantity {
      var x := os[0].id;
      Tail(os, side);
      ShowsTail(m, os);
      TradesReplay(id, side, quantity - os[0].quantity, limit, os[1..], m - {x});
      FirstReplayed(id, side, quantity, limit, os, m);
    } else {
      PartialReplay(id, side, quantity, os, m);
    }
  }

  lemma ShowsTail(m: Quotes, os: seq<Order>)
    requires UniqueIds(os) && Shows(m, os) && os != []
    ensures Shows(m - {os[0].id}, os[1..])
  {
    var r := os[1..];
    assert forall i {:trigger r[i]} :: 0 <= i < |r| ==> r[i] == os[i + 1];
  }

  lemma PartialReplay(id: uint64, side: Side, quantity: uint32, os: seq<Order>, m: Quotes)
    requires UniqueIds(os) && Shows(m, os) && os != [] && quantity < os[0].quantity
    ensures ReplayQuotes(m, QueuedTrades(FillEvents(id, side, os[0], quantity, false, true)))
      == (m - Ids(os)) + QuotesOf([PartlyFilled(os[0], quantity)] + os[1..])
  {
    var o := os[0];
    var os' := [PartlyFilled(o, quantity)] + os[1..];
    QueuedOfFill(id, side, o, quantity, false, true);
    ReplayOne(m, MdTrade(o.id, quantity, o.price), []);
    var m' := ApplyQuote(m, MdTrade(o.id, quantity, o.price));
    FillPreserves(os, quantity, side);
    forall i | 0 <= i < |os'| ensures os'[i].id in m' && m'[os'[i].id] == QuoteOf(os'[i]) {
      if i > 0 {
        assert os'[i] == os[i];
      }
    }
    ShowsExact(m', os');
    assert m' - Ids(os') == m - Ids(os);
  }

  // ----- views of whole books -----

  lemma ViewExact(b: Book)
    requires WellFormed(b)
    ensures View(b).Keys == BookIds(b)
    ensures Shows(View(b), b.bids) && Shows(View(b), b.asks)
    ensures forall x :: InBook(b, x) ==> x in View(b) && View(b)[x] == QuoteOf(Find(b, x))
    ensures forall x :: InBook(b, x) <==> x in View(b)
  {
    hide Prioritised, NoIoc, Keys, BookTheorems.Apart, QuotesOf, IndexOf;
    WellFormedIsUncrossed(b);
    QuotesOfExact(b.bids);
    QuotesOfExact(b.asks);
    forall i | 0 <= i < |b.bids| ensures b.bids[i].id in View(b) && View(b)[b.bids[i].id] == QuoteOf(b.bids[i]) {
      assert b.bids[i].id in Ids(b.bids);
    }
    forall x ensures InBook(b, x) <==> x in View(b) {
      HasIsIds(b.bids, x);
      HasIsIds(b.asks, x);
    }
  }

  /** A view is the only map with the right keys that shows both sides. */
  lemma ViewUnique(b: Book, m: Quotes)
    requires WellFormed(b) && m.Keys == BookIds(b) && Shows(m, b.bids) && Shows(m, b.asks)
    ensures m == View(b)
  {
    hide GoodSide, Keys, BookTheorems.Apart, QuotesOf, View;
    ViewExact(b);
    forall x | x in m ensures m[x] == View(b)[x] {
      if x in Ids(b.bids) {
        var i :| 0 <= i < |b.bids| && b.bids[i].id == x;
      } else {
        var i :| 0 <= i < |b.asks| && b.asks[i].id == x;
      }
    }
  }

  lemma ViewWithout(b: Book, id: uint64)
    requires WellFormed(b) && InBook(b, id)
    ensures View(RemoveFromBook(b, id)) == View(b) - {id}
  {
    hide GoodSide, Keys, BookTheorems.Apart, Remove, QuotesOf, View, Ids, UniqueIds;
    var b' := RemoveFromBook(b, id);
    RemovedIds(b, id);
    RemoveFromBookKeeps(b, id);
    ViewExact(b);
    RemovePreserves(b.bids, id, Buy);
    RemovePreserves(b.asks, id, Sell);
    var m := View(b) - {id};
    forall o | o in b'.bids ensures o in b.bids && o.id != id {
      NotHas(b'.bids, id, o);
    }
    forall o | o in b'.asks ensures o in b.asks && o.id != id {
      NotHas(b'.asks, id, o);
    }
    ShowsRest(View(b), b.bids, m, b'.bids);
    ShowsRest(View(b), b.asks, m, b'.asks);
    ViewUnique(b', m);
  }

  lemma NotHas(os: seq<Order>, id: uint64, o: Order)
    requires !Has(os, id) && o in os
    ensures o.id != id
  {}

  lemma ShowsRest(m: Quotes, os: seq<Order>, m': Quotes, r: seq<Order>)
    requires Shows(m, os)
    requires forall o :: o in r ==> o in os && (o.id in m ==> o.id in m' && m'[o.id] == m[o.id])
    ensures Shows(m', r)
  {
    forall i | 0 <= i < |r| ensures r[i].id in m' && m'[r[i].id] == QuoteOf(r[i]) {
      assert r[i] in r;
      var j :| 0 <= j < |os| && os[j] == r[i];
    }
  }

  lemma ViewRequantified(b: Book, id: uint64, quantity: uint32)
    requires WellFormed(b) && InBook(b, id) && quantity > 0
    ensures id in View(b)
    ensures View(RequantifyInBook(b, id, quantity)) == View(b)[id := View(b)[id].(quantity := quantity)]
  {
    hide Keys, BookTheorems.Apart, QuotesOf, View, Prioritised, NoIoc;
    var b' := RequantifyInBook(b, id, quantity);
    RequantifyInBookKeeps(b, id, quantity);
    RequantifiedIds(b, id, quantity);
    WellFormedIsUncrossed(b);
    ViewExact(b);
    var m := View(b)[id := View(b)[id].(quantity := quantity)];
    HasIsIds(b.bids, id);
    HasIsIds(b.asks, id);
    RequantifyShows(View(b), b.bids, id, quantity);
    RequantifyShows(View(b), b.asks, id, quantity);
    ViewUnique(b', m);
  }

  lemma RequantifyShows(m: Quotes, os: seq<Order>, id: uint64, quantity: uint32)
    requires Shows(m, os) && UniqueIds(os) && id in m
    ensures Shows(m[id := m[id].(quantity := quantity)], Requantify(os, id, quantity))
  {
    var r := Requantify(os, id, quantity);
    forall i | 0 <= i < |r|
      ensures r[i].id in m && m[id := m[id].(quantity := quantity)][r[i].id] == QuoteOf(r[i])
    {
      if os[i].id == id {
        IndexIsUnique(os, i);
      }
    }
  }

  // ----- one request -----

  lemma {:induction false} ImmediateOfMatch(symbol: uint32, id: uint64, side: Side, quantity: uint32, limit: int, os: seq<Order>)
    ensures Immediate(symbol, Match(id, side, quantity, limit, os).events) == []
    decreases |os|
  {
    if quantity == 0 || os == [] || !Crosses(side, limit, os[0].price) {
    } else if os[0].quantity <= quantity {
      var o, left := os[0], quantity - os[0].quantity;
      ImmediateOfMatch(symbol, id, side, left, limit, os[1..]);
      ImmediateOfFill(symbol, id, side, o, o.quantity, true, left == 0);
      ImmediateConcat(symbol, FillEvents(id, side, o, o.quantity, true, left == 0), Match(id, side, left, limit, os[1..]).events);
    } else {
      ImmediateOfFill(symbol, id, side, os[0], quantity, false, true);
    }
  }

  /** A summary changes nothing, so a request's trades replay as if it were not there. */
  lemma SummaryIgnored(m: Quotes, symbol: uint32, aggressor: Side, trades: seq<MdMsg>)
    requires forall i :: 0 <= i < |trades| ==> trades[i].MdTrade?
    ensures ReplayQuotes(m, WithSummary(symbol, aggressor, trades)) == ReplayQuotes(m, trades)
  {
    if trades != [] {
      ReplayOne(m, WithSummary(symbol, aggressor, trades)[0], trades);
    }
  }

  /** What a new or re-priced order leaves behind, seen before its trades. */
  function Entered(b: Book, id: uint64, side: Side, price: int, flags: uint8, left: uint32): Quotes {
    if left > 0 && !IsIoc(flags) then View(b)[id := Quote(side, price, left)] else View(b)
  }

  lemma ShowsOther(m: Quotes, os: seq<Order>, id: uint64, q: Quote)
    requires Shows(m, os) && !Has(os, id)
    ensures Shows(m[id := q], os)
  {}

  /** Replacing the orders of one side leaves the other side as shown. */
  lemma ShowsBeside(m: Quotes, mine: seq<Order>, opp: seq<Order>, rest: seq<Order>)
    requires Shows(m, mine) && Ids(mine) !! Ids(opp) && Ids(rest) <= Ids(opp) && UniqueIds(rest)
    ensures var end := (m - Ids(opp)) + QuotesOf(rest);
      Shows(end, mine) && Shows(end, rest) && end.Keys == m.Keys - Ids(opp) + Ids(rest)
  {
    QuotesOfExact(rest);
    forall i | 0 <= i < |mine| ensures mine[i].id in Ids(mine) {}
    forall i | 0 <= i < |rest| ensures rest[i].id in Ids(rest) {}
  }

  lemma InsertShown(m: Quotes, os: seq<Order>, o: Order)
    requires Shows(m, os) && o.id in m && m[o.id] == QuoteOf(o)
    ensures Shows(m, Insert(os, o))
  {
    InsertMembers(os, o);
    var r := Insert(os, o);
    forall i | 0 <= i < |r| ensures r[i].id in m && m[r[i].id] == QuoteOf(r[i]) {
      assert r[i] in r;
      if r[i] in os {
        var j :| 0 <= j < |os| && os[j] == r[i];
      }
    }
  }

  lemma Sides(b: Book, side: Side)
    requires WellFormed(b)
    ensures UniqueIds(SideOf(b, side)) && Prioritised(SideOf(b, side), side) && GoodSide(SideOf(b, side), side)
    ensures Ids(SideOf(b, side)) !! Ids(SideOf(b, Opposite(side)))
    ensures BookIds(b) == Ids(SideOf(b, side)) + Ids(SideOf(b, Opposite(side)))
  {
    WellFormedIsUncrossed(b);
  }

  lemma GoodUnique(os: seq<Order>, side: Side)
    requires GoodSide(os, side)
    ensures UniqueIds(os) && Prioritised(os, side)
  {}

  /** The book between matching and resting. */
  lemma MatchView(b: Book, id: uint64, side: Side, quantity: uint32, limit: int)
    requires WellFormed(b)
    ensures var opp := SideOf(b, Opposite(side));
      var m := Match(id, side, quantity, limit, opp);
      var b1 := WithSide(b, Opposite(side), m.resting);
      && WellFormed(b1) && Ids(m.resting) <= Ids(opp)
      && View(b1) == (View(b) - Ids(opp)) + QuotesOf(m.resting)
  {
    hide GoodSide, Keys, QuotesOf, View, Ids, UniqueIds, Prioritised, Match, Shows;
    var opp, mine := SideOf(b, Opposite(side)), SideOf(b, side);
    var m := Match(id, side, quantity, limit, opp);
    var b1 := WithSide(b, Opposite(side), m.resting);
    Sides(b, side);
    Sides(b, Opposite(side));
    MatchKeeps(id, side, quantity, limit, opp);
    ApartShrinks(Keys(b.bids), Keys(b.asks), Keys(b1.bids), Keys(b1.asks));
    GoodUnique(m.resting, Opposite(side));
    MatchCloses(id, side, quantity, limit, opp);
    ViewExact(b);
    ShowsBeside(View(b), mine, opp, m.resting);
    ViewUnique(b1, (View(b) - Ids(opp)) + QuotesOf(m.resting));
  }

  lemma InsertView(b: Book, o: Order)
    requires WellFormed(b) && !InBook(b, o.id)
    requires WellFormed(WithSide(b, o.side, Insert(SideOf(b, o.side), o)))
    ensures View(WithSide(b, o.side, Insert(SideOf(b, o.side), o))) == View(b)[o.id := QuoteOf(o)]
  {
    hide WellFormed, QuotesOf, View, Ids, UniqueIds, Prioritised, Shows, Insert;
    var b' := WithSide(b, o.side, Insert(SideOf(b, o.side), o));
    var m := View(b)[o.id := QuoteOf(o)];
    ViewExact(b);
    ShowsOther(View(b), b.bids, o.id, QuoteOf(o));
    ShowsOther(View(b), b.asks, o.id, QuoteOf(o));
    InsertShown(m, SideOf(b, o.side), o);
    InsertIds(SideOf(b, o.side), o);
    ViewUnique(b', m);
  }

  lemma InsertIds(os: seq<Order>, o: Order)
    ensures Ids(Insert(os, o)) == Ids(os) + {o.id}
  {
    InsertMembers(os, o);
    var r := Insert(os, o);
    forall x | x in Ids(os) + {o.id} ensures x in Ids(r) {
      var y := if x == o.id then o else os[IndexOf(os, x)];
      HasIsIds(os, x);
      assert y in r;
    }
    forall x | x in Ids(r) ensures x in Ids(os) + {o.id} {
      var i :| 0 <= i < |r| && r[i].id == x;
      assert r[i] in r;
    }
  }

  /** An update of one key and a replacement of others commute. */
  lemma UpdateBeside(m: Quotes, ids: set<uint64>, rest: Quotes, id: uint64, q: Quote)
    requires rest.Keys <= ids && id !in ids
    ensures (m[id := q] - ids) + rest == ((m - ids) + rest)[id := q]
  {}

  /** Seen with the new order already in place, the trades of its match lead to the book it leaves. */
  lemma EntryReplay(b: Book, id: uint64, side: Side, quantity: uint32, price: int, flags: uint8, notify: bool, filled: uint32)
    requires WellFormed(b) && !InBook(b, id) && quantity > filled && (notify || !IsIoc(flags))
    ensures var r := HandleNewOrder(b, id, side, quantity, price, flags, notify, filled);
      var m := Match(id, side, quantity - filled, price, SideOf(b, Opposite(side)));
      ReplayQuotes(Entered(b, id, side, price, flags, r.left), QueuedTrades(m.events)) == View(r.book)
  {
    hide WellFormed, QuotesOf, View, Ids, UniqueIds, Prioritised, Match, Insert, IsIoc, Shows, BookIds, InBook, GoodSide;
    var opp := SideOf(b, Opposite(side));
    var q := quantity - filled;
    var m := Match(id, side, q, price, opp);
    var start := Entered(b, id, side, price, flags, m.left);
    HandleNewOrderKeeps(b, id, side, quantity, price, flags, notify, filled);
    NothingInserted(b, id, side, q, price);
    Sides(b, Opposite(side));
    MatchView(b, id, side, q, price);
    EntryShows(b, id, side, Quote(side, price, m.left));
    TradesReplay(id, side, q, price, opp, start);
    if m.left > 0 && !IsIoc(flags) {
      var o := Order(id, side, price, m.left, q - m.left, flags);
      InsertView(WithSide(b, Opposite(side), m.resting), o);
      MatchedUnique(b, id, side, q, price);
      QuotesOfExact(m.resting);
      UpdateBeside(View(b), Ids(opp), QuotesOf(m.resting), id, QuoteOf(o));
    }
  }

  lemma MatchedUnique(b: Book, id: uint64, side: Side, quantity: uint32, limit: int)
    requires WellFormed(b)
    ensures UniqueIds(Match(id, side, quantity, limit, SideOf(b, Opposite(side))).resting)
  {
    MatchKeeps(id, side, quantity, limit, SideOf(b, Opposite(side)));
  }

  lemma EntryShows(b: Book, id: uint64, side: Side, q: Quote)
    requires WellFormed(b) && !InBook(b, id)
    ensures var opp := SideOf(b, Opposite(side)); Shows(View(b), opp) && Shows(View(b)[id := q], opp) && id !in Ids(opp)
  {
    ViewExact(b);
    HasIsIds(SideOf(b, Opposite(side)), id);
  }

  /** The one request whose report disagrees with the ladder: a same-price amend of a partly filled order. */
  predicate AmendsFilledInPlace(b: Book, req: Request) {
    req.Modify? && InBook(b, req.id) &&
    var o := Find(b, req.id);
    0 < o.filled < req.quantity && o.price == req.price && o.side == req.side
  }

  /** What a replica holds after one request, from the ladder's own orders before it. */
  function Followed(b: Book, req: Request, symbol: uint32, aggressor: Side): Quotes {
    ReplayQuotes(View(b), Published(symbol, aggressor, Apply(b, req).events))
  }

  lemma PublishedIs(symbol: uint32, aggressor: Side, matched: seq<Event>, more: seq<Event>, m: Quotes)
    requires Immediate(symbol, matched) == [] && QueuedTrades(more) == []
    ensures ReplayQuotes(m, Published(symbol, aggressor, matched + more))
      == ReplayQuotes(ReplayQuotes(m, Immediate(symbol, more)), QueuedTrades(matched))
  {
    ImmediateConcat(symbol, matched, more);
    QueuedConcat(matched, more);
    QueuedAreTrades(matched + more);
    assert QueuedTrades(matched) + [] == QueuedTrades(matched);
    assert [] + Immediate(symbol, more) == Immediate(symbol, more);
    ReplayConcat(m, Immediate(symbol, more), WithSummary(symbol, aggressor, QueuedTrades(matched)));
    SummaryIgnored(ReplayQuotes(m, Immediate(symbol, more)), symbol, aggressor, QueuedTrades(matched));
  }

  lemma ReplaySingle(m: Quotes, msg: MdMsg)
    ensures ReplayQuotes(m, [msg]) == ApplyQuote(m, msg)
  {}

  lemma NewFollowed(b: Book, req: Request, symbol: uint32, aggressor: Side)
    requires WellFormed(b) && req.New? && Admissible(b, req)
    ensures Followed(b, req, symbol, aggressor) == View(Apply(b, req).book)
  {
    hide WellFormed, QuotesOf, View, Match, Insert, Shows, InBook, IsIoc, Published, ReplayQuotes;
    var opp := SideOf(b, Opposite(req.side));
    var m := Match(req.id, req.side, req.quantity, req.price, opp);
    var r := Apply(b, req);
    ImmediateOfMatch(symbol, req.id, req.side, req.quantity, req.price, opp);
    var more := r.events[|m.events|..];
    assert r.events == m.events + more;
    PublishedIs(symbol, aggressor, m.events, more, View(b));
    EntryReplay(b, req.id, req.side, req.quantity, req.price, req.flags, true, 0);
    ViewExact(b);
    var msg := MdNew(req.id, symbol, req.side, m.left, req.price, req.flags);
    ReplaySingle(View(b), msg);
    ReplayNothing(View(b));
    assert Immediate(symbol, more) == if m.left > 0 && !IsIoc(req.flags) then [msg] else [];
  }

  lemma ReplayNothing(m: Quotes)
    ensures ReplayQuotes(m, []) == m
  {}

  /** Publication of a request that trades nothing. */
  lemma QuietFollowed(m: Quotes, symbol: uint32, aggressor: Side, e: Event)
    requires !e.OnTrade?
    ensures ReplayQuotes(m, Published(symbol, aggressor, [e])) == ReplayQuotes(m, Immediate(symbol, [e]))
  {
    PublishedIs(symbol, aggressor, [], [e], m);
    assert [] + [e] == [e];
    ReplayNothing(ReplayQuotes(m, Immediate(symbol, [e])));
  }

  /** The callbacks of a re-price: those of its match, then one for the order itself. */
  lemma RepriceEvents(b: Book, req: Request)
    requires WellFormed(b) && req.Modify? && InBook(b, req.id)
    requires var o := Find(b, req.id); o.filled < req.quantity && !(o.price == req.price && o.side == req.side)
    ensures var o, b1 := Find(b, req.id), RemoveFromBook(b, req.id);
      var m := Match(req.id, req.side, req.quantity - o.filled, req.price, SideOf(b1, Opposite(req.side)));
      var r := HandleNewOrder(b1, req.id, req.side, req.quantity, req.price, o.flags, false, o.filled);
      && !IsIoc(o.flags) && r.left == m.left && Apply(b, req).book == r.book
      && Apply(b, req).events == m.events
         + [if m.left > 0 then OnModifyOrder(req.id, req.side, m.left, req.price) else OnDeleteOrder(req.id, true)]
  {
    hide WellFormed, Match, Insert, InBook, IsIoc, RemoveFromBook, Find;
    RestingIsNotIoc(b, req.id);
    ModifyNeverThrows(b, req.id, req.side, req.quantity, req.price);
    var o, b1 := Find(b, req.id), RemoveFromBook(b, req.id);
    var m := Match(req.id, req.side, req.quantity - o.filled, req.price, SideOf(b1, Opposite(req.side)));
    assert m.events + [] == m.events;
  }

  /** What a re-price reports behind its match, and what is published for that. */
  function Repriced(req: Request, left: uint32): Event
    requires req.Modify?
  {
    if left > 0 then OnModifyOrder(req.id, req.side, left, req.price) else OnDeleteOrder(req.id, true)
  }

  lemma RepricedShows(b: Book, req: Request, o: Order, left: uint32, symbol: uint32)
    requires req.Modify? && !IsIoc(o.flags) && req.id in View(b)
    requires View(RemoveFromBook(b, req.id)) == View(b) - {req.id}
    ensures QueuedTrades([Repriced(req, left)]) == []
    ensures ReplayQuotes(View(b), Immediate(symbol, [Repriced(req, left)]))
      == Entered(RemoveFromBook(b, req.id), req.id, req.side, req.price, o.flags, left)
  {
    hide View, RemoveFromBook, IsIoc;
    var e := Repriced(req, left);
    var msg := if left > 0 then MdModify(req.id, req.side, left, req.price) else MdDelete(req.id);
    assert [e][1..] == [];
    assert Immediate(symbol, [e]) == [msg];
    ReplaySingle(View(b), msg);
    assert ApplyQuote(View(b), msg) == Entered(RemoveFromBook(b, req.id), req.id, req.side, req.price, o.flags, left);
  }

  lemma RepriceFollowed(b: Book, req: Request, symbol: uint32, aggressor: Side)
    requires WellFormed(b) && req.Modify? && InBook(b, req.id)
    requires var o := Find(b, req.id); o.filled < req.quantity && !(o.price == req.price && o.side == req.side)
    ensures Followed(b, req, symbol, aggressor) == View(Apply(b, req).book)
  {
    hide *;
    var o, b1 := Find(b, req.id), RemoveFromBook(b, req.id);
    var m := Match(req.id, req.side, req.quantity - o.filled, req.price, SideOf(b1, Opposite(req.side)));
    FollowedIs(b, req, symbol, aggressor);
    RepriceEvents(b, req);
    RepricedIs(req, m.left);
    RemoveFromBookKeeps(b, req.id);
    ViewWithout(b, req.id);
    ViewExact(b);
    ImmediateOfMatch(symbol, req.id, req.side, req.quantity - o.filled, req.price, SideOf(b1, Opposite(req.side)));
    RepricedShows(b, req, o, m.left, symbol);
    PublishedIs(symbol, aggressor, m.events, [Repriced(req, m.left)], View(b));
    EntryReplay(b1, req.id, req.side, req.quantity, req.price, o.flags, false, o.filled);
  }

  lemma RepricedIs(req: Request, left: uint32)
    requires req.Modify?
    ensures Repriced(req, left) == if left > 0 then OnModifyOrder(req.id, req.side, left, req.price) else OnDeleteOrder(req.id, true)
  {}

  lemma FollowedIs(b: Book, req: Request, symbol: uint32, aggressor: Side)
    ensures Followed(b, req, symbol, aggressor) == ReplayQuotes(View(b), Published(symbol, aggressor, Apply(b, req).events))
  {}

  /** A replica that held the ladder's orders still does after a request, exactly unless it amended a partly filled order in place. */
  lemma RequestFollowed(b: Book, req: Request, symbol: uint32, aggressor: Side)
    requires WellFormed(b) && Admissible(b, req)
    ensures Followed(b, req, symbol, aggressor) == View(Apply(b, req).book) <==> !AmendsFilledInPlace(b, req)
  {
    hide WellFormed, QuotesOf, View, HandleNewOrder, Published, ReplayQuotes, RemoveFromBook, RequantifyInBook, Shows, InBook, Find;
    ViewExact(b);
    if req.New? {
      NewFollowed(b, req, symbol, aggressor);
    } else if !InBook(b, req.id) {
      QuietFollowed(View(b), symbol, aggressor, OnCancelReject(req.id));
      assert Immediate(symbol, [OnCancelReject(req.id)]) == [];
      ReplayNothing(View(b));
    } else if req.Delete? || Find(b, req.id).filled >= req.quantity {
      QuietFollowed(View(b), symbol, aggressor, OnDeleteOrder(req.id, true));
      assert Immediate(symbol, [OnDeleteOrder(req.id, true)]) == [MdDelete(req.id)];
      ReplaySingle(View(b), MdDelete(req.id));
      ViewWithout(b, req.id);
    } else if Find(b, req.id).price == req.price && Find(b, req.id).side == req.side {
      var o := Find(b, req.id);
      QuietFollowed(View(b), symbol, aggressor, OnModifyOrder(req.id, req.side, req.quantity - o.filled, req.price));
      var msg := MdModify(req.id, req.side, req.quantity - o.filled, req.price);
      assert Immediate(symbol, [OnModifyOrder(req.id, req.side, req.quantity - o.filled, req.price)]) == [msg];
      ReplaySingle(View(b), msg);
      ViewRequantified(b, req.id, req.quantity);
      assert View(Apply(b, req).book)[req.id].quantity == req.quantity;
    } else {
      RepriceFollowed(b, req, symbol, aggressor);
    }
  }

  // ----- runs of one symbol -----

  /** Everything published for a run of requests, with the aggressor side the broker had for each. */
  function Log(symbol: uint32, reqs: seq<Request>, aggressors: seq<Side>): seq<MdMsg>
    requires |aggressors| == |reqs|
  {
    if reqs == [] then []
    else
      var n := |reqs| - 1;
      Log(symbol, reqs[..n], aggressors[..n])
      + Published(symbol, aggressors[n], Apply(Replay(reqs[..n]), reqs[n]).events)
  }

  ghost predicate Clean(reqs: seq<Request>) {
    forall i :: 0 <= i < |reqs| ==>
      Admissible(Replay(reqs[..i]), reqs[i]) && !AmendsFilledInPlace(Replay(reqs[..i]), reqs[i])
  }

  /** After every request of a clean run, replaying the whole log gives the ladder's exact orders. */
  lemma {:induction false} RunFollowed(symbol: uint32, reqs: seq<Request>, aggressors: seq<Side>)
    requires |aggressors| == |reqs| && Clean(reqs)
    ensures ReplayQuotes(map[], Log(symbol, reqs, aggressors)) == View(Replay(reqs))
  {
    if reqs != [] {
      var n := |reqs| - 1;
      var p := reqs[..n];
      assert Clean(p) by {
        forall i | 0 <= i < |p| ensures Admissible(Replay(p[..i]), p[i]) && !AmendsFilledInPlace(Replay(p[..i]), p[i]) {
          assert p[..i] == reqs[..i];
        }
      }
      RunFollowed(symbol, p, aggressors[..n]);
      NeverCrossed(p);
      RequestFollowed(Replay(p), reqs[n], symbol, aggressors[n]);
      ReplayConcat(map[], Log(symbol, p, aggressors[..n]), Published(symbol, aggressors[n], Apply(Replay(p), reqs[n]).events));
    } else {
      ReplayNothing(map[]);
    }
  }
}
