/**
 The aggregated levels of a replica that follows a ladder: although the new or amended order is published before the
 trades that made room for it, no total ever exceeds what the ladder holds before or after the request.
 */
module ReplicaLevels {
  import opened ExchangeTypes
  import opened BookSpec
  import opened BookOrder
  import opened MatchTheorems
  import opened BookTheorems
  import opened MarketData
  import opened Replication
  import opened OrderBooks

  // ----- trades only lower -----

  predicate Trades(msgs: seq<MdMsg>, ids: set<uint64>) {
    forall i :: 0 <= i < |msgs| ==> msgs[i].MdTrade? && msgs[i].id in ids
  }

  /** The orders that may trade are all on one side. */
  predicate OnSide(m: Quotes, ids: set<uint64>, side: Side) {
    forall x :: x in m && x in ids ==> m[x].side == side
  }

  lemma TradeLowers(m: Quotes, t: MdMsg, ids: set<uint64>, resting: Side)
    requires t.MdTrade? && t.id in ids && OnSide(m, ids, resting)
    ensures OnSide(ApplyQuote(m, t), ids, resting)
    ensures forall side, p :: Depth(ApplyQuote(m, t), side, p) <= Depth(m, side, p)
    ensures forall p :: Depth(ApplyQuote(m, t), Opposite(resting), p) == Depth(m, Opposite(resting), p)
  {
    hide Depth;
    forall side, p ensures Depth(ApplyQuote(m, t), side, p) <= Depth(m, side, p)
      && (side == Opposite(resting) ==> Depth(ApplyQuote(m, t), side, p) == Depth(m, side, p))
    {
      if t.id in m && m[t.id].quantity >= t.quantity {
        DepthWithout(m, t.id, side, p);
        DepthUpdate(m, t.id, m[t.id].(quantity := m[t.id].quantity - t.quantity), side, p);
      }
    }
  }

  /** A run of trades of one side fits if it starts fitting, and leaves the other side's totals alone. */
  lemma {:induction false} TradesFit(m: Quotes, msgs: seq<MdMsg>, ids: set<uint64>, resting: Side)
    requires Trades(msgs, ids) && OnSide(m, ids, resting)
    ensures AllProper(m, msgs) && (Fits(m) ==> AllFit(m, msgs))
    ensures forall p :: Depth(ReplayQuotes(m, msgs), Opposite(resting), p) == Depth(m, Opposite(resting), p)
    decreases |msgs|
  {
    hide Depth, OnSide, ApplyQuote;
    if msgs != [] {
      TradeLowers(m, msgs[0], ids, resting);
      var m' := ApplyQuote(m, msgs[0]);
      TradesFit(m', msgs[1..], ids, resting);
      if Fits(m) {
        forall side, p ensures Depth(m', side, p) < TWO32 {
          assert Depth(m', side, p) <= Depth(m, side, p);
        }
      }
    }
  }

  /** Everything published for a request with one message up front, or none, and trades of the other side behind it. */
  lemma EntryFits(m: Quotes, imm: seq<MdMsg>, symbol: uint32, aggressor: Side, trades: seq<MdMsg>, ids: set<uint64>, own: Side)
    requires |imm| <= 1 && AllProper(m, imm) && Trades(trades, ids)
    requires var m1 := ReplayQuotes(m, imm);
      OnSide(m1, ids, Opposite(own)) && forall p :: Depth(m1, Opposite(own), p) <= Depth(m, Opposite(own), p)
    ensures AllProper(m, imm + WithSummary(symbol, aggressor, trades))
    ensures Fits(m) && Fits(ReplayQuotes(ReplayQuotes(m, imm), trades)) ==> AllFit(m, imm + WithSummary(symbol, aggressor, trades))
  {
    hide Depth, OnSide, ApplyQuote, Proper;
    var m1 := ReplayQuotes(m, imm);
    TradesFit(m1, trades, ids, Opposite(own));
    if Fits(m) && Fits(ReplayQuotes(m1, trades)) {
      forall side, p ensures Depth(m1, side, p) < TWO32 {
        if side == own {
          assert Opposite(Opposite(own)) == own;
          assert Depth(m1, own, p) == Depth(ReplayQuotes(m1, trades), own, p);
        } else {
          assert Depth(m1, Opposite(own), p) <= Depth(m, Opposite(own), p);
        }
      }
      assert Fits(m1);
    }
    SummaryFits(m1, symbol, aggressor, trades);
    if imm == [] {
      assert imm + WithSummary(symbol, aggressor, trades) == WithSummary(symbol, aggressor, trades);
      ReplayNothing(m);
    } else {
      assert imm == [imm[0]];
      ReplaySingle(m, imm[0]);
      assert (imm + WithSummary(symbol, aggressor, trades))[1..] == WithSummary(symbol, aggressor, trades);
    }
  }

  lemma SummaryFits(m: Quotes, symbol: uint32, aggressor: Side, trades: seq<MdMsg>)
    requires forall i :: 0 <= i < |trades| ==> trades[i].MdTrade?
    requires AllProper(m, trades)
    ensures AllProper(m, WithSummary(symbol, aggressor, trades))
    ensures AllFit(m, trades) ==> AllFit(m, WithSummary(symbol, aggressor, trades))
  {
    if trades != [] {
      assert WithSummary(symbol, aggressor, trades)[1..] == trades;
    }
  }

  // ----- one request -----

  lemma {:induction false} MatchTrades(id: uint64, side: Side, quantity: uint32, limit: int, os: seq<Order>)
    ensures Trades(QueuedTrades(Match(id, side, quantity, limit, os).events), Ids(os))
    decreases |os|
  {
    hide Ids, FillEvents;
    if quantity == 0 || os == [] || !Crosses(side, limit, os[0].price) {
    } else {
      var o := os[0];
      IdsTail(os);
      if o.quantity <= quantity {
        var left := quantity - o.quantity;
        MatchTrades(id, side, left, limit, os[1..]);
        QueuedOfFill(id, side, o, o.quantity, true, left == 0);
        QueuedConcat(FillEvents(id, side, o, o.quantity, true, left == 0), Match(id, side, left, limit, os[1..]).events);
      } else {
        QueuedOfFill(id, side, o, quantity, false, true);
      }
    }
  }

  lemma PublishedParts(symbol: uint32, aggressor: Side, matched: seq<Event>, more: seq<Event>)
    requires Immediate(symbol, matched) == [] && QueuedTrades(more) == []
    requires forall i :: 0 <= i < |QueuedTrades(matched)| ==> QueuedTrades(matched)[i].MdTrade?
    ensures Published(symbol, aggressor, matched + more) == Immediate(symbol, more) + WithSummary(symbol, aggressor, QueuedTrades(matched))
  {
    ImmediateConcat(symbol, matched, more);
    QueuedConcat(matched, more);
    assert QueuedTrades(matched) + [] == QueuedTrades(matched);
    assert [] + Immediate(symbol, more) == Immediate(symbol, more);
  }

  /** The orders of the opposite queue, as a replica sees them. */
  lemma OppositeOnSide(b: Book, side: Side)
    requires WellFormed(b)
    ensures OnSide(View(b), Ids(SideOf(b, side)), side) && Positive(View(b))
  {
    hide Keys, BookTheorems.Apart, QuotesOf;
    ViewExact(b);
    var os := SideOf(b, side);
    Sides(b, side);
    forall x | x in View(b) && x in Ids(os) ensures View(b)[x].side == side {
      var i :| 0 <= i < |os| && os[i].id == x;
      assert View(b)[os[i].id] == QuoteOf(os[i]);
    }
    forall x | x in View(b) ensures View(b)[x].quantity > 0 {
      if x in Ids(b.bids) {
        var i :| 0 <= i < |b.bids| && b.bids[i].id == x;
      } else {
        var i :| 0 <= i < |b.asks| && b.asks[i].id == x;
      }
    }
  }

  /** Entering or changing an order of one side adds nothing to the other. */
  lemma OneSided(m: Quotes, id: uint64, q: Quote, p: int)
    ensures Depth(m[id := q], Opposite(q.side), p) <= Depth(m, Opposite(q.side), p)
    ensures Depth(m - {id}, Opposite(q.side), p) <= Depth(m, Opposite(q.side), p)
  {
    hide Depth;
    DepthUpdate(m, id, q, Opposite(q.side), p);
    if id in m {
      DepthWithout(m, id, Opposite(q.side), p);
    } else {
      WithoutMissing(m, id);
    }
  }

  lemma OthersOnSide(m: Quotes, ids: set<uint64>, side: Side, id: uint64, q: Quote)
    requires OnSide(m, ids, side) && id !in ids
    ensures OnSide(m[id := q], ids, side) && OnSide(m - {id}, ids, side)
  {}

  /** What a request publishes is a proper stream whose totals fit throughout when they fit before and after it. */
  ghost predicate FitsThrough(b: Book, req: Request, symbol: uint32, aggressor: Side) {
    var msgs := Published(symbol, aggressor, Apply(b, req).events);
    AllProper(View(b), msgs) && (Fits(View(b)) && Fits(View(Apply(b, req).book)) ==> AllFit(View(b), msgs))
  }

  lemma NewFits(b: Book, req: Request, symbol: uint32, aggressor: Side)
    requires WellFormed(b) && req.New? && Admissible(b, req)
    ensures FitsThrough(b, req, symbol, aggressor)
  {
    hide WellFormed, QuotesOf, View, Match, Insert, InBook, IsIoc, Published, ReplayQuotes, Fits, AllProper, AllFit, Trades, OnSide,
      WithSummary, Ids, Depth, Entered;
    var opp := SideOf(b, Opposite(req.side));
    var m := Match(req.id, req.side, req.quantity, req.price, opp);
    var r := Apply(b, req);
    ImmediateOfMatch(symbol, req.id, req.side, req.quantity, req.price, opp);
    MatchTrades(req.id, req.side, req.quantity, req.price, opp);
    QueuedAreTrades(m.events);
    var more := r.events[|m.events|..];
    assert r.events == m.events + more;
    PublishedParts(symbol, aggressor, m.events, more);
    EntryReplay(b, req.id, req.side, req.quantity, req.price, req.flags, true, 0);
    var imm := if m.left > 0 && !IsIoc(req.flags) then [MdNew(req.id, symbol, req.side, m.left, req.price, req.flags)] else [];
    assert Immediate(symbol, more) == imm;
    NewMessage(b, req, symbol, imm, m.left);
    EntryFits(View(b), imm, symbol, aggressor, QueuedTrades(m.events), Ids(opp), req.side);
  }

  /** What the one early message of a new order does to a replica that shows the ladder. */
  lemma NewMessage(b: Book, req: Request, symbol: uint32, imm: seq<MdMsg>, left: uint32)
    requires WellFormed(b) && req.New? && !InBook(b, req.id)
    requires imm == if left > 0 && !IsIoc(req.flags) then [MdNew(req.id, symbol, req.side, left, req.price, req.flags)] else []
    ensures var m1, opp := ReplayQuotes(View(b), imm), SideOf(b, Opposite(req.side));
      && m1 == Entered(b, req.id, req.side, req.price, req.flags, left) && AllProper(View(b), imm)
      && OnSide(m1, Ids(opp), Opposite(req.side))
      && forall p :: Depth(m1, Opposite(req.side), p) <= Depth(View(b), Opposite(req.side), p)
  {
    hide WellFormed, QuotesOf, View, InBook, IsIoc, AllProper, OnSide, Replication.Shows, Ids, Depth, ReplayQuotes;
    ViewExact(b);
    OppositeOnSide(b, Opposite(req.side));
    var q, msg := Quote(req.side, req.price, left), MdNew(req.id, symbol, req.side, left, req.price, req.flags);
    EntryShows(b, req.id, req.side, q);
    OthersOnSide(View(b), Ids(SideOf(b, Opposite(req.side))), Opposite(req.side), req.id, q);
    ReplaySingle(View(b), msg);
    ReplayNothing(View(b));
    ProperOne(View(b), msg);
    forall p ensures Depth(View(b)[req.id := q], Opposite(req.side), p) <= Depth(View(b), Opposite(req.side), p) {
      OneSided(View(b), req.id, q, p);
    }
  }

  lemma ProperOne(m: Quotes, msg: MdMsg)
    ensures Proper(m, msg) ==> AllProper(m, [msg])
    ensures AllProper(m, [])
  {
    assert [msg][1..] == [];
  }

  lemma UpdateAfterRemove(m: Quotes, id: uint64, q: Quote)
    ensures (m - {id})[id := q] == m[id := q] && (m - {id}) - {id} == m - {id}
  {}

  lemma RepriceFits(b: Book, req: Request, symbol: uint32, aggressor: Side)
    requires WellFormed(b) && req.Modify? && InBook(b, req.id)
    requires var o := Find(b, req.id); o.filled < req.quantity && !(o.price == req.price && o.side == req.side)
    ensures FitsThrough(b, req, symbol, aggressor)
  {
    hide WellFormed, QuotesOf, View, Match, HandleNewOrder, InBook, IsIoc, Published, ReplayQuotes, RemoveFromBook, Find, Apply,
      Fits, AllProper, AllFit, Trades, OnSide, WithSummary, Replication.Shows, Ids, WellFormed, Depth;
    var o, b1 := Find(b, req.id), RemoveFromBook(b, req.id);
    var opp := SideOf(b1, Opposite(req.side));
    var m := Match(req.id, req.side, req.quantity - o.filled, req.price, opp);
    RepriceEvents(b, req);
    RemoveFromBookKeeps(b, req.id);
    ImmediateOfMatch(symbol, req.id, req.side, req.quantity - o.filled, req.price, opp);
    QueuedAreTrades(m.events);
    var e := if m.left > 0 then OnModifyOrder(req.id, req.side, m.left, req.price) else OnDeleteOrder(req.id, true);
    var msg := if m.left > 0 then MdModify(req.id, req.side, m.left, req.price) else MdDelete(req.id);
    assert Immediate(symbol, [e]) == [msg];
    PublishedParts(symbol, aggressor, m.events, [e]);
    EntryReplay(b1, req.id, req.side, req.quantity, req.price, o.flags, false, o.filled);
    RepriceMessage(b, req, msg, m.left, o.flags);
    MatchTrades(req.id, req.side, req.quantity - o.filled, req.price, opp);
    EntryFits(View(b), [msg], symbol, aggressor, QueuedTrades(m.events), Ids(opp), req.side);
  }

  /** What the one early message of a re-price does to a replica that shows the ladder. */
  lemma RepriceMessage(b: Book, req: Request, msg: MdMsg, left: uint32, flags: uint8)
    requires WellFormed(b) && req.Modify? && InBook(b, req.id) && !IsIoc(flags)
    requires msg == if left > 0 then MdModify(req.id, req.side, left, req.price) else MdDelete(req.id)
    ensures var b1 := RemoveFromBook(b, req.id);
      var m1, opp := ReplayQuotes(View(b), [msg]), SideOf(b1, Opposite(req.side));
      && m1 == Entered(b1, req.id, req.side, req.price, flags, left) && AllProper(View(b), [msg])
      && OnSide(m1, Ids(opp), Opposite(req.side))
      && forall p :: Depth(m1, Opposite(req.side), p) <= Depth(View(b), Opposite(req.side), p)
  {
    hide WellFormed, QuotesOf, View, InBook, IsIoc, RemoveFromBook, Find, AllProper, OnSide, Replication.Shows, Ids, Depth, ReplayQuotes;
    var b1 := RemoveFromBook(b, req.id);
    RemoveFromBookKeeps(b, req.id);
    RemovedIds(b, req.id);
    ViewWithout(b, req.id);
    ViewExact(b);
    ReplaySingle(View(b), msg);
    ProperOne(View(b), msg);
    var q := Quote(req.side, req.price, left);
    UpdateAfterRemove(View(b), req.id, q);
    OppositeOnSide(b1, Opposite(req.side));
    EntryShows(b1, req.id, req.side, q);
    OthersOnSide(View(b1), Ids(SideOf(b1, Opposite(req.side))), Opposite(req.side), req.id, q);
    forall p ensures Depth(ApplyQuote(View(b), msg), Opposite(req.side), p) <= Depth(View(b), Opposite(req.side), p) {
      OneSided(View(b), req.id, q, p);
    }
  }

  /** A request that trades nothing publishes one message or none. */
  lemma SingleFits(b: Book, req: Request, symbol: uint32, aggressor: Side, e: Event)
    requires !e.OnTrade? && Apply(b, req).events == [e] && (e.OnModifyOrder? ==> e.quantity > 0) && !e.OnNewOrder?
    requires Followed(b, req, symbol, aggressor) == View(Apply(b, req).book)
    ensures FitsThrough(b, req, symbol, aggressor)
  {
    hide View, Apply, Fits, ReplayQuotes;
    var msgs := Published(symbol, aggressor, [e]);
    OneImmediate(symbol, aggressor, e);
    if msgs == [] {
      ReplayNothing(View(b));
    } else {
      var msg := msgs[0];
      assert msgs == [msg];
      ReplaySingle(View(b), msg);
      ProperOne(View(b), msg);
      assert ApplyQuote(View(b), msg) == View(Apply(b, req).book);
      FitOne(View(b), msg);
    }
  }

  lemma FitOne(m: Quotes, msg: MdMsg)
    ensures Fits(m) && Fits(ApplyQuote(m, msg)) ==> AllFit(m, [msg])
  {
    assert [msg][1..] == [];
  }

  lemma OneImmediate(symbol: uint32, aggressor: Side, e: Event)
    requires !e.OnTrade?
    ensures var msgs := Published(symbol, aggressor, [e]);
      msgs == [] || (msgs == [msgs[0]] && (e.OnModifyOrder? ==> msgs[0] == MdModify(e.id, e.side, e.quantity, e.price))
                     && (msgs[0].MdNew? ==> e.OnNewOrder?) && (msgs[0].MdModify? ==> e.OnModifyOrder?))
  {
    assert [e][1..] == [] && [] + [e] == [e];
    PublishedParts(symbol, aggressor, [], [e]);
    assert Immediate(symbol, [e]) + [] == Immediate(symbol, [e]);
  }

  /** The totals fit throughout what a request publishes exactly when they fit before and after it. */
  lemma RequestFits(b: Book, req: Request, symbol: uint32, aggressor: Side)
    requires WellFormed(b) && Admissible(b, req) && !AmendsFilledInPlace(b, req)
    ensures var msgs := Published(symbol, aggressor, Apply(b, req).events);
      AllProper(View(b), msgs) && (AllFit(View(b), msgs) <==> Fits(View(b)) && Fits(View(Apply(b, req).book)))
  {
    hide WellFormed, QuotesOf, View, HandleNewOrder, Published, ReplayQuotes, RemoveFromBook, RequantifyInBook, Fits, InBook, Find, AllProper, AllFit;
    var msgs := Published(symbol, aggressor, Apply(b, req).events);
    RequestFollowed(b, req, symbol, aggressor);
    if AllFit(View(b), msgs) {
      FitEnds(View(b), msgs);
    }
    if req.New? {
      NewFits(b, req, symbol, aggressor);
    } else if !InBook(b, req.id) {
      SingleFits(b, req, symbol, aggressor, OnCancelReject(req.id));
    } else if req.Delete? || Find(b, req.id).filled >= req.quantity {
      SingleFits(b, req, symbol, aggressor, OnDeleteOrder(req.id, true));
    } else if Find(b, req.id).price == req.price && Find(b, req.id).side == req.side {
      SingleFits(b, req, symbol, aggressor, OnModifyOrder(req.id, req.side, req.quantity - Find(b, req.id).filled, req.price));
    } else {
      RepriceFits(b, req, symbol, aggressor);
    }
  }

  lemma {:induction false} FitEnds(m: Quotes, msgs: seq<MdMsg>)
    requires AllFit(m, msgs)
    ensures Fits(m) && Fits(ReplayQuotes(m, msgs))
    decreases |msgs|
  {
    hide Fits, ApplyQuote;
    if msgs != [] {
      FitEnds(ApplyQuote(m, msgs[0]), msgs[1..]);
    }
  }

  // ----- runs -----

  lemma {:induction false} StreamConcat(m: Quotes, a: seq<MdMsg>, b: seq<MdMsg>)
    ensures AllProper(m, a + b) <==> AllProper(m, a) && AllProper(ReplayQuotes(m, a), b)
    ensures AllFit(m, a + b) <==> AllFit(m, a) && AllFit(ReplayQuotes(m, a), b)
    decreases |a|
  {
    hide Fits, ApplyQuote, Proper;
    if a == [] {
      assert a + b == b;
    } else {
      assert (a + b)[1..] == a[1..] + b;
      StreamConcat(ApplyQuote(m, a[0]), a[1..], b);
    }
  }

  /** The ladder's totals fit after every request. */
  ghost predicate LaddersFit(reqs: seq<Request>) {
    forall i :: 0 <= i <= |reqs| ==> Fits(View(Replay(reqs[..i])))
  }

  lemma {:induction false} LogFits(symbol: uint32, reqs: seq<Request>, aggressors: seq<Side>)
    requires |aggressors| == |reqs| && Clean(reqs)
    ensures AllProper(map[], Log(symbol, reqs, aggressors))
    ensures AllFit(map[], Log(symbol, reqs, aggressors)) <==> LaddersFit(reqs)
  {
    EmptyFits();
    if reqs == [] {
      assert reqs[..0] == [] && View(Replay([])) == map[] by { EmptyView(); }
    } else {
      var n := |reqs| - 1;
      var p := reqs[..n];
      var msgs := Published(symbol, aggressors[n], Apply(Replay(p), reqs[n]).events);
      assert Log(symbol, reqs, aggressors) == Log(symbol, p, aggressors[..n]) + msgs;
      CleanPrefix(reqs);
      assert Replay(reqs) == Apply(Replay(p), reqs[n]).book;
      hide *;
      LogFits(symbol, p, aggressors[..n]);
      RunFollowed(symbol, p, aggressors[..n]);
      NeverCrossed(p);
      LaddersFitPush(reqs);
      LaddersFitEnd(p);
      RequestFits(Replay(p), reqs[n], symbol, aggressors[n]);
      StreamConcat(map[], Log(symbol, p, aggressors[..n]), msgs);
    }
  }

  lemma CleanPrefix(reqs: seq<Request>)
    requires Clean(reqs) && reqs != []
    ensures var n := |reqs| - 1;
      && Clean(reqs[..n]) && (forall i :: 0 <= i < n ==> Admissible(Replay(reqs[..n][..i]), reqs[..n][i]))
      && Admissible(Replay(reqs[..n]), reqs[n]) && !AmendsFilledInPlace(Replay(reqs[..n]), reqs[n])
  {
    hide Admissible, AmendsFilledInPlace, Replay;
    var p := reqs[..|reqs| - 1];
    forall i | 0 <= i < |p| ensures Admissible(Replay(p[..i]), p[i]) && !AmendsFilledInPlace(Replay(p[..i]), p[i]) {
      assert p[..i] == reqs[..i];
    }
  }

  lemma LaddersFitEnd(reqs: seq<Request>)
    ensures LaddersFit(reqs) ==> Fits(View(Replay(reqs)))
  {
    hide Fits, View;
    assert reqs[..|reqs|] == reqs;
  }

  lemma LaddersFitPush(reqs: seq<Request>)
    requires reqs != []
    ensures LaddersFit(reqs) <==> LaddersFit(reqs[..|reqs| - 1]) && Fits(View(Replay(reqs)))
  {
    hide Fits, View, Replay;
    var n := |reqs| - 1;
    var p := reqs[..n];
    assert reqs[..n + 1] == reqs;
    forall i | 0 <= i <= n ensures p[..i] == reqs[..i] {}
    if LaddersFit(reqs) {
      forall i | 0 <= i <= n ensures Fits(View(Replay(p[..i]))) {
        assert p[..i] == reqs[..i];
      }
    }
    if LaddersFit(p) && Fits(View(Replay(reqs))) {
      forall i | 0 <= i <= |reqs| ensures Fits(View(Replay(reqs[..i]))) {
        if i <= n { assert p[..i] == reqs[..i]; }
      }
    }
  }

  lemma EmptyView()
    ensures View(Book([], [])) == map[] && Replay([]) == Book([], [])
  {}

  lemma EmptyFits()
    ensures AllFit(map[], []) && AllProper(map[], []) && Fits(map[])
  {
    forall side, p ensures Depth(map[], side, p) < TWO32 {
      assert Depth(map[], side, p) == 0;
    }
  }

  /**
   Over every clean run of a ladder the replica ends with its orders; its levels are an exact index all along exactly
   when the ladder's totals fit in 32 bits after every request.
   */
  lemma RunLevelsExact(symbol: uint32, reqs: seq<Request>, aggressors: seq<Side>)
    requires |aggressors| == |reqs| && Clean(reqs)
    ensures var st := ReplayBook(EMPTY_BOOK, Log(symbol, reqs, aggressors));
      && st.orders == View(Replay(reqs))
      && (AllExact(EMPTY_BOOK, Log(symbol, reqs, aggressors)) <==> LaddersFit(reqs))
      && (LaddersFit(reqs) ==> Exact(st) && Positive(st.orders))
  {
    hide Fits, View, AllFit, AllProper, ReplayBook, ReplayQuotes, Log, LaddersFit, AllExact;
    LogFits(symbol, reqs, aggressors);
    RunFollowed(symbol, reqs, aggressors);
    EmptyBookExact();
    StreamExact(EMPTY_BOOK, Log(symbol, reqs, aggressors));
  }
}
