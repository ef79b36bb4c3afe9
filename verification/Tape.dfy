/** What the feed says of the trades of a request: one summary in front of them, of what they come to. */
module Tape {
  import opened ExchangeTypes
  import opened BookSpec
  import opened BookOrder
  import opened MatchTheorems
  import opened BookTheorems
  import opened MarketData
  import opened Replication
  import opened OrderAccounts
  import opened Settlement
  import opened BrokerSpec
  import opened BrokerTheorems
  import opened BrokerLog

  lemma {:induction false} TotalConcat(a: seq<MdMsg>, b: seq<MdMsg>)
    ensures TotalQuantity(a + b) == TotalQuantity(a) + TotalQuantity(b)
  {
    if a == [] {
      assert a + b == b;
    } else {
      assert (a + b)[1..] == a[1..] + b;
      TotalConcat(a[1..], b);
    }
  }

  /** The trades of a match come to what the incoming order filled. */
  lemma {:induction false} MatchTotal(id: uint64, side: Side, quantity: uint32, limit: int, os: seq<Order>)
    requires !Has(os, id)
    ensures var ev := Match(id, side, quantity, limit, os).events; TotalQuantity(QueuedTrades(ev)) == Filled(ev, id)
    decreases |os|
  {
    hide Crosses, FillEvents, Has;
    if quantity > 0 && os != [] && Crosses(side, limit, os[0].price) {
      var o, closed := os[0], os[0].quantity <= quantity;
      var q := Min(o.quantity, quantity);
      var f := FillEvents(id, side, o, q, closed, quantity <= o.quantity);
      DropHas(os, id);
      QueuedOfFill(id, side, o, q, closed, quantity <= o.quantity);
      TradeEvents(id, side, o, q, closed, quantity <= o.quantity, id);
      OneTrade(o.id, q, o.price);
      if closed {
        var rest := Match(id, side, quantity - o.quantity, limit, os[1..]).events;
        MatchTotal(id, side, quantity - o.quantity, limit, os[1..]);
        QueuedConcat(f, rest);
        TradedConcat(f, rest, id);
        TotalConcat(QueuedTrades(f), QueuedTrades(rest));
      }
    }
  }

  lemma OneTrade(id: uint64, q: uint32, price: int)
    ensures TotalQuantity([MdTrade(id, q, price)]) == q
  {
    assert [MdTrade(id, q, price)][1..] == [];
  }

  /** Callbacks that are neither trades nor fills add nothing to either count. */
  lemma {:induction false} QuietTotal(ev: seq<Event>, more: seq<Event>, id: uint64)
    requires forall i :: 0 <= i < |more| ==> !more[i].OnFill? && !more[i].OnTrade?
    ensures QueuedTrades(ev + more) == QueuedTrades(ev) && Filled(ev + more, id) == Filled(ev, id)
  {
    QueuedConcat(ev, more);
    NoFills(ev, more, id);
    NoTrades(more);
    assert QueuedTrades(ev) + [] == QueuedTrades(ev);
  }

  lemma {:induction false} NoTrades(more: seq<Event>)
    requires forall i :: 0 <= i < |more| ==> !more[i].OnTrade?
    ensures QueuedTrades(more) == []
  {
    if more != [] {
      NoTrades(more[1..]);
    }
  }

  lemma EntryTotal(b: Book, id: uint64, side: Side, quantity: uint32, price: int, flags: uint8, notify: bool, filled: uint32)
    requires !InBook(b, id) && quantity > filled
    ensures var ev := HandleNewOrder(b, id, side, quantity, price, flags, notify, filled).events;
      TotalQuantity(QueuedTrades(ev)) == Filled(ev, id)
  {
    var os := SideOf(b, Opposite(side));
    assert !Has(os, id);
    hide *;
    var m := Match(id, side, quantity - filled, price, os).events;
    var quiet := EntrySplits(b, id, side, quantity, price, flags, notify, filled);
    MatchTotal(id, side, quantity - filled, price, os);
    QuietTotal(m, quiet, id);
  }

  /** The callbacks of an entry: those of its match, then some that are neither trades nor fills. */
  lemma EntrySplits(b: Book, id: uint64, side: Side, quantity: uint32, price: int, flags: uint8, notify: bool, filled: uint32)
    returns (quiet: seq<Event>)
    requires quantity > filled
    ensures HandleNewOrder(b, id, side, quantity, price, flags, notify, filled).events
      == Match(id, side, quantity - filled, price, SideOf(b, Opposite(side))).events + quiet
    ensures forall i :: 0 <= i < |quiet| ==> !quiet[i].OnFill? && !quiet[i].OnTrade?
  {
    hide Match, InBook, Insert;
    var m := Match(id, side, quantity - filled, price, SideOf(b, Opposite(side))).events;
    quiet := HandleNewOrder(b, id, side, quantity, price, flags, notify, filled).events[|m|..];
  }

  lemma OneQuietTotal(ev: seq<Event>, id: uint64)
    requires |ev| == 1 && !ev[0].OnFill? && !ev[0].OnTrade?
    ensures QueuedTrades(ev) == [] && Filled(ev, id) == 0
  {
    assert ev[1..] == [];
  }

  /** Whatever the request, its trades come to what its own order filled. */
  lemma RequestTotal(b: Book, req: Request)
    requires WellFormed(b) && Admissible(b, req)
    ensures var ev := Apply(b, req).events; TotalQuantity(QueuedTrades(ev)) == Filled(ev, req.id)
    ensures req.Delete? ==> QueuedTrades(Apply(b, req).events) == []
  {
    hide WellFormed, HandleNewOrder, RemoveFromBook, RequantifyInBook, InBook, Find, TotalQuantity, Filled, QueuedTrades;
    var ev := Apply(b, req).events;
    NothingTraded();
    if req.New? {
      EntryTotal(b, req.id, req.side, req.quantity, req.price, req.flags, true, 0);
    } else if req.Delete? || !InBook(b, req.id) || Find(b, req.id).filled >= req.quantity
              || (Find(b, req.id).price == req.price && Find(b, req.id).side == req.side) {
      OneQuietTotal(ev, req.id);
    } else {
      var o, b1 := Find(b, req.id), RemoveFromBook(b, req.id);
      var r := HandleNewOrder(b1, req.id, req.side, req.quantity, req.price, o.flags, false, o.filled);
      RemoveFromBookKeeps(b, req.id);
      ModifyNeverThrows(b, req.id, req.side, req.quantity, req.price);
      EntryTotal(b1, req.id, req.side, req.quantity, req.price, o.flags, false, o.filled);
      var more := ev[|r.events|..];
      assert ev == r.events + more;
      QuietTotal(r.events, more, req.id);
    }
  }

  lemma NothingTraded()
    ensures TotalQuantity([]) == 0
  {}

  predicate IsTape(m: MdMsg) {
    m.MdTrade? || m.MdSummary?
  }

  lemma {:induction false} ImmediateIsNoTape(symbol: uint32, events: seq<Event>)
    ensures forall i :: 0 <= i < |Immediate(symbol, events)| ==> !IsTape(Immediate(symbol, events)[i])
  {
    if events != [] {
      ImmediateIsNoTape(symbol, events[1..]);
    }
  }

  /** The trades among the callbacks, as the feed puts them. */
  lemma {:induction false} QueuedAre(events: seq<Event>)
    ensures var t := Trades(events); var q := QueuedTrades(events);
      |q| == |t| && forall i :: 0 <= i < |q| ==> t[i].OnTrade? && q[i] == MdTrade(t[i].id, t[i].quantity, t[i].price)
  {
    if events != [] {
      QueuedAre(events[1..]);
    }
  }

  /**
   What a request adds to the log: first what is published at once; then, if anything traded, one summary with the
   request's symbol and side, the quantity its order filled in 32 bits and the price of the last trade, and the trades in
   the order they were made.
   */
  lemma SummaryIsRight(st: BrokerState, p: Payload)
    requires Owned(st) && Entitled(st, p) && p.kind != RejectKind
    ensures var ev, log := Apply(st.books[p.symbol], RequestOf(p)).events, BrokerApply(st, p).0.log;
      var trades := Trades(ev);
      var at := |log| - (if trades == [] then 0 else |trades| + 1);
      && |st.log| <= at <= |log| && st.log <= log && (forall i :: |st.log| <= i < at ==> !IsTape(log[i]))
      && (trades != [] ==>
          && log[at].MdSummary? && log[at].symbol == p.symbol && log[at].aggressor == p.side
          && log[at].total == Wrap32(Filled(ev, p.id))
          && trades[|trades| - 1].OnTrade? && log[at].lastPrice == trades[|trades| - 1].price
          && forall i :: 0 <= i < |trades| ==> trades[i].OnTrade? && log[at + 1 + i] == MdTrade(trades[i].id, trades[i].quantity, trades[i].price))
  {
    hide BookIds, WellFormed, Apply, Low32, Disjoint, InBook, Rests, BrokerApply, Trades, QueuedTrades, TotalQuantity, Filled, Immediate, Wrap32;
    var b, req := st.books[p.symbol], RequestOf(p);
    var ev := Apply(b, req).events;
    var aggressor := if p.kind.DeleteOrderKind? then st.aggressor else p.side;
    OwnedIsSound(st);
    RequestOutcome(st, Kept(st), p);
    LogGrows(st, Kept(st), p);
    QueuedAreTrades(ev);
    QueuedAre(ev);
    RequestTotal(b, req);
    ImmediateIsNoTape(p.symbol, ev);
    var imm, tape := Immediate(p.symbol, ev), WithSummary(p.symbol, aggressor, QueuedTrades(ev));
    var log := BrokerApply(st, p).0.log;
    assert log == st.log + (imm + tape);
    LogParts(st.log, imm, tape);
  }

  lemma LogParts(log: seq<MdMsg>, imm: seq<MdMsg>, tape: seq<MdMsg>)
    ensures var all := log + (imm + tape);
      && (forall i :: |log| <= i < |log| + |imm| ==> all[i] == imm[i - |log|])
      && (forall i {:trigger tape[i]} :: 0 <= i < |tape| ==> all[|log| + |imm| + i] == tape[i])
      && all[|log| + |imm|..] == tape
  {}
}
