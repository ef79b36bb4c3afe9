/**
 What greedy matching achieves, stated order by order and without the algorithm: how much of each
 resting order trades, at which price, in which sequence, and what is left on either side.
 */
module MatchTheorems {
  import opened ExchangeTypes
  import opened BookSpec
  import opened BookOrder

  /** Everything on this side that an incoming order with this limit may trade against. */
  function Crossing(os: seq<Order>, side: Side, limit: int): nat {
    if os == [] then 0
    else (if Crosses(side, limit, os[0].price) then os[0].quantity else 0) + Crossing(os[1..], side, limit)
  }

  /** The share of order k under price-time priority: what is left after everything ahead of it. */
  function Share(os: seq<Order>, side: Side, quantity: uint32, limit: int, k: nat): nat
    requires k < |os|
  {
    if Crosses(side, limit, os[k].price) then Min(os[k].quantity, Max(0, quantity - Crossing(os[..k], side, limit))) else 0
  }

  /** Quantity traded against a resting order, as published by onTrade. */
  function Traded(events: seq<Event>, id: uint64): nat {
    if events == [] then 0
    else (if events[0].OnTrade? && events[0].id == id then events[0].quantity else 0) + Traded(events[1..], id)
  }

  /** Quantity filled of an order, as reported by onFill for either side of a trade. */
  function Filled(events: seq<Event>, id: uint64): nat {
    if events == [] then 0
    else (if events[0].OnFill? && events[0].id == id then events[0].quantity else 0) + Filled(events[1..], id)
  }

  /** What remains of an order, zero when it is gone. */
  function Left(os: seq<Order>, id: uint64): nat {
    if Has(os, id) then os[IndexOf(os, id)].quantity else 0
  }

  lemma {:induction false} TradedConcat(a: seq<Event>, b: seq<Event>, id: uint64)
    ensures Traded(a + b, id) == Traded(a, id) + Traded(b, id)
    ensures Filled(a + b, id) == Filled(a, id) + Filled(b, id)
  {
    if a == [] {
      assert a + b == b;
    } else {
      assert (a + b)[1..] == a[1..] + b;
      TradedConcat(a[1..], b, id);
    }
  }

  /** The three callbacks of one trade. */
  lemma TradeEvents(id: uint64, side: Side, o: Order, q: uint32, c: bool, d: bool, x: uint64)
    ensures Traded(FillEvents(id, side, o, q, c, d), x) == if x == o.id then q else 0
    ensures Filled(FillEvents(id, side, o, q, c, d), x) == (if x == o.id then q else 0) + (if x == id then q else 0)
  {
    var f := FillEvents(id, side, o, q, c, d);
    assert f == [f[0]] + ([f[1]] + [f[2]]);
    TradedConcat([f[0]], [f[1]] + [f[2]], x);
    TradedConcat([f[1]], [f[2]], x);
  }

  /** The resting queue after a match is a suffix of the one before, its first order perhaps smaller. */
  lemma {:induction false} MatchSuffix(id: uint64, side: Side, quantity: uint32, limit: int, os: seq<Order>)
    ensures var r := Match(id, side, quantity, limit, os).resting;
      && |r| <= |os|
      && (r == os[|os| - |r|..] || PartOf(r, os[|os| - |r|..]))
  {
    hide FillEvents, Crosses;
    if quantity == 0 || os == [] || !Crosses(side, limit, os[0].price) {
    } else if os[0].quantity <= quantity {
      var r := Match(id, side, quantity - os[0].quantity, limit, os[1..]).resting;
      MatchSuffix(id, side, quantity - os[0].quantity, limit, os[1..]);
      assert os[1..][|os| - 1 - |r|..] == os[|os| - |r|..];
      hide PartOf, PartlyFilled;
    } else {
      assert PartOf([PartlyFilled(os[0], quantity)] + os[1..], os);
    }
  }

  /** The same queue, the first order filled in part. */
  ghost predicate PartOf(r: seq<Order>, os: seq<Order>) {
    && r != [] && os != [] && r[1..] == os[1..]
    && exists q: uint32 :: 0 < q < os[0].quantity && r[0] == PartlyFilled(os[0], q)
  }

  lemma Tail(os: seq<Order>, side: Side)
    requires os != []
    ensures Prioritised(os, side) ==> Prioritised(os[1..], side)
    ensures UniqueIds(os) ==> UniqueIds(os[1..]) && !Has(os[1..], os[0].id)
  {
    var r := os[1..];
    assert forall i {:trigger r[i]} :: 0 <= i < |r| ==> r[i] == os[i + 1];
  }

  /** With anything left over, nothing that crosses is left resting. */
  lemma {:induction false} MatchExhausts(id: uint64, side: Side, quantity: uint32, limit: int, os: seq<Order>)
    requires Prioritised(os, Opposite(side))
    ensures var m := Match(id, side, quantity, limit, os);
      m.left > 0 ==> forall i :: 0 <= i < |m.resting| ==> !Crosses(side, limit, m.resting[i].price)
  {
    hide Prioritised, PartlyFilled, FillEvents, Crosses;
    if quantity == 0 || os == [] {
    } else if !Crosses(side, limit, os[0].price) {
      NothingCrosses(os, side, limit);
    } else if os[0].quantity <= quantity {
      Tail(os, Opposite(side));
      MatchExhausts(id, side, quantity - os[0].quantity, limit, os[1..]);
    }
  }

  lemma NothingCrosses(os: seq<Order>, side: Side, limit: int)
    requires Prioritised(os, Opposite(side)) && os != [] && !Crosses(side, limit, os[0].price)
    ensures forall i :: 0 <= i < |os| ==> !Crosses(side, limit, os[i].price)
  {
    forall i | 0 < i < |os| ensures !Crosses(side, limit, os[i].price) {
      assert !Better(Opposite(side), os[i].price, os[0].price);
    }
  }

  lemma {:induction false} CrossingNone(os: seq<Order>, side: Side, limit: int)
    requires Prioritised(os, Opposite(side))
    requires os != [] ==> !Crosses(side, limit, os[0].price)
    ensures Crossing(os, side, limit) == 0
  {
    if |os| > 1 {
      assert !Better(Opposite(side), os[1].price, os[0].price);
      CrossingNone(os[1..], side, limit);
    }
  }

  /** The incoming order trades the lesser of its quantity and everything that crosses. */
  lemma {:induction false} MatchFillsAllItCan(id: uint64, side: Side, quantity: uint32, limit: int, os: seq<Order>)
    requires Prioritised(os, Opposite(side))
    ensures Match(id, side, quantity, limit, os).left == quantity - Min(quantity, Crossing(os, side, limit))
  {
    if quantity == 0 || os == [] {
    } else if !Crosses(side, limit, os[0].price) {
      CrossingNone(os, side, limit);
    } else if os[0].quantity <= quantity {
      MatchFillsAllItCan(id, side, quantity - os[0].quantity, limit, os[1..]);
    }
  }

  /** Every resting order trades exactly its share, and what remains of it is the rest. */
  lemma {:induction false} MatchSharesByPriority(id: uint64, side: Side, quantity: uint32, limit: int, os: seq<Order>, k: nat)
    requires Prioritised(os, Opposite(side)) && UniqueIds(os) && k < |os| && id != os[k].id
    ensures var m := Match(id, side, quantity, limit, os);
      && Traded(m.events, os[k].id) == Filled(m.events, os[k].id) == Share(os, side, quantity, limit, k)
      && Left(m.resting, os[k].id) == os[k].quantity - Share(os, side, quantity, limit, k)
    decreases |os|
  {
    hide Prioritised, UniqueIds, Traded, Filled, IndexOf, Crosses, Crossing, FillEvents;
    var o := os[0];
    if quantity == 0 || !Crosses(side, limit, o.price) {
      Untouched(id, side, quantity, limit, os, k);
    } else if o.quantity <= quantity {
      Tail(os, Opposite(side));
      ConsumedFirst(id, side, quantity, limit, os, os[k].id);
      if k == 0 {
        NothingElse(id, side, quantity - o.quantity, limit, os[1..], o.id);
        ShareOfFirst(os, side, quantity, limit);
      } else {
        MatchSharesByPriority(id, side, quantity - o.quantity, limit, os[1..], k - 1);
        ShareOfTail(os, side, quantity, limit, k);
        DistinctFromFirst(os, k);
      }
    } else {
      PartlyConsumed(id, side, quantity, limit, os, k);
    }
  }

  lemma DistinctFromFirst(os: seq<Order>, k: nat)
    requires UniqueIds(os) && 0 < k < |os|
    ensures os[k].id != os[0].id
  {}

  lemma ShareOfFirst(os: seq<Order>, side: Side, quantity: uint32, limit: int)
    requires os != [] && Crosses(side, limit, os[0].price)
    ensures Share(os, side, quantity, limit, 0) == Min(os[0].quantity, quantity)
  {
    assert os[..0] == [];
  }

  lemma Untouched(id: uint64, side: Side, quantity: uint32, limit: int, os: seq<Order>, k: nat)
    requires Prioritised(os, Opposite(side)) && UniqueIds(os) && k < |os|
    requires quantity == 0 || !Crosses(side, limit, os[0].price)
    ensures var m := Match(id, side, quantity, limit, os);
      && Traded(m.events, os[k].id) == Filled(m.events, os[k].id) == Share(os, side, quantity, limit, k) == 0
      && Left(m.resting, os[k].id) == os[k].quantity
  {
    IndexIsUnique(os, k);
    if quantity != 0 && k > 0 {
      assert !Better(Opposite(side), os[k].price, os[0].price);
    }
  }

  /** The share of an order behind the first is its share of what the first leaves. */
  lemma ShareOfTail(os: seq<Order>, side: Side, quantity: uint32, limit: int, k: nat)
    requires 0 < k < |os| && Crosses(side, limit, os[0].price)
    ensures Share(os, side, quantity, limit, k)
      == if os[0].quantity <= quantity then Share(os[1..], side, quantity - os[0].quantity, limit, k - 1) else 0
  {
    assert os[..k][0] == os[0] && os[..k][1..] == os[1..][..k - 1];
  }

  lemma ConsumedFirst(id: uint64, side: Side, quantity: uint32, limit: int, os: seq<Order>, x: uint64)
    requires os != [] && 0 < quantity && os[0].quantity <= quantity && Crosses(side, limit, os[0].price)
    ensures var m, rest := Match(id, side, quantity, limit, os), Match(id, side, quantity - os[0].quantity, limit, os[1..]);
      && m.resting == rest.resting
      && Traded(m.events, x) == Traded(rest.events, x) + (if x == os[0].id then os[0].quantity else 0)
      && Filled(m.events, x) == Filled(rest.events, x) + (if x == os[0].id then os[0].quantity else 0)
                                                      + (if x == id then os[0].quantity else 0)
  {
    var o := os[0];
    var f := FillEvents(id, side, o, o.quantity, true, quantity == o.quantity);
    TradedConcat(f, Match(id, side, quantity - o.quantity, limit, os[1..]).events, x);
    TradeEvents(id, side, o, o.quantity, true, quantity == o.quantity, x);
  }

  lemma PartlyConsumed(id: uint64, side: Side, quantity: uint32, limit: int, os: seq<Order>, k: nat)
    requires Prioritised(os, Opposite(side)) && UniqueIds(os) && k < |os| && id != os[k].id
    requires 0 < quantity < os[0].quantity && Crosses(side, limit, os[0].price)
    ensures var m := Match(id, side, quantity, limit, os);
      && Traded(m.events, os[k].id) == Filled(m.events, os[k].id) == Share(os, side, quantity, limit, k)
      && Left(m.resting, os[k].id) == os[k].quantity - Share(os, side, quantity, limit, k)
  {
    hide Prioritised;
    var m := Match(id, side, quantity, limit, os);
    TradeEvents(id, side, os[0], quantity, false, true, os[k].id);
    FillPreserves(os, quantity, Opposite(side));
    IndexIsUnique(m.resting, k);
    if k > 0 {
      ShareOfTail(os, side, quantity, limit, k);
    }
  }

  /** A match never mentions an order that is neither resting there nor incoming. */
  lemma {:induction false} NothingElse(id: uint64, side: Side, quantity: uint32, limit: int, os: seq<Order>, x: uint64)
    requires !Has(os, x) && x != id
    ensures var m := Match(id, side, quantity, limit, os);
      Traded(m.events, x) == 0 && Filled(m.events, x) == 0 && !Has(m.resting, x)
  {
    if quantity == 0 || os == [] || !Crosses(side, limit, os[0].price) {
    } else if os[0].quantity <= quantity {
      ConsumedFirst(id, side, quantity, limit, os, x);
      NothingElse(id, side, quantity - os[0].quantity, limit, os[1..], x);
    } else {
      TradeEvents(id, side, os[0], quantity, false, true, x);
      var r := Match(id, side, quantity, limit, os).resting;
      assert r[1..] == os[1..];
    }
  }

  /** What the incoming order is told it got is what it no longer has. */
  lemma {:induction false} MatchConserves(id: uint64, side: Side, quantity: uint32, limit: int, os: seq<Order>)
    requires !Has(os, id)
    ensures var m := Match(id, side, quantity, limit, os);
      Filled(m.events, id) + m.left == quantity && Traded(m.events, id) == 0
  {
    if quantity == 0 || os == [] || !Crosses(side, limit, os[0].price) {
    } else if os[0].quantity <= quantity {
      ConsumedFirst(id, side, quantity, limit, os, id);
      MatchConserves(id, side, quantity - os[0].quantity, limit, os[1..]);
    } else {
      TradeEvents(id, side, os[0], quantity, false, true, id);
    }
  }

  /** The trades of a match, in the order they were published. */
  function Trades(events: seq<Event>): seq<Event> {
    if events == [] then [] else (if events[0].OnTrade? then [events[0]] else []) + Trades(events[1..])
  }

  lemma {:induction false} TradesConcat(a: seq<Event>, b: seq<Event>)
    ensures Trades(a + b) == Trades(a) + Trades(b)
  {
    if a == [] {
      assert a + b == b;
    } else {
      assert (a + b)[1..] == a[1..] + b;
      TradesConcat(a[1..], b);
    }
  }

  /** One turn of the loop publishes one trade, and the turns behind it follow. */
  lemma {:induction false} TradesOfTurn(id: uint64, side: Side, quantity: uint32, limit: int, os: seq<Order>)
    requires quantity > 0 && os != [] && Crosses(side, limit, os[0].price)
    ensures var o := os[0]; var trade := OnTrade(o.id, Min(o.quantity, quantity), o.price);
      Trades(Match(id, side, quantity, limit, os).events) == [trade] +
        (if o.quantity <= quantity then Trades(Match(id, side, quantity - o.quantity, limit, os[1..]).events) else [])
  {
    var o := os[0];
    var closed := o.quantity <= quantity;
    var f := FillEvents(id, side, o, Min(o.quantity, quantity), closed, quantity <= o.quantity);
    assert f == [f[0]] + ([f[1]] + [f[2]]);
    TradesConcat([f[0]], [f[1]] + [f[2]]);
    TradesConcat([f[1]], [f[2]]);
    if closed {
      TradesConcat(f, Match(id, side, quantity - o.quantity, limit, os[1..]).events);
    }
  }

  /** Trades take the queue from its front, each at the resting price and within the limit. */
  lemma {:induction false} MatchTradesInPriority(id: uint64, side: Side, quantity: uint32, limit: int, os: seq<Order>)
    requires forall i :: 0 <= i < |os| ==> os[i].quantity > 0
    ensures var t := Trades(Match(id, side, quantity, limit, os).events);
      && |t| <= |os|
      && forall i :: 0 <= i < |t| ==>
        && t[i].OnTrade? && t[i].id == os[i].id && t[i].price == os[i].price && Crosses(side, limit, t[i].price)
        && 0 < t[i].quantity <= os[i].quantity
        && (i + 1 < |t| ==> t[i].quantity == os[i].quantity)
  {
    if quantity == 0 || os == [] || !Crosses(side, limit, os[0].price) {
    } else {
      TradesOfTurn(id, side, quantity, limit, os);
      hide Match, Trades, Crosses;
      var o := os[0];
      if o.quantity <= quantity {
        MatchTradesInPriority(id, side, quantity - o.quantity, limit, os[1..]);
      }
    }
  }

  // ----- every callback of a match -----

  /** How many orders of the queue trade. */
  function Trading(os: seq<Order>, side: Side, quantity: uint32, limit: int): (n: nat)
    ensures n <= |os|
    decreases |os|
  {
    if quantity == 0 || os == [] || !Crosses(side, limit, os[0].price) then 0
    else 1 + (if os[0].quantity <= quantity then Trading(os[1..], side, quantity - os[0].quantity, limit) else 0)
  }

  /** What the trade with one resting order is reported as, `last` when it is the one that leaves nothing of the incoming order. */
  ghost predicate ReportedAs(events: seq<Event>, at: nat, id: uint64, side: Side, o: Order, q: int, last: bool)
    requires at + 2 < |events|
  {
    && events[at].OnTrade? && events[at].id == o.id && events[at].quantity == q && events[at].price == o.price
    && events[at + 1].OnFill? && events[at + 1].id == o.id && events[at + 1].side == o.side && !events[at + 1].active
    && events[at + 1].quantity == q && events[at + 1].price == o.price && (events[at + 1].closed <==> q == o.quantity)
    && events[at + 2].OnFill? && events[at + 2].id == id && events[at + 2].side == side && events[at + 2].active
    && events[at + 2].quantity == q && events[at + 2].price == o.price && (events[at + 2].closed <==> last)
  }

  /** Reports are found three further on behind those of the first order. */
  lemma ReportsShift(f: seq<Event>, rest: seq<Event>, at: nat, id: uint64, side: Side, o: Order, q: int, last: bool)
    requires |f| == 3 && at + 2 < |rest|
    ensures ReportedAs(f + rest, at + 3, id, side, o, q, last) == ReportedAs(rest, at, id, side, o, q, last)
  {
    var e := f + rest;
    assert e[at + 3] == rest[at] && e[at + 4] == rest[at + 1] && e[at + 5] == rest[at + 2];
  }

  lemma ReportsFirst(id: uint64, side: Side, quantity: uint32, limit: int, os: seq<Order>)
    requires 0 < quantity && os != [] && Crosses(side, limit, os[0].price) && os[0].quantity > 0
    ensures var m, n := Match(id, side, quantity, limit, os), Trading(os, side, quantity, limit);
      && |m.events| >= 3 && n >= 1
      && ReportedAs(m.events, 0, id, side, os[0], Min(os[0].quantity, quantity), n == 1 && m.left == 0)
  {
    hide Crosses;
    var o := os[0];
    var closed := o.quantity <= quantity;
    var f := FillEvents(id, side, o, Min(o.quantity, quantity), closed, quantity <= o.quantity);
    var rest := if closed then Match(id, side, quantity - o.quantity, limit, os[1..]).events else [];
    assert Match(id, side, quantity, limit, os).events == f + rest;
    assert (f + rest)[0] == f[0] && (f + rest)[1] == f[1] && (f + rest)[2] == f[2];
  }

  /**
   The callbacks of a match, all of them: for each order that trades, from the front, its trade and the two fills, of
   exactly its share, at its own price; a fill is the resting order's last when the share is all of it, the incoming
   order's last when it is the last and nothing is left.
   */
  lemma {:induction false} MatchReports(id: uint64, side: Side, quantity: uint32, limit: int, os: seq<Order>, k: nat)
    requires Prioritised(os, Opposite(side)) && UniqueIds(os) && (forall i :: 0 <= i < |os| ==> os[i].quantity > 0)
    requires k < |os|
    ensures var m, n := Match(id, side, quantity, limit, os), Trading(os, side, quantity, limit);
      && |m.events| == 3 * n && (k < n <==> Share(os, side, quantity, limit, k) > 0)
      && (k < n ==> ReportedAs(m.events, 3 * k, id, side, os[k], Share(os, side, quantity, limit, k), k == n - 1 && m.left == 0))
    decreases |os|
  {
    hide Prioritised, UniqueIds, IndexOf, Crosses, Crossing, ReportedAs;
    if quantity == 0 || !Crosses(side, limit, os[0].price) {
      Untouched(id, side, quantity, limit, os, k);
    } else if os[0].quantity <= quantity {
      Tail(os, Opposite(side));
      ShareOfFirst(os, side, quantity, limit);
      var t, left := os[1..], quantity - os[0].quantity;
      var f := FillEvents(id, side, os[0], os[0].quantity, true, left == 0);
      var rest := Match(id, side, left, limit, t);
      assert Match(id, side, quantity, limit, os).events == f + rest.events;
      ReportsFirst(id, side, quantity, limit, os);
      if k > 0 {
        MatchReports(id, side, left, limit, t, k - 1);
        ShareOfTail(os, side, quantity, limit, k);
        if k - 1 < Trading(t, side, left, limit) {
          var q := Share(os, side, quantity, limit, k);
          ReportsShift(f, rest.events, 3 * (k - 1), id, side, os[k], q, k - 1 == Trading(t, side, left, limit) - 1 && rest.left == 0);
        }
      } else if t != [] {
        MatchReports(id, side, left, limit, t, 0);
      }
    } else {
      ShareOfFirst(os, side, quantity, limit);
      if k > 0 {
        ShareOfTail(os, side, quantity, limit, k);
      }
      ReportsFirst(id, side, quantity, limit, os);
    }
  }
}
