/** The clearing house: fills in two legs, and the ledger that must come out at zero over all clients. */
module Clearing {
  import opened ExchangeTypes
  import opened BookSpec
  import opened BookTheorems
  import opened BrokerSpec
  import opened BrokerTheorems
  import opened BrokerLog
  import opened Lifecycle
  import HandlerSpec

  // ----- every trade is reported in two opposite legs -----

  predicate Legs(a: ClearingFill, b: ClearingFill) {
    a.symbol == b.symbol && a.quantity == b.quantity && a.price == b.price && a.side == Opposite(b.side)
  }

  predicate Paired(fills: seq<ClearingFill>) {
    fills == [] || (|fills| >= 2 && Legs(fills[0], fills[1]) && Paired(fills[2..]))
  }

  lemma {:induction false} PairedConcat(a: seq<ClearingFill>, b: seq<ClearingFill>)
    requires Paired(a) && Paired(b)
    ensures Paired(a + b)
  {
    if a == [] {
      assert a + b == b;
    } else {
      assert (a + b)[2..] == a[2..] + b;
      PairedConcat(a[2..], b);
    }
  }

  lemma {:induction false} ClearedConcat(c: Context, a: seq<Event>, b: seq<Event>)
    requires AllAttributable(c.owners, a) && AllAttributable(c.owners, b)
    ensures AllAttributable(c.owners, a + b)
    ensures Cleared(c, a + b) == Cleared(c, a) + Cleared(c, b)
  {
    if a == [] {
      assert a + b == b;
    } else {
      assert (a + b)[1..] == a[1..] + b;
      ClearedConcat(c, a[1..], b);
    }
  }

  lemma SplitAttributable(owners: Owners, a: seq<Event>, b: seq<Event>)
    requires AllAttributable(owners, a + b)
    ensures AllAttributable(owners, a) && AllAttributable(owners, b)
  {
    assert forall i :: 0 <= i < |a| ==> a[i] == (a + b)[i];
    assert forall i :: 0 <= i < |b| ==> b[i] == (a + b)[|a| + i];
  }

  lemma {:induction false} MatchClearsInPairs(c: Context, id: uint64, side: Side, quantity: uint32, limit: int, os: seq<Order>)
    requires forall i :: 0 <= i < |os| ==> os[i].side == Opposite(side)
    requires AllAttributable(c.owners, Match(id, side, quantity, limit, os).events)
    ensures Paired(Cleared(c, Match(id, side, quantity, limit, os).events))
  {
    hide Cleared, Paired, FillEvents, Attributable, Crosses, AllAttributable;
    if quantity == 0 || os == [] || !Crosses(side, limit, os[0].price) {
      NothingCleared(c, []);
      PairedNone();
    } else {
      var o, closed := os[0], os[0].quantity <= quantity;
      var traded := if closed then o.quantity else quantity;
      var f := FillEvents(id, side, o, traded, closed, quantity <= o.quantity);
      var rest := if closed then Match(id, side, quantity - o.quantity, limit, os[1..]).events else [];
      assert Match(id, side, quantity, limit, os).events == f + rest;
      SplitAttributable(c.owners, f, rest);
      FillClears(c, id, side, o, traded, closed, quantity <= o.quantity);
      if closed {
        MatchClearsInPairs(c, id, side, quantity - o.quantity, limit, os[1..]);
        ClearedConcat(c, f, rest);
        PairedConcat(Cleared(c, f), Cleared(c, rest));
      } else {
        assert f + rest == f;
      }
    }
  }

  lemma PairedNone()
    ensures Paired([])
  {}

  lemma FillClears(c: Context, id: uint64, side: Side, o: Order, q: uint32, x: bool, y: bool)
    requires o.side == Opposite(side) && AllAttributable(c.owners, FillEvents(id, side, o, q, x, y))
    ensures Paired(Cleared(c, FillEvents(id, side, o, q, x, y)))
  {
    var f := FillEvents(id, side, o, q, x, y);
    assert f == [f[0]] + ([f[1]] + [f[2]]);
    ClearedConcat(c, [f[1]], [f[2]]);
    ClearedConcat(c, [f[0]], [f[1]] + [f[2]]);
    var legs := Cleared(c, f);
    assert |legs| == 2 && legs[2..] == [];
  }

  /** Callbacks that are not fills clear nothing. */
  lemma {:induction false} NothingCleared(c: Context, events: seq<Event>)
    requires forall i :: 0 <= i < |events| ==> !events[i].OnFill?
    ensures AllAttributable(c.owners, events) && Cleared(c, events) == []
  {
    if events != [] {
      NothingCleared(c, events[1..]);
    }
  }

  lemma AppendQuiet(c: Context, fills: seq<Event>, quiet: seq<Event>)
    requires AllAttributable(c.owners, fills) && Paired(Cleared(c, fills))
    requires forall i :: 0 <= i < |quiet| ==> !quiet[i].OnFill?
    ensures AllAttributable(c.owners, fills + quiet) && Paired(Cleared(c, fills + quiet))
  {
    NothingCleared(c, quiet);
    ClearedConcat(c, fills, quiet);
    assert Cleared(c, fills) + [] == Cleared(c, fills);
  }

  lemma HandleClearsInPairs(c: Context, b: Book, id: uint64, side: Side, quantity: uint32, price: int, flags: uint8,
                            notify: bool, filled: uint32)
    requires WellFormed(b)
    requires AllAttributable(c.owners, HandleNewOrder(b, id, side, quantity, price, flags, notify, filled).events)
    ensures Paired(Cleared(c, HandleNewOrder(b, id, side, quantity, price, flags, notify, filled).events))
  {
    hide *;
    var quiet := HandleSplits(b, id, side, quantity, price, flags, notify, filled);
    var ev := HandleNewOrder(b, id, side, quantity, price, flags, notify, filled).events;
    if quantity <= filled {
      NothingCleared(c, ev);
      PairedNone();
    } else {
      var os := SideOf(b, Opposite(side));
      var m := Match(id, side, quantity - filled, price, os).events;
      SplitAttributable(c.owners, m, quiet);
      SidesOpposed(b, side);
      MatchClearsInPairs(c, id, side, quantity - filled, price, os);
      AppendQuiet(c, m, quiet);
    }
  }

  /** The callbacks of an entry: those of its match, then some that are not fills. */
  lemma HandleSplits(b: Book, id: uint64, side: Side, quantity: uint32, price: int, flags: uint8, notify: bool, filled: uint32)
    returns (quiet: seq<Event>)
    ensures var ev := HandleNewOrder(b, id, side, quantity, price, flags, notify, filled).events;
      if quantity <= filled then ev == []
      else ev == Match(id, side, quantity - filled, price, SideOf(b, Opposite(side))).events + quiet
    ensures forall i :: 0 <= i < |quiet| ==> !quiet[i].OnFill?
  {
    hide Match, InBook, Insert;
    quiet := [];
    if quantity > filled {
      var m := Match(id, side, quantity - filled, price, SideOf(b, Opposite(side))).events;
      quiet := HandleNewOrder(b, id, side, quantity, price, flags, notify, filled).events[|m|..];
    }
  }

  lemma SidesOpposed(b: Book, side: Side)
    requires WellFormed(b)
    ensures var os := SideOf(b, Opposite(side)); forall i :: 0 <= i < |os| ==> os[i].side == Opposite(side)
  {}

  /** Whatever the request, the fills sent to clearing come in opposite legs of one size and price. */
  lemma RequestClearsInPairs(c: Context, b: Book, req: Request)
    requires WellFormed(b) && AllAttributable(c.owners, Apply(b, req).events)
    ensures Paired(Cleared(c, Apply(b, req).events))
  {
    hide HandleNewOrder, WellFormed, InBook, Find, RemoveFromBook, RequantifyInBook;
    var ev := Apply(b, req).events;
    match req
    case New(id, side, quantity, price, flags) =>
      HandleClearsInPairs(c, b, id, side, quantity, price, flags, true, 0);
    case Delete(id) =>
      NothingCleared(c, ev);
    case Modify(id, side, quantity, price) =>
      if !InBook(b, id) || Find(b, id).filled >= quantity || (Find(b, id).price == price && Find(b, id).side == side) {
        NothingCleared(c, ev);
      } else {
        RemoveFromBookKeeps(b, id);
        var o := Find(b, id);
        var m := HandleNewOrder(RemoveFromBook(b, id), id, side, quantity, price, o.flags, false, o.filled).events;
        assert ev == m + ev[|m|..];
        SplitAttributable(c.owners, m, ev[|m|..]);
        HandleClearsInPairs(c, RemoveFromBook(b, id), id, side, quantity, price, o.flags, false, o.filled);
        AppendQuiet(c, m, ev[|m|..]);
      }
  }

  // ----- whose leg it is -----

  /** The fills among the callbacks, in order. */
  function FillCallbacks(events: seq<Event>): seq<Event> {
    if events == [] then [] else (if events[0].OnFill? then [events[0]] else []) + FillCallbacks(events[1..])
  }

  lemma {:induction false} ClearedAre(c: Context, events: seq<Event>, k: nat)
    requires AllAttributable(c.owners, events)
    ensures |Cleared(c, events)| == |FillCallbacks(events)|
    ensures k < |FillCallbacks(events)| ==>
      var f, e := Cleared(c, events)[k], FillCallbacks(events)[k];
      && e in events && e.OnFill? && (e.active || Low32(e.id) in c.owners)
      && f.symbol == c.symbol && f.quantity == e.quantity && f.price == e.price && f.side == e.side
      && f.client == if e.active then c.client else c.owners[Low32(e.id)]
  {
    hide Low32;
    if events != [] {
      if events[0].OnFill? {
        ClearedAre(c, events[1..], if k > 0 then k - 1 else 0);
      } else {
        ClearedAre(c, events[1..], k);
      }
    }
  }

  /**
   What a request sends to clearing is, fill by fill, what its ladder filled: the request's symbol, the fill's quantity,
   price and side, and the client that asked or, for a passive fill, the one that had entered the order.
   */
  lemma ClearedRight(st: BrokerState, owner: TrueOwners, p: Payload, k: nat)
    requires Sound(st, owner) && Entitled(st, p) && NoCollision(st, owner, p) && p.kind != RejectKind
    ensures var filled := FillCallbacks(Apply(st.books[p.symbol], RequestOf(p)).events);
      var fills := BrokerApply(st, p).0.fills;
      && |fills| == |st.fills| + |filled| && st.fills <= fills
      && (k < |filled| ==>
          var f, e := fills[|st.fills| + k], filled[k];
          && e.OnFill? && f.symbol == p.symbol && f.quantity == e.quantity && f.price == e.price && f.side == e.side
          && if e.active then f.client == p.client else e.id in owner && f.client == owner[e.id])
  {
    hide BookIds, WellFormed, Apply, Low32, Disjoint, InBook, Cleared, Rests;
    var b, req := st.books[p.symbol], RequestOf(p);
    var ev, owners := Apply(b, req).events, BrokerApply(st, p).0.owners;
    NeverThrows(st, owner, p);
    RequestOutcome(st, owner, p);
    ApplyEventsIn(b, req);
    if p.kind.NewOrderKind? {
      AttributionExact(st, owner, p);
    }
    assert ev[..|ev|] == ev;
    assert FillsRight(owners, ev, owner);
    ClearedAre(Context(owners, p.symbol, p.clientSeq, p.client), ev, k);
  }

  lemma FillsStayPaired(st: BrokerState, p: Payload)
    requires Owned(st) && Entitled(st, p) && Paired(st.fills)
    ensures Paired(BrokerApply(st, p).0.fills)
  {
    hide BookIds, WellFormed, Apply, Low32, Disjoint, Paired, NoCollision, Rests;
    OwnedStays(st, p);
    if p.kind.RejectKind? {
      RejectPasses(st, p);
    } else {
      var b, req := st.books[p.symbol], RequestOf(p);
      var ev := Apply(b, req).events;
      assert ev[..|ev|] == ev;
      var c := Context(BrokerApply(st, p).0.owners, p.symbol, p.clientSeq, p.client);
      RequestClearsInPairs(c, b, req);
      PairedConcat(st.fills, Cleared(c, ev));
    }
  }

  /** Over any run of requests, everything sent to the clearing house is a sequence of matched legs. */
  lemma {:induction false} RunClearsInPairs(symbols: set<uint32>, ps: seq<Payload>)
    requires EntitledRun(Idle(symbols), ps)
    ensures Paired(RunBroker(Idle(symbols), ps).st.fills)
  {
    hide Entitled, BrokerApply, Owned, EntitledRun, RunBroker;
    if ps == [] {
      RunNothing(Idle(symbols));
    } else {
      var q := ps[..|ps| - 1];
      RunPrefix(Idle(symbols), ps);
      RunClearsInPairs(symbols, q);
      RunOwned(symbols, q);
      FillsStayPaired(RunBroker(Idle(symbols), q).st, ps[|ps| - 1]);
    }
  }

  lemma StepClearsInPairs(s: System, rules: HandlerSpec.Rules, step: Step)
    requires Inv(s) && Enabled(s, step) && Paired(s.broker.fills)
    ensures Paired(Next(s, rules, step).broker.fills)
  {
    if step.EngineStep? {
      assert s.handler.toEngine != [];
      assert Next(s, rules, step).broker == BrokerApply(s.broker, s.handler.toEngine[0]).0;
      hide *;
      InvParts(s);
      ShelvedIsOwned(s.broker, s.issued);
      HeadIsEntitled(s);
      FillsStayPaired(s.broker, s.handler.toEngine[0]);
    } else {
      hide HandlerSpec.Login, HandlerSpec.NewOrder, HandlerSpec.DeleteOrder, HandlerSpec.ModifyOrder, HandlerSpec.SocketClosed, HandlerSpec.Handle;
      assert Next(s, rules, step).broker.fills == s.broker.fills;
    }
  }

  /** And so it is in every interleaving of clients, handler and broker. */
  lemma {:induction false} InterleavingClearsInPairs(s: System, rules: HandlerSpec.Rules, steps: seq<Step>)
    requires Inv(s) && rules.Keys <= s.broker.books.Keys && Possible(s, rules, steps) && Paired(s.broker.fills)
    ensures Paired(After(s, rules, steps).broker.fills)
    decreases |steps|
  {
    hide Inv, Enabled, Next, Paired;
    if steps != [] {
      InvStays(s, rules, steps[0]);
      StepClearsInPairs(s, rules, steps[0]);
      InterleavingClearsInPairs(Next(s, rules, steps[0]), rules, steps[1..]);
    }
  }
}
