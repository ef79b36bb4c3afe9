/** The market data log of the whole exchange against all its ladders, over every run of the broker. */
module BrokerLog {
  import opened ExchangeTypes
  import opened BookSpec
  import opened BookTheorems
  import opened MarketData
  import opened Markets
  import opened Replication
  import opened BrokerSpec
  import opened BrokerTheorems

  /** A stretch of log about one symbol: only ids of that symbol, at most one new order, at the front. */
  ghost predicate AboutOne(g: Market, seg: seq<MdMsg>, s: uint32, ids: set<uint64>) {
    && (forall i :: 0 <= i < |seg| ==> HasId(seg[i]) ==> seg[i].id in ids)
    && (forall i :: 0 <= i < |seg| ==> seg[i].MdNew? ==> i == 0 && seg[i].symbol == s && seg[i].id !in g)
    && (forall x :: x in ids && x in g ==> g[x].symbol == s)
  }

  /** Such a stretch moves that symbol's orders and no other's. */
  lemma {:induction false} SegmentOf(g: Market, seg: seq<MdMsg>, s: uint32, ids: set<uint64>)
    requires AboutOne(g, seg, s, ids)
    ensures AllFresh(g, seg)
    ensures Of(Markets.Replay(g, seg), s) == ReplayQuotes(Of(g, s), seg)
    ensures forall t :: t != s ==> Of(Markets.Replay(g, seg), t) == Of(g, t)
    decreases |seg|
  {
    if seg != [] {
      var g' := ApplyMarket(g, seg[0]);
      var tail := seg[1..];
      assert forall i {:trigger tail[i]} :: 0 <= i < |tail| ==> tail[i] == seg[i + 1];
      SegmentOf(g', tail, s, ids);
      ApplyOf(g, seg[0], s);
      if Subject(g, seg[0]) != Some(s) {
        Ignored(g, seg[0], s);
      }
      forall t | t != s ensures Of(g', t) == Of(g, t) {
        ApplyOf(g, seg[0], t);
      }
    }
  }

  lemma Ignored(g: Market, msg: MdMsg, s: uint32)
    requires Fresh(g, msg) && Subject(g, msg) != Some(s)
    requires HasId(msg) ==> Subject(g, msg) == None
    ensures ApplyQuote(Of(g, s), msg) == Of(g, s)
  {}

  // ----- what one request publishes is about its own symbol -----

  ghost predicate NoNews(events: seq<Event>) {
    forall i :: 0 <= i < |events| ==> !events[i].OnNewOrder?
  }

  lemma {:induction false} ImmediateShape(symbol: uint32, events: seq<Event>, ids: set<uint64>)
    requires EventsIn(events, ids)
    ensures forall i :: 0 <= i < |Immediate(symbol, events)| ==>
      var msg := Immediate(symbol, events)[i]; HasId(msg) && msg.id in ids && (NoNews(events) ==> !msg.MdNew?)
  {
    if events != [] {
      ImmediateShape(symbol, events[1..], ids);
    }
  }

  lemma {:induction false} QueuedShape(events: seq<Event>, ids: set<uint64>)
    requires EventsIn(events, ids)
    ensures forall i :: 0 <= i < |QueuedTrades(events)| ==>
      var msg := QueuedTrades(events)[i]; msg.MdTrade? && msg.id in ids
  {
    if events != [] {
      QueuedShape(events[1..], ids);
    }
  }

  lemma {:induction false} MatchHasNoNews(id: uint64, side: Side, quantity: uint32, limit: int, os: seq<Order>)
    ensures NoNews(Match(id, side, quantity, limit, os).events)
  {
    if quantity == 0 || os == [] || !Crosses(side, limit, os[0].price) {
    } else if os[0].quantity <= quantity {
      MatchHasNoNews(id, side, quantity - os[0].quantity, limit, os[1..]);
    }
  }

  lemma ModifyHasNoNews(b: Book, req: Request)
    requires !req.New?
    ensures NoNews(Apply(b, req).events)
  {
    hide Match, Insert, RemoveFromBook, Find, InBook;
    if req.Modify? && InBook(b, req.id) {
      var o, b1 := Find(b, req.id), RemoveFromBook(b, req.id);
      if req.quantity > o.filled {
        MatchHasNoNews(req.id, req.side, req.quantity - o.filled, req.price, SideOf(b1, Opposite(req.side)));
      }
    }
  }

  /** What a new order publishes at once is at most itself. */
  lemma NewImmediate(b: Book, req: Request, symbol: uint32)
    requires req.New? && req.quantity > 0
    ensures var imm := Immediate(symbol, Apply(b, req).events);
      |imm| <= 1 && forall i :: 0 <= i < |imm| ==> imm[i].MdNew? && imm[i].symbol == symbol && imm[i].id == req.id
  {
    hide Match, Insert, InBook;
    var opp := SideOf(b, Opposite(req.side));
    var m := Match(req.id, req.side, req.quantity, req.price, opp);
    ImmediateOfMatch(symbol, req.id, req.side, req.quantity, req.price, opp);
    var ev := Apply(b, req).events;
    assert ev == m.events + ev[|m.events|..];
    ImmediateConcat(symbol, m.events, ev[|m.events|..]);
  }

  /** A first message of its own and later ones that announce nothing new. */
  lemma JoinedAboutOne(g: Market, imm: seq<MdMsg>, rest: seq<MdMsg>, s: uint32, ids: set<uint64>)
    requires AboutOne(g, imm, s, ids)
    requires forall i :: 0 <= i < |rest| ==> !rest[i].MdNew? && (HasId(rest[i]) ==> rest[i].id in ids)
    ensures AboutOne(g, imm + rest, s, ids)
  {}

  lemma SummaryAbout(symbol: uint32, aggressor: Side, trades: seq<MdMsg>, ids: set<uint64>)
    requires forall i :: 0 <= i < |trades| ==> trades[i].MdTrade? && trades[i].id in ids
    ensures forall i :: 0 <= i < |WithSummary(symbol, aggressor, trades)| ==>
      var msg := WithSummary(symbol, aggressor, trades)[i]; !msg.MdNew? && (HasId(msg) ==> msg.id in ids)
  {}

  lemma PublishedAboutOne(g: Market, b: Book, req: Request, symbol: uint32, aggressor: Side)
    requires WellFormed(b) && Admissible(b, req)
    requires Of(g, symbol) == View(b) && (req.New? ==> req.id !in g)
    requires req.id in g ==> g[req.id].symbol == symbol
    ensures AboutOne(g, Published(symbol, aggressor, Apply(b, req).events), symbol, BookIds(b) + {req.id})
  {
    hide WellFormed, Apply, View, BookIds, Immediate, QueuedTrades, WithSummary;
    var ev, ids := Apply(b, req).events, BookIds(b) + {req.id};
    ApplyEventsIn(b, req);
    ImmediateShape(symbol, ev, ids);
    QueuedShape(ev, ids);
    SummaryAbout(symbol, aggressor, QueuedTrades(ev), ids);
    ViewExact(b);
    forall x | x in ids && x in g ensures g[x].symbol == symbol {
      if x != req.id {
        assert x in Of(g, symbol);
      }
    }
    if req.New? {
      NewImmediate(b, req, symbol);
    } else {
      ModifyHasNoNews(b, req);
    }
    JoinedAboutOne(g, Immediate(symbol, ev), WithSummary(symbol, aggressor, QueuedTrades(ev)), symbol, ids);
  }

  // ----- the invariant -----

  ghost function LoggedMarket(st: BrokerState): Market {
    Markets.Replay(map[], st.log)
  }

  ghost predicate InStep(st: BrokerState) {
    && AllFresh(map[], st.log)
    && forall s :: Of(LoggedMarket(st), s) == if s in st.books then View(st.books[s]) else map[]
  }

  /** The request reaches the ladder its order rests in; the handler remembers each order's symbol. */
  ghost predicate WellRouted(st: BrokerState, p: Payload) {
    p.kind in {DeleteOrderKind, ModifyOrderKind} ==>
      forall s :: s in st.books && p.id in BookIds(st.books[s]) ==> s == p.symbol
  }

  predicate InPlaceAmend(st: BrokerState, p: Payload) {
    p.kind.ModifyOrderKind? && p.symbol in st.books && AmendsFilledInPlace(st.books[p.symbol], RequestOf(p))
  }

  lemma LogGrows(st: BrokerState, owner: TrueOwners, p: Payload)
    requires Sound(st, owner) && Entitled(st, p) && p.kind != RejectKind
    ensures var aggressor := if p.kind.DeleteOrderKind? then st.aggressor else p.side;
      BrokerApply(st, p).0.log == st.log + Published(p.symbol, aggressor, Apply(st.books[p.symbol], RequestOf(p)).events)
  {
    hide BookIds, WellFormed, InBook, Apply, Low32, Immediate, QueuedTrades;
    var b, req := st.books[p.symbol], RequestOf(p);
    NeverThrows(st, owner, p);
    var ev := Apply(b, req).events;
    assert ev[..|ev|] == ev;
    var aggressor := if p.kind.DeleteOrderKind? then st.aggressor else p.side;
    QueuedAreTrades(ev);
    assert (st.log + Immediate(p.symbol, ev)) + WithSummary(p.symbol, aggressor, QueuedTrades(ev))
        == st.log + (Immediate(p.symbol, ev) + WithSummary(p.symbol, aggressor, QueuedTrades(ev)));
  }

  /** The live orders of the log are the resting orders of the ladders. */
  lemma LiveIsResting(st: BrokerState, x: uint64)
    requires InStep(st) && forall s :: s in st.books ==> WellFormed(st.books[s])
    ensures x in LoggedMarket(st) ==>
      LoggedMarket(st)[x].symbol in st.books && x in BookIds(st.books[LoggedMarket(st)[x].symbol])
  {
    hide WellFormed, View, BookIds;
    var g := LoggedMarket(st);
    if x in g {
      var s := g[x].symbol;
      assert x in Of(g, s);
      if s in st.books {
        ViewExact(st.books[s]);
      }
    }
  }

  /** After every request, replaying the whole log gives every ladder's exact orders, unless a partly filled order was amended in place. */
  lemma LogStaysInStep(st: BrokerState, owner: TrueOwners, p: Payload)
    requires Sound(st, owner) && InStep(st) && Entitled(st, p) && WellRouted(st, p)
    ensures InStep(BrokerApply(st, p).0) <==> !InPlaceAmend(st, p)
  {
    hide BookIds, WellFormed, InBook, Apply, Low32, BrokerApply, Published, View, Disjoint, Attributed;
    var st' := BrokerApply(st, p).0;
    if p.kind.RejectKind? {
      RejectPasses(st, p);
    } else {
      var b, req := st.books[p.symbol], RequestOf(p);
      var aggressor := if p.kind.DeleteOrderKind? then st.aggressor else p.side;
      var seg := Published(p.symbol, aggressor, Apply(b, req).events);
      var g := LoggedMarket(st);
      RequestOutcome(st, owner, p);
      LogGrows(st, owner, p);
      LiveIsResting(st, p.id);
      PublishedAboutOne(g, b, req, p.symbol, aggressor);
      SegmentOf(g, seg, p.symbol, BookIds(b) + {req.id});
      Markets.ReplayConcat(map[], st.log, seg);
      FreshConcat(map[], st.log, seg);
      RequestFollowed(b, req, p.symbol, aggressor);
      if p.kind != ModifyOrderKind {
        assert !AmendsFilledInPlace(b, req);
      }
      if InPlaceAmend(st, p) {
        assert Of(LoggedMarket(st'), p.symbol) != View(st'.books[p.symbol]);
      }
    }
  }

  // ----- runs -----

  datatype BrokerRun = BrokerRun(st: BrokerState, owner: TrueOwners)

  function RunBroker(start: BrokerState, ps: seq<Payload>): BrokerRun {
    if ps == [] then BrokerRun(start, map[])
    else
      var before := RunBroker(start, ps[..|ps| - 1]);
      var p := ps[|ps| - 1];
      BrokerRun(BrokerApply(before.st, p).0, Owners'(before.owner, p))
  }

  /** Every symbol's ladder empty, nothing sent. */
  function Idle(symbols: set<uint32>): BrokerState {
    BrokerState(map s | s in symbols :: Book([], []), map[], Buy, [], [], [])
  }

  /** Every request is one the broker may be sent. */
  ghost predicate EntitledRun(start: BrokerState, ps: seq<Payload>) {
    forall i :: 0 <= i < |ps| ==> Entitled(RunBroker(start, ps[..i]).st, ps[i])
  }

  /** And it is for the symbol its order rests in, and amends no partly filled order in place. */
  ghost predicate CleanRun(start: BrokerState, ps: seq<Payload>) {
    forall i :: 0 <= i < |ps| ==>
      var st := RunBroker(start, ps[..i]).st;
      Entitled(st, ps[i]) && WellRouted(st, ps[i]) && !InPlaceAmend(st, ps[i])
  }

  lemma IdleIsSound(symbols: set<uint32>)
    ensures Sound(Idle(symbols), map[]) && Owned(Idle(symbols)) && InStep(Idle(symbols))
  {
    assert BookIds(Book([], [])) == {};
    assert View(Book([], [])) == map[];
  }

  /** The run but for its last request. */
  lemma RunPrefix(start: BrokerState, ps: seq<Payload>)
    requires ps != []
    ensures var n, q := |ps| - 1, ps[..|ps| - 1];
      && (EntitledRun(start, ps) ==> EntitledRun(start, q) && Entitled(RunBroker(start, q).st, ps[n]))
      && (CleanRun(start, ps) ==> CleanRun(start, q))
      && RunBroker(start, ps).st == BrokerApply(RunBroker(start, q).st, ps[n]).0
      && RunBroker(start, ps).owner == Owners'(RunBroker(start, q).owner, ps[n])
  {
    hide Entitled, WellRouted, InPlaceAmend, BrokerApply;
    var n, q := |ps| - 1, ps[..|ps| - 1];
    assert ps[..n] == q;
    forall i | 0 <= i < n ensures q[..i] == ps[..i] && q[i] == ps[i] {}
  }

  /** Over every run the ladders stay well formed and apart, and nothing throws. */
  lemma {:induction false} RunOwned(symbols: set<uint32>, ps: seq<Payload>)
    requires EntitledRun(Idle(symbols), ps)
    ensures Owned(RunBroker(Idle(symbols), ps).st)
    ensures ps != [] ==> BrokerApply(RunBroker(Idle(symbols), ps[..|ps| - 1]).st, ps[|ps| - 1]).1 == Processed
  {
    hide Entitled, BrokerApply, Owned, EntitledRun, RunBroker;
    IdleIsSound(symbols);
    if ps == [] {
      RunNothing(Idle(symbols));
    } else {
      RunPrefix(Idle(symbols), ps);
      RunOwned(symbols, ps[..|ps| - 1]);
      OwnedStays(RunBroker(Idle(symbols), ps[..|ps| - 1]).st, ps[|ps| - 1]);
    }
  }

  lemma RunNothing(start: BrokerState)
    ensures RunBroker(start, []) == BrokerRun(start, map[])
  {}

  /** Over every clean run nothing throws and the log replays to every ladder's orders. */
  lemma {:induction false} BrokerStaysInStep(symbols: set<uint32>, ps: seq<Payload>)
    requires CleanRun(Idle(symbols), ps)
    ensures var st := RunBroker(Idle(symbols), ps).st; Owned(st) && InStep(st)
    ensures forall i :: 0 <= i < |ps| ==> BrokerApply(RunBroker(Idle(symbols), ps[..i]).st, ps[i]).1 == Processed
  {
    hide Entitled, WellRouted, InPlaceAmend, BrokerApply, Sound, Owned, InStep;
    IdleIsSound(symbols);
    if ps != [] {
      var n, q := |ps| - 1, ps[..|ps| - 1];
      RunPrefix(Idle(symbols), ps);
      assert forall i :: 0 <= i < n ==> q[..i] == ps[..i];
      BrokerStaysInStep(symbols, q);
      var before := RunBroker(Idle(symbols), q).st;
      assert ps[..n] == q;
      OwnedIsSound(before);
      OwnedStays(before, ps[n]);
      LogStaysInStep(before, Kept(before), ps[n]);
    }
  }

  // ----- attribution over a run -----

  /** No new id shares its low 32 bits with a resting order of another client. */
  ghost predicate NeverCollides(start: BrokerState, ps: seq<Payload>) {
    forall i :: 0 <= i < |ps| ==>
      var run := RunBroker(start, ps[..i]); NoCollision(run.st, run.owner, ps[i])
  }

  /** A new order leaves attribution right, and so were the passive fills of its entry. */
  ghost predicate StepAttributed(run: BrokerRun, p: Payload) {
    p.kind.NewOrderKind? ==>
      var st' := BrokerApply(run.st, p).0;
      && p.symbol in run.st.books && Attributed(st', Owners'(run.owner, p))
      && FillsRight(st'.owners, Apply(run.st.books[p.symbol], RequestOf(p)).events, run.owner)
  }

  ghost predicate AlwaysAttributed(start: BrokerState, ps: seq<Payload>) {
    forall i :: 0 <= i < |ps| ==> StepAttributed(RunBroker(start, ps[..i]), ps[i])
  }

  lemma StepAttributedExact(run: BrokerRun, p: Payload)
    requires Sound(run.st, run.owner) && Entitled(run.st, p)
    ensures StepAttributed(run, p) <==> NoCollision(run.st, run.owner, p)
    ensures NoCollision(run.st, run.owner, p) ==> Sound(BrokerApply(run.st, p).0, Owners'(run.owner, p))
  {
    hide BookIds, WellFormed, Low32, BrokerApply, Disjoint, Attributed, FillsRight, Apply, Rests;
    if p.kind.NewOrderKind? {
      AttributionExact(run.st, run.owner, p);
    }
    if NoCollision(run.st, run.owner, p) {
      SoundStays(run.st, run.owner, p);
    }
  }

  lemma AttributedPrefix(start: BrokerState, ps: seq<Payload>)
    requires ps != []
    ensures var n, q, before := |ps| - 1, ps[..|ps| - 1], RunBroker(start, ps[..|ps| - 1]);
      && (AlwaysAttributed(start, ps) <==> AlwaysAttributed(start, q) && StepAttributed(before, ps[n]))
      && (NeverCollides(start, ps) <==> NeverCollides(start, q) && NoCollision(before.st, before.owner, ps[n]))
  {
    hide StepAttributed, NoCollision, RunBroker;
    var n, q := |ps| - 1, ps[..|ps| - 1];
    assert ps[..n] == q;
    assert forall i :: 0 <= i < n ==> q[..i] == ps[..i] && q[i] == ps[i];
  }

  /** Over every run: attribution stays right throughout exactly when no id ever collides. */
  lemma {:induction false} RunAttributed(symbols: set<uint32>, ps: seq<Payload>)
    requires EntitledRun(Idle(symbols), ps)
    ensures AlwaysAttributed(Idle(symbols), ps) <==> NeverCollides(Idle(symbols), ps)
    ensures NeverCollides(Idle(symbols), ps) ==> var run := RunBroker(Idle(symbols), ps); Sound(run.st, run.owner)
  {
    IdleIsSound(symbols);
    if ps != [] {
      var start, q := Idle(symbols), ps[..|ps| - 1];
      hide *;
      RunPrefix(start, ps);
      AttributedPrefix(start, ps);
      RunAttributed(symbols, q);
      if NeverCollides(start, q) {
        StepAttributedExact(RunBroker(start, q), ps[|ps| - 1]);
      }
    }
  }
}
