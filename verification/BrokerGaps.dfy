/** Runs of the broker as it is that end in the two conditions under which it misleads those who listen to it. */
module BrokerGaps {
  import opened ExchangeTypes
  import opened BookSpec
  import opened BookTheorems
  import opened MatchTheorems
  import opened MarketData
  import opened Replication
  import opened OrderAccounts
  import opened BrokerSpec
  import opened BrokerTheorems
  import opened BrokerLog

  const SYMBOL: uint32 := 1

  // ----- three requests on one ladder -----

  const OFFER: Request := New(1, Sell, 10, 100, 0)
  const TAKER: Request := New(2, Buy, 4, 100, 0)
  const AMEND: Request := Modify(1, Sell, 8, 100)

  function Offered(quantity: uint32, filled: uint32): Book {
    Book([], [Order(1, Sell, 100, quantity, filled, 0)])
  }

  lemma OfferRests()
    ensures var r := Apply(Book([], []), OFFER);
      r.book == Offered(10, 0) && r.events == [OnNewOrder(1, Sell, 10, 100, 0)] && r.outcome == Done
  {
    assert Match(1, Sell, 10, 100, []) == MatchResult(10, [], []);
    assert !InBook(Book([], []), 1);
    assert Insert([], Order(1, Sell, 100, 10, 0, 0)) == [Order(1, Sell, 100, 10, 0, 0)];
  }

  /** The callbacks of an incoming buy for four lots of the offer. */
  function Taken(id: uint64): seq<Event> {
    [OnTrade(1, 4, 100), OnFill(1, Sell, 4, 100, false, false), OnFill(id, Buy, 4, 100, true, true), OnNewOrder(id, Buy, 0, 100, 0)]
  }

  lemma TakerTrades(bids: seq<Order>, id: uint64)
    ensures var r := Apply(Book(bids, Offered(10, 0).asks), New(id, Buy, 4, 100, 0));
      r.book == Book(bids, Offered(6, 4).asks) && r.events == Taken(id) && r.outcome == Done
  {
    var os := Offered(10, 0).asks;
    var m := Match(id, Buy, 4, 100, os);
    assert m.resting == [PartlyFilled(os[0], 4)] + os[1..] == Offered(6, 4).asks;
    assert Taken(id) == m.events + [OnNewOrder(id, Buy, 0, 100, 0)];
  }

  lemma AmendGrows()
    ensures var r := Apply(Offered(6, 4), AMEND);
      r.book == Offered(8, 4) && r.events == [OnModifyOrder(1, Sell, 4, 100)] && r.outcome == Done
  {
    var os := Offered(6, 4).asks;
    assert IndexOf(os, 1) == 0 && InBook(Offered(6, 4), 1) && Find(Offered(6, 4), 1) == os[0];
    assert Requantify(os, 1, 8) == Offered(8, 4).asks;
    assert Requantify([], 1, 8) == [];
  }

  lemma ReplayRun()
    ensures Replay([]) == Book([], []) && Replay([OFFER]) == Offered(10, 0)
    ensures Replay([OFFER, TAKER]) == Offered(6, 4) && Replay([OFFER, TAKER, AMEND]) == Offered(8, 4)
  {
    hide Apply;
    OfferRests();
    TakerTrades([], 2);
    AmendGrows();
    assert [OFFER][..0] == [] && [OFFER, TAKER][..1] == [OFFER] && [OFFER, TAKER, AMEND][..2] == [OFFER, TAKER];
  }

  /** The amend of an order with four of ten lots filled is where replicas lose the ladder, after a run they followed. */
  lemma AmendMisleads()
    ensures var before, all := [OFFER, TAKER], [OFFER, TAKER, AMEND];
      && Clean(before) && AmendsFilledInPlace(Replay(before), AMEND)
      && ReplayQuotes(map[], Log(SYMBOL, before, [Sell, Buy])) == View(Replay(before))
      && ReplayQuotes(map[], Log(SYMBOL, all, [Sell, Buy, Sell])) != View(Replay(all))
  {
    var before, all := [OFFER, TAKER], [OFFER, TAKER, AMEND];
    var sides, allSides := [Sell, Buy], [Sell, Buy, Sell];
    ReplayRun();
    assert AmendsFilledInPlace(Offered(6, 4), AMEND) by {
      assert Find(Offered(6, 4), 1) == Offered(6, 4).asks[0];
    }
    assert before[..0] == [] && before[..1] == [OFFER] && all[..2] == before && allSides[..2] == sides;
    assert Admissible(Book([], []), OFFER) && Admissible(Offered(10, 0), TAKER);
    assert Clean(before);
    hide *;
    RunFollowed(SYMBOL, before, sides);
    NeverCrossed(before);
    AmendUnfollowed(before, sides);
  }

  lemma AmendUnfollowed(before: seq<Request>, sides: seq<Side>)
    requires |sides| == |before| && WellFormed(Replay(before)) && AmendsFilledInPlace(Replay(before), AMEND)
    requires ReplayQuotes(map[], Log(SYMBOL, before, sides)) == View(Replay(before))
    ensures ReplayQuotes(map[], Log(SYMBOL, before + [AMEND], sides + [Sell])) != View(Replay(before + [AMEND]))
  {
    hide Apply, View, WellFormed, AmendsFilledInPlace, Published, ReplayQuotes;
    var all, allSides := before + [AMEND], sides + [Sell];
    assert all[..|before|] == before && allSides[..|before|] == sides;
    RequestFollowed(Replay(before), AMEND, SYMBOL, Sell);
    ReplayConcat(map[], Log(SYMBOL, before, sides), Published(SYMBOL, Sell, Apply(Replay(before), AMEND).events));
  }

  // ----- fills forgotten -----

  const REPRICE: Request := Modify(1, Sell, 8, 101)
  const AGAIN: Request := Modify(1, Sell, 8, 102)

  function Repriced(price: int, quantity: uint32): Book {
    Book([], [Order(1, Sell, price, quantity, 0, 0)])
  }

  lemma Reprices(b: Book, quantity: uint32, filled: uint32, price: int, price': int)
    requires b == Book([], [Order(1, Sell, price, quantity, filled, 0)]) && filled < 8 && price' != price
    ensures var r := Apply(b, Modify(1, Sell, 8, price'));
      r.book == Repriced(price', 8 - filled) && r.events == [OnModifyOrder(1, Sell, 8 - filled, price')] && r.outcome == Done
  {
    var os, left := b.asks, 8 - filled;
    assert IndexOf(os, 1) == 0 && InBook(b, 1) && Find(b, 1) == os[0];
    assert Without(os, 0) == [];
    assert Match(1, Sell, left, price', []) == MatchResult(left, [], []);
    assert Insert([], Order(1, Sell, price', left, 0, 0)) == [Order(1, Sell, price', left, 0, 0)];
  }

  /** The account of the offer after each of the runs. */
  lemma AccountsOfOffer()
    ensures var run := RunOf([OFFER, TAKER]);
      run.book == Offered(6, 4) && 1 in run.accounts && run.accounts[1] == Account(10, 4, 4, 0) && AllAdmissible([OFFER, TAKER])
  {
    hide Apply, Step;
    assert [OFFER][..0] == [] && [OFFER, TAKER][..1] == [OFFER] && [OFFER, TAKER][..0] == [];
    assert RunOf([OFFER]) == Step(RunOf([]), OFFER) && RunOf([OFFER, TAKER]) == Step(RunOf([OFFER]), TAKER);
    OfferAccount();
    TakerAccount(RunOf([OFFER]));
    assert !InBook(Offered(10, 0), 2);
  }

  lemma OfferAccount()
    ensures var run := Step(Run(Book([], []), map[], {}, {}), OFFER);
      run.book == Offered(10, 0) && 1 in run.accounts && run.accounts[1] == Account(10, 0, 0, 0)
  {
    hide Apply;
    OfferRests();
    FillsOfOne(OnNewOrder(1, Sell, 10, 100, 0));
  }

  lemma TakerAccount(run: Run)
    requires run.book == Offered(10, 0) && 1 in run.accounts && run.accounts[1] == Account(10, 0, 0, 0)
    ensures var next := Step(run, TAKER);
      next.book == Offered(6, 4) && 1 in next.accounts && next.accounts[1] == Account(10, 4, 4, 0)
  {
    hide Apply;
    TakerTrades([], 2);
    var t := Taken(2);
    assert t[1..][1..][1..] == [OnNewOrder(2, Buy, 0, 100, 0)];
    assert Filled(t[1..][1..][1..], 1) == 0;
    assert Filled(t, 1) == 4;
  }

  lemma Appended(reqs: seq<Request>, req: Request)
    requires AllAdmissible(reqs) && Admissible(RunOf(reqs).book, req)
    ensures AllAdmissible(reqs + [req]) && RunOf(reqs + [req]) == Step(RunOf(reqs), req)
  {
    hide Step, Admissible;
    var all := reqs + [req];
    assert all[..|reqs|] == reqs;
    forall i | 0 <= i < |all| ensures Admissible(RunOf(all[..i]).book, all[i]) {
      if i < |reqs| { assert all[..i] == reqs[..i]; }
    }
  }

  lemma AmendedAccount(run: Run, req: Request)
    requires req.Modify? && req.id in run.accounts && InBook(run.book, req.id)
    requires Filled(Apply(run.book, req).events, req.id) == 0
    ensures Step(run, req).book == Apply(run.book, req).book && req.id in Step(run, req).accounts
    ensures var a, o := run.accounts[req.id], Find(run.book, req.id);
      Step(run, req).accounts[req.id] ==
        if o.price == req.price && o.side == req.side then a.(given := req.quantity, forgotten := a.filled)
        else a.(given := req.quantity, remembered := 0, forgotten := a.filled - o.filled)
  {
    hide Apply, InBook, Filled, Find, FilledOut, ClosedIds;
    CreditNothing(run, req, req.id);
  }

  /**
   Both ways in which an amend forgets fills are reachable: at the same price with four lots filled, and at a new price
   after an earlier re-price. Eight lots were given, four of them filled, and eight still rest.
   */
  lemma AmendsForgetFills()
    ensures forall reqs | reqs in {[OFFER, TAKER, AMEND], [OFFER, TAKER, REPRICE, AGAIN]} ::
      && AllAdmissible(reqs) && 1 in RunOf(reqs).accounts && InBook(RunOf(reqs).book, 1)
      && var a := RunOf(reqs).accounts[1]; a.given == 8 && a.filled == 4 && a.forgotten == 4 && Find(RunOf(reqs).book, 1).quantity == 8
  {
    hide Apply, Filled, RunOf, AllAdmissible;
    AccountsOfOffer();
    AmendGrows();
    Reprices(Offered(6, 4), 6, 4, 100, 101);
    Reprices(Repriced(101, 4), 4, 0, 101, 102);
    forall price, quantity: uint32 ensures Filled([OnModifyOrder(1, Sell, quantity, price)], 1) == 0 {
      FillsOfOne(OnModifyOrder(1, Sell, quantity, price));
    }
    assert Find(Offered(6, 4), 1) == Offered(6, 4).asks[0] && Find(Offered(8, 4), 1) == Offered(8, 4).asks[0];
    assert Find(Repriced(101, 4), 1) == Repriced(101, 4).asks[0] && Find(Repriced(102, 8), 1) == Repriced(102, 8).asks[0];
    var run := RunOf([OFFER, TAKER]);
    assert [OFFER, TAKER] + [AMEND] == [OFFER, TAKER, AMEND];
    assert [OFFER, TAKER] + [REPRICE] == [OFFER, TAKER, REPRICE];
    assert [OFFER, TAKER, REPRICE] + [AGAIN] == [OFFER, TAKER, REPRICE, AGAIN];
    hide Step;
    Appended([OFFER, TAKER], AMEND);
    AmendedAccount(run, AMEND);
    Appended([OFFER, TAKER], REPRICE);
    AmendedAccount(run, REPRICE);
    Appended([OFFER, TAKER, REPRICE], AGAIN);
    AmendedAccount(Step(run, REPRICE), AGAIN);
  }

  lemma FillsOfOne(e: Event)
    requires !e.OnFill?
    ensures Filled([e], 1) == 0
  {
    assert [e][1..] == [];
  }

  // ----- a fill for somebody else's order -----

  function Entry(id: uint64, client: uint32, side: Side, quantity: uint32, price: int): Payload {
    Payload(NewOrderKind, id, SYMBOL, 1, client, side, quantity, price, 0)
  }

  /** 2^32 + 1: what order 1 is called in 32 bits. */
  const TWIN: uint64 := TWO32 + 1

  lemma BidRests()
    ensures var r := Apply(Offered(10, 0), New(TWIN, Buy, 10, 90, 0));
      r.book == Book([Order(TWIN, Buy, 90, 10, 0, 0)], Offered(10, 0).asks) && r.events == [OnNewOrder(TWIN, Buy, 10, 90, 0)] && r.outcome == Done
  {
    var o := Order(TWIN, Buy, 90, 10, 0, 0);
    assert Match(TWIN, Buy, 10, 90, Offered(10, 0).asks) == MatchResult(10, Offered(10, 0).asks, []);
    assert !InBook(Offered(10, 0), TWIN);
    assert Insert([], o) == [o];
  }

  /** A new order whose request completes: books, owners and clearing fills. */
  lemma NewServed(st: BrokerState, p: Payload, r: Result)
    requires p.kind.NewOrderKind? && p.symbol in st.books && Apply(st.books[p.symbol], RequestOf(p)) == r && r.outcome == Done
    requires AllAttributable(st.owners[Low32(p.id) := p.client], r.events)
    ensures var st', owners := BrokerApply(st, p).0, st.owners[Low32(p.id) := p.client];
      && st'.books == st.books[p.symbol := r.book] && st'.owners == owners
      && st'.fills == st.fills + Cleared(Context(owners, p.symbol, p.clientSeq, p.client), r.events)
  {
    hide Apply, Low32;
    var owners := st.owners[Low32(p.id) := p.client];
    AllCompleted(owners, r.events);
    assert r.events[..|r.events|] == r.events;
  }

  lemma AllCompleted(owners: Owners, events: seq<Event>)
    requires AllAttributable(owners, events)
    ensures Completed(owners, events) == |events|
  {}

  function Offer(): Payload { Entry(1, 7, Sell, 10, 100) }
  function Twin(): Payload { Entry(TWIN, 8, Buy, 10, 90) }
  function Taker(): Payload { Entry(2, 9, Buy, 4, 100) }

  lemma LowIds()
    ensures Low32(1) == 1 && Low32(TWIN) == 1 && Low32(2) == 2
  {}

  /** The states of the broker along the run. */
  lemma BrokerAlong()
    ensures var start := Idle({SYMBOL});
      var one, two, three := BrokerApply(start, Offer()).0, BrokerApply(BrokerApply(start, Offer()).0, Twin()).0,
        BrokerApply(BrokerApply(BrokerApply(start, Offer()).0, Twin()).0, Taker()).0;
      && start.books == map[SYMBOL := Book([], [])] && one.books == map[SYMBOL := Offered(10, 0)]
      && two.books == map[SYMBOL := Book([Order(TWIN, Buy, 90, 10, 0, 0)], Offered(10, 0).asks)]
      && three.fills == [ClearingFill(8, SYMBOL, 4, 100, Sell), ClearingFill(9, SYMBOL, 4, 100, Buy)]
  {
    hide Apply, BrokerApply, Low32, Cleared;
    LowIds();
    OfferRests();
    BidRests();
    TakerTrades([Order(TWIN, Buy, 90, 10, 0, 0)], 2);
    var start := Idle({SYMBOL});
    NewServed(start, Offer(), Apply(start.books[SYMBOL], RequestOf(Offer())));
    var one := BrokerApply(start, Offer()).0;
    NewServed(one, Twin(), Apply(one.books[SYMBOL], RequestOf(Twin())));
    var two := BrokerApply(one, Twin()).0;
    NewServed(two, Taker(), Apply(two.books[SYMBOL], RequestOf(Taker())));
    QuietClears(Context(start.owners[1 := 7], SYMBOL, 1, 7), OnNewOrder(1, Sell, 10, 100, 0));
    QuietClears(Context(one.owners[1 := 8], SYMBOL, 1, 8), OnNewOrder(TWIN, Buy, 10, 90, 0));
    TakenClears(Context(two.owners[2 := 9], SYMBOL, 1, 9));
  }

  lemma QuietClears(c: Context, e: Event)
    requires e.OnNewOrder?
    ensures AllAttributable(c.owners, [e]) && Cleared(c, [e]) == []
  {
    assert [e][1..] == [];
  }

  lemma TakenClears(c: Context)
    requires 1 in c.owners
    ensures AllAttributable(c.owners, Taken(2))
    ensures Cleared(c, Taken(2)) == [ClearingFill(c.owners[1], c.symbol, 4, 100, Sell), ClearingFill(c.client, c.symbol, 4, 100, Buy)]
  {
    LowIds();
    var t := Taken(2);
    var fills, taker, quiet := t[1..], t[2..], t[3..];
    assert fills[1..] == taker && taker[1..] == quiet == [OnNewOrder(2, Buy, 0, 100, 0)];
    QuietClears(c, OnNewOrder(2, Buy, 0, 100, 0));
    assert Cleared(c, taker) == [ClearingFill(c.client, c.symbol, 4, 100, Buy)];
    assert Cleared(c, fills) == [ClearingFill(c.owners[1], c.symbol, 4, 100, Sell)] + Cleared(c, taker);
  }

  /**
   Client 7 offers ten lots under id 1, client 8 bids under id 2^32 + 1, client 9 takes four lots of the offer. The
   broker may be sent all three, and clears the passive leg to client 8, who sold nothing.
   */
  lemma TwinTakesTheFill()
    ensures var ps := [Offer(), Twin(), Taker()];
      var run := RunBroker(Idle({SYMBOL}), ps);
      && EntitledRun(Idle({SYMBOL}), ps) && !NeverCollides(Idle({SYMBOL}), ps)
      && run.owner == map[1 := 7, TWIN := 8, 2 := 9]
      && run.st.fills == [ClearingFill(8, SYMBOL, 4, 100, Sell), ClearingFill(9, SYMBOL, 4, 100, Buy)]
  {
    hide BrokerApply, NoCollision, Entitled, RunBroker;
    var start, ps := Idle({SYMBOL}), [Offer(), Twin(), Taker()];
    assert ps[..0] == [] && ps[..1] == [Offer()] && ps[..2] == [Offer(), Twin()];
    BrokerAlong();
    RunAlong(start);
    var one, two := BrokerApply(start, Offer()).0, BrokerApply(BrokerApply(start, Offer()).0, Twin()).0;
    EntitledEntry(start, Offer());
    EntitledEntry(one, Twin());
    EntitledEntry(two, Taker());
    Collides(one);
  }

  lemma RunAlong(start: BrokerState)
    ensures var one, two := BrokerApply(start, Offer()).0, BrokerApply(BrokerApply(start, Offer()).0, Twin()).0;
      && RunBroker(start, []).st == start
      && RunBroker(start, [Offer()]) == BrokerRun(one, map[1 := 7]) && RunBroker(start, [Offer(), Twin()]).st == two
      && RunBroker(start, [Offer(), Twin(), Taker()]).st == BrokerApply(two, Taker()).0
      && RunBroker(start, [Offer(), Twin(), Taker()]).owner == map[1 := 7, TWIN := 8, 2 := 9]
  {
    hide BrokerApply;
    RunNothing(start);
    assert [Offer()][..0] == [] && [Offer(), Twin()][..1] == [Offer()] && [Offer(), Twin(), Taker()][..2] == [Offer(), Twin()];
  }

  lemma EntitledEntry(st: BrokerState, p: Payload)
    requires p.kind.NewOrderKind? && p.quantity > 0 && st.books.Keys == {SYMBOL} && p.symbol == SYMBOL
    requires var b := st.books[SYMBOL]; !InBook(b, p.id)
    ensures Entitled(st, p)
  {
    HasIsIds(st.books[SYMBOL].bids, p.id);
    HasIsIds(st.books[SYMBOL].asks, p.id);
  }

  lemma Collides(st: BrokerState)
    requires st.books == map[SYMBOL := Offered(10, 0)]
    ensures !NoCollision(st, map[1 := 7], Twin())
  {
    LowIds();
    assert Offered(10, 0).asks[0].id == 1;
    assert 1 in BookIds(st.books[SYMBOL]);
  }
}
