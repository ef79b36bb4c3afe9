/** No fill is lost behind the end of an order: over a run, the fills a client was sent are the fills the ladder reported. */
module FillsHeard {
  import opened ExchangeTypes
  import opened BookSpec
  import opened BookOrder
  import opened MatchTheorems
  import opened BookTheorems
  import opened BrokerSpec
  import opened BrokerTheorems
  import opened Lifecycle
  import opened QueueTheorems
  import opened Settlement
  import opened Delivery
  import opened Cancellation
  import HandlerSpec

  // ----- one request -----

  /** Only the last of these can end the order. */
  ghost predicate EndsAtMostLast(r: seq<Report>) {
    forall i :: 0 <= i < |r| - 1 ==> !Ends(r[i])
  }

  lemma {:induction false} WholeUpToEnd(r: seq<Report>)
    requires EndsAtMostLast(r)
    ensures UpToEnd(r) == r
  {
    if r != [] {
      var t := r[1..];
      assert forall i {:trigger t[i]} :: 0 <= i < |t| ==> t[i] == r[i + 1];
      WholeUpToEnd(t);
      if Ends(r[0]) { assert t == []; }
    }
  }

  /** What a match reports of an order that is neither incoming nor resting there. */
  lemma {:induction false} MatchSilent(id: uint64, side: Side, quantity: uint32, limit: int, os: seq<Order>, x: uint64)
    requires !Has(os, x) && x != id
    ensures Reports(Match(id, side, quantity, limit, os).events, x) == []
    decreases |os|
  {
    hide Crosses;
    if quantity > 0 && os != [] && Crosses(side, limit, os[0].price) {
      var o, closed := os[0], os[0].quantity <= quantity;
      var f := FillEvents(id, side, o, Min(o.quantity, quantity), closed, quantity <= o.quantity);
      FillReports(id, side, o, Min(o.quantity, quantity), closed, quantity <= o.quantity, x);
      if closed {
        MatchSilent(id, side, quantity - o.quantity, limit, os[1..], x);
        ReportsConcat(f, Match(id, side, quantity - o.quantity, limit, os[1..]).events, x);
      }
    }
  }

  lemma FillReports(id: uint64, side: Side, o: Order, q: uint32, c: bool, d: bool, x: uint64)
    ensures Reports(FillEvents(id, side, o, q, c, d), x) ==
      (if x == o.id then [Traded(q, o.price, c)] else []) + (if x == id then [Traded(q, o.price, d)] else [])
  {
    var f := FillEvents(id, side, o, q, c, d);
    assert f == [f[0]] + ([f[1]] + [f[2]]);
    ReportsConcat([f[0]], [f[1]] + [f[2]], x);
    ReportsConcat([f[1]], [f[2]], x);
    assert [f[0]][1..] == [] && [f[1]][1..] == [] && [f[2]][1..] == [];
  }

  /** Of one order a match reports fills, the last of which may end it. */
  lemma {:induction false} MatchEndsLast(id: uint64, side: Side, quantity: uint32, limit: int, os: seq<Order>, x: uint64)
    requires UniqueIds(os) && !Has(os, id)
    ensures EndsAtMostLast(Reports(Match(id, side, quantity, limit, os).events, x))
    ensures quantity == 0 ==> Reports(Match(id, side, quantity, limit, os).events, x) == []
    decreases |os|
  {
    hide UniqueIds, Crosses, FillEvents;
    NothingYet(x);
    if quantity > 0 && os != [] && Crosses(side, limit, os[0].price) {
      var o, closed := os[0], os[0].quantity <= quantity;
      var q := Min(o.quantity, quantity);
      var f := FillEvents(id, side, o, q, closed, quantity <= o.quantity);
      assert o.id != id;
      FillReports(id, side, o, q, closed, quantity <= o.quantity, x);
      if closed {
        var rest := Match(id, side, quantity - o.quantity, limit, os[1..]).events;
        Tail(os, side);
        DropsHas(os, id);
        MatchEndsLast(id, side, quantity - o.quantity, limit, os[1..], x);
        ReportsConcat(f, rest, x);
        if x == o.id {
          MatchSilent(id, side, quantity - o.quantity, limit, os[1..], x);
        }
        hide Reports, Match;
      }
    }
  }

  lemma NothingYet(x: uint64)
    ensures Reports([], x) == []
  {}

  lemma DropsHas(os: seq<Order>, id: uint64)
    requires os != [] && !Has(os, id)
    ensures !Has(os[1..], id)
  {}

  /** Fills, ending with the order if they do, and then something else that is no fill. */
  lemma QuietBehind(a: seq<Report>, b: seq<Report>)
    requires EndsAtMostLast(a) && Fills(b) == []
    ensures Fills(UpToEnd(a + b)) == Fills(a + b)
  {
    hide Fills, Ended;
    WholeUpToEnd(a);
    EndConcat(a, b);
    EndConcat(a, UpToEnd(b));
    NoFillsUpToEnd(b);
    assert Fills(a) + [] == Fills(a);
  }

  lemma {:induction false} NoFillsUpToEnd(b: seq<Report>)
    requires Fills(b) == []
    ensures Fills(UpToEnd(b)) == []
  {
    if b != [] {
      NoFillsUpToEnd(b[1..]);
      if !Ends(b[0]) { assert UpToEnd(b)[1..] == UpToEnd(b[1..]); }
    }
  }

  lemma {:induction false} QuietReports(events: seq<Event>, x: uint64)
    requires forall i :: 0 <= i < |events| ==> !events[i].OnFill?
    ensures Fills(Reports(events, x)) == []
  {
    if events != [] {
      QuietReports(events[1..], x);
      var r := Reports(events, x);
      if r != Reports(events[1..], x) { assert r[1..] == Reports(events[1..], x); }
    }
  }

  lemma EntryEndsLast(b: Book, id: uint64, side: Side, quantity: uint32, price: int, flags: uint8, notify: bool, filled: uint32,
                      more: seq<Event>, x: uint64)
    requires WellFormed(b) && !InBook(b, id) && quantity > filled && forall i :: 0 <= i < |more| ==> !more[i].OnFill?
    ensures var r := Reports(HandleNewOrder(b, id, side, quantity, price, flags, notify, filled).events + more, x); Fills(UpToEnd(r)) == Fills(r)
  {
    hide Match, InBook, Insert, Keys, BookTheorems.Apart, Reports, EndsAtMostLast, Fills, UpToEnd;
    var os := SideOf(b, Opposite(side));
    var m := Match(id, side, quantity - filled, price, os).events;
    var ev := HandleNewOrder(b, id, side, quantity, price, flags, notify, filled).events;
    var quiet := ev[|m|..] + more;
    assert ev == m + ev[|m|..] && ev + more == m + quiet;
    WellFormedIsUncrossed(b);
    assert !Has(os, id) by { assert !InBook(b, id); HasOne(b, id, Opposite(side)); }
    MatchEndsLast(id, side, quantity - filled, price, os, x);
    QuietReports(quiet, x);
    ReportsConcat(m, quiet, x);
    QuietBehind(Reports(m, x), Reports(quiet, x));
  }

  lemma HasOne(b: Book, id: uint64, side: Side)
    requires !InBook(b, id)
    ensures !Has(SideOf(b, side), id)
  {}

  lemma OneReport(ev: seq<Event>, x: uint64)
    requires |ev| == 1 && !ev[0].OnFill?
    ensures var r := Reports(ev, x); Fills(UpToEnd(r)) == Fills(r)
  {
    QuietReports(ev, x);
    NoFillsUpToEnd(Reports(ev, x));
  }

  /** Whatever the request, no fill of an order is reported behind its end. */
  lemma RequestEndsLast(b: Book, req: Request, x: uint64)
    requires WellFormed(b) && Admissible(b, req)
    ensures var r := Reports(Apply(b, req).events, x); Fills(UpToEnd(r)) == Fills(r)
  {
    hide WellFormed, HandleNewOrder, RemoveFromBook, RequantifyInBook, InBook, Find, Reports, Fills, UpToEnd;
    var ev := Apply(b, req).events;
    if req.New? {
      EntryEndsLast(b, req.id, req.side, req.quantity, req.price, req.flags, true, 0, [], x);
      assert ev + [] == ev;
    } else if req.Delete? || !InBook(b, req.id) || Find(b, req.id).filled >= req.quantity
              || (Find(b, req.id).price == req.price && Find(b, req.id).side == req.side) {
      OneReport(ev, x);
    } else {
      var o, b1 := Find(b, req.id), RemoveFromBook(b, req.id);
      var r := HandleNewOrder(b1, req.id, req.side, req.quantity, req.price, o.flags, false, o.filled);
      RemoveFromBookKeeps(b, req.id);
      ModifyNeverThrows(b, req.id, req.side, req.quantity, req.price);
      var more := ev[|r.events|..];
      assert ev == r.events + more;
      EntryEndsLast(b1, req.id, req.side, req.quantity, req.price, o.flags, false, o.filled, more, x);
    }
  }

  // ----- runs -----

  /** The ladder reports no fill behind the end of an order, and an order that has ended is not live. */
  ghost predicate Final(live: set<uint64>, issued: set<uint64>, id: uint64, ladder: seq<Report>) {
    && (Ended(ladder) ==> id !in live) && (id !in issued ==> ladder == []) && Fills(UpToEnd(ladder)) == Fills(ladder)
  }

  lemma FinalPush(ladder: seq<Report>, more: seq<Report>)
    requires Fills(UpToEnd(ladder)) == Fills(ladder) && Fills(UpToEnd(more)) == Fills(more) && (Ended(ladder) ==> more == [])
    ensures Fills(UpToEnd(ladder + more)) == Fills(ladder + more)
    ensures Ended(ladder + more) <==> Ended(ladder) || Ended(more)
  {
    hide Fills, Ended, UpToEnd;
    EndConcat(ladder, more);
    EndConcat(ladder, UpToEnd(more));
    if Ended(ladder) {
      assert ladder + [] == ladder;
    }
  }

  lemma {:induction false} QueuedEnds(q: seq<Payload>, id: uint64)
    requires Ended(Queued(q, id))
    ensures id in Endings(q)
    decreases |q|
  {
    var n := |q|;
    if n == 0 {
      assert false;
    } else {
      QueuedPop(q, id);
      EndConcat(Queued([q[0]], id), Queued(q[1..], id));
      assert [q[0]] + q[1..] == q;
      EndingsConcat([q[0]], q[1..]);
      if Ended(Queued([q[0]], id)) {
        EndsIsTerminal(q[0], id);
        assert [q[0]][0] == q[0];
        assert id in Endings([q[0]]);
      } else {
        QueuedEnds(q[1..], id);
      }
    }
  }

  lemma EngineReports(s: System, rules: HandlerSpec.Rules, id: uint64)
    requires Inv(s) && Enabled(s, EngineStep)
    ensures var more, s' := StepReports(s, EngineStep, id), Next(s, rules, EngineStep);
      && Fills(UpToEnd(more)) == Fills(more) && s'.issued == s.issued
      && (id !in Live(s) ==> more == []) && (Ended(more) ==> id in Endings(s'.broker.toClient))
  {
    var q, st := s.handler.toEngine, s.broker;
    assert q != [];
    var s' := Next(s, rules, EngineStep);
    assert s'.broker == BrokerApply(st, q[0]).0 && s'.issued == s.issued;
    HeadIsEntitled(s);
    ServesEntitled(st, q[0]);
    var more := Reported(st, q[0], id);
    assert StepReports(s, EngineStep, id) == more;
    hide *;
    InvParts(s);
    ShelvedIsOwned(st, s.issued);
    ReportedEndsLast(st, q[0], id);
    ServedReports(st, q[0], id);
    if id !in Live(s) {
      NothingReported(s, id);
    }
    if Ended(more) {
      EndConcat(Queued(st.toClient, id), more);
      QueuedEnds(s'.broker.toClient, id);
    }
  }

  lemma EngineFinal(s: System, rules: HandlerSpec.Rules, id: uint64, ladder: seq<Report>)
    requires Inv(s) && Enabled(s, EngineStep) && Final(Live(s), s.issued.Keys, id, ladder)
    ensures var s' := Next(s, rules, EngineStep); Final(Live(s'), s'.issued.Keys, id, ladder + StepReports(s, EngineStep, id))
  {
    hide Inv, Enabled, Next, UpToEnd, Ended, Fills, Live, StepReports, Endings;
    var more, s' := StepReports(s, EngineStep, id), Next(s, rules, EngineStep);
    EngineLive(s, rules);
    EngineReports(s, rules, id);
    EngineKeeps(s, rules);
    EndingsNotLive(s');
    LiveIssued(s);
    FinalPush(ladder, more);
    assert ladder + [] == ladder;
  }

  lemma EndingsNotLive(s: System)
    requires Inv(s)
    ensures Endings(s.broker.toClient) !! Live(s)
  {}

  lemma ReportedEndsLast(st: BrokerState, p: Payload, id: uint64)
    requires Owned(st) && Entitled(st, p) && Serves(st, p)
    ensures Fills(UpToEnd(Reported(st, p, id))) == Fills(Reported(st, p, id))
  {
    hide WellFormed, Disjoint, Apply, Low32, Fills, UpToEnd, Reports;
    if p.kind != RejectKind {
      OwnedIsSound(st);
      hide Owned, Entitled, BookIds, Rests;
      RequestOutcome(st, Kept(st), p);
      RequestEndsLast(st.books[p.symbol], RequestOf(p), id);
    } else {
      EmptyFills();
    }
  }

  lemma EmptyFills()
    ensures UpToEnd([]) == [] && Fills([]) == []
  {}

  lemma OtherFinal(s: System, rules: HandlerSpec.Rules, step: Step, id: uint64, ladder: seq<Report>)
    requires Inv(s) && Enabled(s, step) && !step.EngineStep? && Final(Live(s), s.issued.Keys, id, ladder)
    ensures var s' := Next(s, rules, step); Final(Live(s'), s'.issued.Keys, id, ladder)
  {
    hide Inv, Fills, UpToEnd, Accepts, Enabled, Next;
    var s' := Next(s, rules, step);
    EndedNothing();
    if step.HandlerStep? {
      HandlerLive(s, rules, step.fails, step.keys);
    } else if Accepts(s, rules, step) {
      AcceptsNew(s, rules, step);
      Accepted(s, rules, step);
      EnabledNew(s, step);
      var p := s'.handler.toEngine[|s.handler.toEngine|];
      NewsPush(s.handler.toEngine, p);
    } else {
      ClientStepIsQuiet(s, rules, step);
      QuietNews(s.handler, s'.handler);
    }
  }

  lemma HandlerLive(s: System, rules: HandlerSpec.Rules, fails: bool, keys: seq<uint64>)
    requires Inv(s) && Enabled(s, HandlerStep(fails, keys))
    ensures var s' := Next(s, rules, HandlerStep(fails, keys)); Live(s') == Live(s) && s'.issued == s.issued
  {
    hide Inv, Enabled, Next, Quiet, News, BookIds;
    var q := s.broker.toClient;
    EnabledHandler(s, fails, keys);
    HandledNext(s, rules, fails, keys);
    WrittenIsQuiet(s.handler, q[0], fails, keys);
    QuietNews(s.handler, Written(s.handler, q[0], fails, keys));
    RestingSame(s.broker, s.broker.(toClient := q[1..]));
    if Forgets(s.handler, q[0]) {
      ForgetChanges(Written(s.handler, q[0], fails, keys), s.handler.known[q[0].id], q[0].id);
    }
  }

  lemma NewsPush(q: seq<Payload>, p: Payload)
    ensures News(q + [p]) <= News(q) + {p.id}
  {}

  lemma QuietNews(h: Handler, h': Handler)
    requires Quiet(h, h')
    ensures News(h'.toEngine) == News(h.toEngine)
  {
    var ext := h'.toEngine[|h.toEngine|..];
    assert h'.toEngine == h.toEngine + ext;
    forall i | 0 <= i < |ext| ensures ext[i].kind != NewOrderKind {
      assert ext[i] == h'.toEngine[|h.toEngine| + i];
      assert OnBehalf(h, ext[i]);
    }
    hide Quiet, OnBehalf;
    NewsAppend(h.toEngine, ext);
  }

  lemma {:induction false} RunFinal(s: System, rules: HandlerSpec.Rules, steps: seq<Step>, id: uint64, ladder: seq<Report>)
    requires Inv(s) && rules.Keys <= s.broker.books.Keys && Possible(s, rules, steps) && Final(Live(s), s.issued.Keys, id, ladder)
    ensures var r := ladder + LadderReports(s, rules, steps, id); Fills(UpToEnd(r)) == Fills(r)
    decreases |steps|
  {
    hide Inv, Enabled, Next, Reported, Live, Fills, UpToEnd, Ended;
    if steps == [] {
      assert ladder + [] == ladder;
    } else {
      var step := steps[0];
      var more := StepReports(s, step, id);
      InvStays(s, rules, step);
      if step.EngineStep? {
        EngineFinal(s, rules, id, ladder);
      } else {
        assert ladder + [] == ladder;
        OtherFinal(s, rules, step, id, ladder);
      }
      Associative(ladder, more, LadderReports(Next(s, rules, step), rules, steps[1..], id));
      RunFinal(Next(s, rules, step), rules, steps[1..], id, ladder + more);
    }
  }

  /**
   In every interleaving in which responses find their clients, once they have all been handled: the fills a client was
   sent for an order are the fills its ladder reported, one for one, at their quantities and prices.
   */
  lemma FillsReachTheClient(symbols: set<uint32>, rules: HandlerSpec.Rules, steps: seq<Step>, id: uint64)
    requires rules.Keys <= symbols && Possible(Start(symbols), rules, steps) && AllReach(Start(symbols), rules, steps)
    requires After(Start(symbols), rules, steps).broker.toClient == []
    ensures Fills(Told(After(Start(symbols), rules, steps).handler.sent, id)) == Fills(LadderReports(Start(symbols), rules, steps, id))
  {
    var start := Start(symbols);
    StartInv(symbols);
    EndedNothing();
    EmptyFills();
    assert start.broker.books.Keys == symbols;
    assert Final(Live(start), start.issued.Keys, id, []);
    hide *;
    ClientsHearTheLadder(symbols, rules, steps, id);
    RunFinal(start, rules, steps, id, []);
    assert [] + LadderReports(start, rules, steps, id) == LadderReports(start, rules, steps, id);
  }
}
