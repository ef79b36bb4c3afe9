/** What clients are told: every response reaches its client, and order by order they hear what the ladder reported. */
module Delivery {
  import opened ExchangeTypes
  import opened BookSpec
  import opened BookOrder
  import opened MatchTheorems
  import opened BookTheorems
  import opened QueueTheorems
  import opened Settlement
  import opened BrokerSpec
  import opened BrokerTheorems
  import opened Lifecycle
  import HandlerSpec

  // ----- one response -----

  /** The client can be reached: it has a socket, and that socket a session. */
  predicate Reachable(h: Handler, client: uint32) {
    client in h.socks && h.socks[client] in h.sessions
  }

  /**
   A response about a known order whose client can be reached, nothing failing: exactly one message, on that client's
   socket, under that client's own number for the order, with the quantity, price and flags of the response; nobody loses
   a session and the broker is asked for nothing.
   */
  lemma ResponseDelivered(h: Handler, p: Payload, keys: seq<uint64>)
    requires p.id in h.known && p.kind in {AckKind, FillKind, CloseKind}
    requires Reachable(h, h.known[p.id].client) && HandlerSpec.CanHandle(h, p, false, keys)
    ensures var h', order, client := HandlerSpec.Handle(h, p, false, keys), h.known[p.id].order, h.known[p.id].client;
      && |h'.sent| == |h.sent| + 1 && h.sent <= h'.sent
      && h'.sessions == h.sessions && h'.socks == h.socks && h'.toEngine == h.toEngine
      && var e := h'.sent[|h.sent|];
      && e.sock == h.socks[client] && e.id == p.id && e.message.order == order
      && (p.kind.AckKind? ==> e.message.Ack? && e.message.quantity == p.quantity && e.message.price == p.price)
      && (p.kind.FillKind? ==> e.message.Fill? && e.message.quantity == p.quantity && e.message.price == p.price && e.message.flags == p.flags)
      && (p.kind.CloseKind? ==> e.message.Closed?)
  {}

  /** A refusal travels to the client that asked, with its own number for the order and the reason. */
  lemma RefusalDelivered(h: Handler, p: Payload, keys: seq<uint64>)
    requires p.kind.RejectKind? && Reachable(h, p.client) && HandlerSpec.CanHandle(h, p, false, keys)
    ensures HandlerSpec.Handle(h, p, false, keys) == h.(sent := h.sent + [HandlerSpec.Sent(h.socks[p.client], p.id, HandlerSpec.Rejected(p.id, p.flags))])
  {}

  /** Who a response is for. */
  function Addressee(h: Handler, p: Payload): uint32
    requires p.kind.RejectKind? || p.id in h.known
  {
    if p.kind.RejectKind? then p.client else h.known[p.id].client
  }

  /**
   A send that fails tells nobody anything and costs the client its session: its socket is forgotten and a delete is
   queued for every order it had open.
   */
  lemma FailureDisconnects(h: Handler, p: Payload, keys: seq<uint64>)
    requires p.kind in {RejectKind, AckKind, FillKind, CloseKind} && (p.kind != RejectKind ==> p.id in h.known)
    requires Reachable(h, Addressee(h, p)) && HandlerSpec.CanHandle(h, p, true, keys)
    requires h.sessions[h.socks[Addressee(h, p)]].client == Addressee(h, p)
    ensures var h', c := HandlerSpec.Handle(h, p, true, keys), Addressee(h, p);
      && h'.sent == h.sent && c !in h'.socks && h.socks[c] !in h'.sessions
      && |h'.toEngine| == |h.toEngine| + |keys| && h.toEngine <= h'.toEngine
      && forall o :: HandlerSpec.Tracks(h, c, o) ==>
        exists i :: 0 <= i < |keys| && keys[i] == o && var q := h'.toEngine[|h.toEngine| + i];
          q.kind.DeleteOrderKind? && q.id == h.open[c][o].id && q.symbol == h.open[c][o].symbol && q.client == c
  {
    hide HandlerSpec.Forget;
    var c := Addressee(h, p);
    var h1 := HandlerSpec.SocketClosed(h, h.socks[c], keys);
    FailedIs(h, p, keys);
    forall o | HandlerSpec.Tracks(h, c, o)
      ensures exists i :: 0 <= i < |keys| && keys[i] == o && var q := h1.toEngine[|h.toEngine| + i];
        q.kind.DeleteOrderKind? && q.id == h.open[c][o].id && q.symbol == h.open[c][o].symbol && q.client == c
    {
      var i :| 0 <= i < |keys| && keys[i] == o;
      assert h1.toEngine[|h.toEngine| + i] == HandlerSpec.DeletePayload(h.open[c][o], 0, c);
    }
  }

  lemma FailedIs(h: Handler, p: Payload, keys: seq<uint64>)
    requires p.kind in {RejectKind, AckKind, FillKind, CloseKind} && (p.kind != RejectKind ==> p.id in h.known)
    requires Reachable(h, Addressee(h, p)) && HandlerSpec.CanHandle(h, p, true, keys)
    ensures var h1, h' := HandlerSpec.SocketClosed(h, h.socks[Addressee(h, p)], keys), HandlerSpec.Handle(h, p, true, keys);
      h'.sent == h1.sent && h'.socks == h1.socks && h'.sessions == h1.sessions && h'.toEngine == h1.toEngine
  {
    hide HandlerSpec.SocketClosed;
  }

  /** Nobody there to tell: nothing is sent. */
  lemma NobodyToTell(h: Handler, p: Payload, fails: bool, keys: seq<uint64>)
    requires HandlerSpec.CanHandle(h, p, fails, keys)
    requires (p.kind != RejectKind && p.id !in h.known) || !Reachable(h, Addressee(h, p))
    ensures HandlerSpec.Handle(h, p, fails, keys).sent == h.sent
  {}

  // ----- what is told about one order -----

  /** What can be said of an order: accepted or amended, filled in part or for the last time, over. */
  datatype Report = Acked(quantity: uint32, price: int) | Traded(quantity: uint32, price: int, last: bool) | Over

  /** What the ladder reports of an order. */
  function Reports(events: seq<Event>, id: uint64): seq<Report> {
    if events == [] then []
    else
      (if events[0].id != id then []
       else match events[0]
         case OnNewOrder(_, _, quantity, price, _) => [Acked(quantity, price)]
         case OnModifyOrder(_, _, quantity, price) => [Acked(quantity, price)]
         case OnDeleteOrder(_, _) => [Over]
         case OnFill(_, _, quantity, price, closed, _) => [Traded(quantity, price, closed)]
         case _ => [])
      + Reports(events[1..], id)
  }

  /** What is on its way to the handler about an order. */
  function Queued(q: seq<Payload>, id: uint64): seq<Report> {
    if q == [] then []
    else
      (if q[0].id != id then []
       else match q[0].kind
         case AckKind => [Acked(q[0].quantity, q[0].price)]
         case FillKind => [Traded(q[0].quantity, q[0].price, HandlerSpec.IsClosed(q[0].flags))]
         case CloseKind => [Over]
         case _ => [])
      + Queued(q[1..], id)
  }

  /** What has been written to a client about an order. */
  function Told(sent: seq<HandlerSpec.Sent>, id: uint64): seq<Report> {
    if sent == [] then []
    else
      (if sent[0].id != id then []
       else match sent[0].message
         case Ack(_, quantity, price) => [Acked(quantity, price)]
         case Fill(_, quantity, price, flags) => [Traded(quantity, price, HandlerSpec.IsClosed(flags))]
         case Closed(_) => [Over]
         case Rejected(_, _) => [])
      + Told(sent[1..], id)
  }

  predicate Ends(r: Report) {
    r.Over? || (r.Traded? && r.last)
  }

  predicate Ended(r: seq<Report>) {
    exists i :: 0 <= i < |r| && Ends(r[i])
  }

  /** Everything up to and including the first report that ends the order. */
  function UpToEnd(r: seq<Report>): seq<Report> {
    if r == [] then [] else if Ends(r[0]) then [r[0]] else [r[0]] + UpToEnd(r[1..])
  }

  function Fills(r: seq<Report>): seq<Report> {
    if r == [] then [] else (if r[0].Traded? then [r[0]] else []) + Fills(r[1..])
  }

  lemma {:induction false} ReportsConcat(a: seq<Event>, b: seq<Event>, id: uint64)
    ensures Reports(a + b, id) == Reports(a, id) + Reports(b, id)
  {
    if a == [] {
      assert a + b == b;
    } else {
      assert (a + b)[1..] == a[1..] + b;
      ReportsConcat(a[1..], b, id);
    }
  }

  lemma {:induction false} QueuedConcat(a: seq<Payload>, b: seq<Payload>, id: uint64)
    ensures Queued(a + b, id) == Queued(a, id) + Queued(b, id)
  {
    if a == [] {
      assert a + b == b;
    } else {
      assert (a + b)[1..] == a[1..] + b;
      QueuedConcat(a[1..], b, id);
    }
  }

  lemma {:induction false} ToldConcat(a: seq<HandlerSpec.Sent>, b: seq<HandlerSpec.Sent>, id: uint64)
    ensures Told(a + b, id) == Told(a, id) + Told(b, id)
  {
    if a == [] {
      assert a + b == b;
    } else {
      assert (a + b)[1..] == a[1..] + b;
      ToldConcat(a[1..], b, id);
    }
  }

  lemma {:induction false} EndConcat(a: seq<Report>, b: seq<Report>)
    ensures UpToEnd(a + b) == if Ended(a) then UpToEnd(a) else a + UpToEnd(b)
    ensures Ended(a + b) <==> Ended(a) || Ended(b)
    ensures Fills(a + b) == Fills(a) + Fills(b)
  {
    if a == [] {
      assert a + b == b;
    } else {
      var t := a[1..];
      assert (a + b)[1..] == t + b && (a + b)[0] == a[0];
      EndConcat(t, b);
      EndedTail(a);
      EndedTail(a + b);
      hide Ended, Ends;
      if !Ended(a) {
        assert a + UpToEnd(b) == [a[0]] + (t + UpToEnd(b));
      }
    }
  }

  lemma EndedTail(r: seq<Report>)
    requires r != []
    ensures Ended(r) <==> Ends(r[0]) || Ended(r[1..])
  {
    var t := r[1..];
    assert forall i {:trigger t[i]} :: 0 <= i < |t| ==> t[i] == r[i + 1];
    if Ended(r) && !Ends(r[0]) {
      var i :| 0 <= i < |r| && Ends(r[i]);
      assert Ends(t[i - 1]);
    }
  }

  lemma {:induction false} UpToEndEnds(r: seq<Report>)
    ensures Ended(UpToEnd(r)) <==> Ended(r)
    ensures !Ended(r) ==> UpToEnd(r) == r
  {
    if r != [] {
      EndedTail(r);
      EndedTail(UpToEnd(r));
      UpToEndEnds(r[1..]);
    }
  }

  // ----- the broker passes every report on -----

  lemma {:induction false} ResponsesReport(c: Context, events: seq<Event>, id: uint64)
    requires AllAttributable(c.owners, events)
    ensures Queued(Responses(c, events), id) == Reports(events, id)
  {
    if events != [] {
      var r := Response(c, events[0]);
      ResponsesReport(c, events[1..], id);
      QueuedConcat(r, Responses(c, events[1..]), id);
      if r != [] {
        assert r == [r[0]] && r[1..] == [];
      }
    }
  }

  predicate Serves(st: BrokerState, p: Payload) {
    p.kind != RejectKind ==> p.kind in {NewOrderKind, DeleteOrderKind, ModifyOrderKind} && p.symbol in st.books
  }

  /** What a request makes the ladder report of an order. */
  ghost function Reported(st: BrokerState, p: Payload, id: uint64): seq<Report>
    requires Serves(st, p)
  {
    if p.kind.RejectKind? then [] else Reports(Apply(st.books[p.symbol], RequestOf(p)).events, id)
  }

  lemma ServedReports(st: BrokerState, p: Payload, id: uint64)
    requires Owned(st) && Entitled(st, p)
    ensures Queued(BrokerApply(st, p).0.toClient, id) == Queued(st.toClient, id) + Reported(st, p, id)
  {
    hide BookIds, WellFormed, Apply, Low32, Disjoint, Rests, Queued, Reports, Responses;
    OwnedStays(st, p);
    if p.kind.RejectKind? {
      QueuedConcat(st.toClient, [p], id);
      RejectSaysNothing(p, id);
      assert Queued(st.toClient, id) + [] == Queued(st.toClient, id);
    } else {
      var ev := Apply(st.books[p.symbol], RequestOf(p)).events;
      assert ev[..|ev|] == ev;
      var c := Context(BrokerApply(st, p).0.owners, p.symbol, p.clientSeq, p.client);
      ResponsesReport(c, ev, id);
      QueuedConcat(st.toClient, Responses(c, ev), id);
    }
  }

  lemma RejectSaysNothing(p: Payload, id: uint64)
    requires p.kind.RejectKind?
    ensures Queued([p], id) == []
  {
    assert [p][1..] == [];
  }

  lemma {:induction false} NoReports(events: seq<Event>, id: uint64)
    requires forall i :: 0 <= i < |events| ==> events[i].id != id
    ensures Reports(events, id) == []
  {
    if events != [] {
      NoReports(events[1..], id);
    }
  }

  /** Nothing is reported of an order that neither rests nor is entered. */
  lemma SilentUnlessLive(b: Book, req: Request, id: uint64)
    requires WellFormed(b) && id !in BookIds(b) && (req.New? ==> req.id != id)
    ensures Reports(Apply(b, req).events, id) == []
  {
    hide WellFormed, BookIds, Apply, InBook;
    var ev := Apply(b, req).events;
    if req.id == id {
      NotInBook(b, id);
      RejectedExactly(b, req);
      assert ev[1..] == [];
    } else {
      ApplyEventsIn(b, req);
      forall i | 0 <= i < |ev| ensures ev[i].id != id {
        assert EventIn(ev[i], BookIds(b) + {req.id});
      }
      NoReports(ev, id);
    }
  }

  lemma NothingReported(s: System, id: uint64)
    requires Inv(s) && s.handler.toEngine != [] && id !in Live(s)
    ensures Serves(s.broker, s.handler.toEngine[0]) && Reported(s.broker, s.handler.toEngine[0], id) == []
  {
    hide BookIds, WellFormed, Disjoint, Apply, Accounted, NewOnce, Named, Reports, Low32;
    var q, st := s.handler.toEngine, s.broker;
    ServicedHead(s);
    if q[0].kind != RejectKind {
      assert q[0].kind.NewOrderKind? ==> q[0].id in News(q);
      assert id !in Resting(st);
      SilentUnlessLive(st.books[q[0].symbol], RequestOf(q[0]), id);
    }
  }

  // ----- runs in which every response finds its client -----

  /** A response that is handled finds its client, and the send succeeds. */
  predicate Reaches(s: System, step: Step) {
    step.HandlerStep? && s.broker.toClient != [] && s.broker.toClient[0].kind in {AckKind, FillKind, CloseKind}
      && s.broker.toClient[0].id in s.handler.known ==>
      !step.fails && Reachable(s.handler, s.handler.known[s.broker.toClient[0].id].client)
  }

  ghost predicate AllReach(s: System, rules: HandlerSpec.Rules, steps: seq<Step>)
    requires Possible(s, rules, steps)
    decreases |steps|
  {
    steps == [] || (Reaches(s, steps[0]) && AllReach(Next(s, rules, steps[0]), rules, steps[1..]))
  }

  /** What one step makes the ladder report of an order. */
  ghost function StepReports(s: System, step: Step, id: uint64): seq<Report> {
    if step.EngineStep? && s.handler.toEngine != [] && Serves(s.broker, s.handler.toEngine[0])
    then Reported(s.broker, s.handler.toEngine[0], id) else []
  }

  /** Everything the ladders reported of an order over a run. */
  ghost function LadderReports(s: System, rules: HandlerSpec.Rules, steps: seq<Step>, id: uint64): seq<Report>
    requires Possible(s, rules, steps)
    decreases |steps|
  {
    if steps == [] then []
    else StepReports(s, steps[0], id) + LadderReports(Next(s, rules, steps[0]), rules, steps[1..], id)
  }

  /** An order the handler still knows has been told of, or will be, all there is; one it has forgotten, all up to its end. */
  ghost predicate InformedBy(told: seq<Report>, queued: seq<Report>, known: bool, issued: bool, ladder: seq<Report>) {
    && (known ==> issued && !Ended(told) && told + queued == ladder)
    && (issued && !known ==> Ended(told) && told == UpToEnd(ladder))
    && (!issued ==> told == [] && queued == [] && ladder == [])
  }

  ghost predicate Informed(s: System, id: uint64, ladder: seq<Report>) {
    InformedBy(Told(s.handler.sent, id), Queued(s.broker.toClient, id), id in s.handler.known, id in s.issued, ladder)
  }

  lemma EngineInforms(s: System, rules: HandlerSpec.Rules, id: uint64, ladder: seq<Report>)
    requires Inv(s) && Enabled(s, EngineStep) && Informed(s, id, ladder)
    ensures Informed(Next(s, rules, EngineStep), id, ladder + StepReports(s, EngineStep, id))
  {
    var q, st := s.handler.toEngine, s.broker;
    assert q != [];
    var s' := Next(s, rules, EngineStep);
    assert s'.broker == BrokerApply(st, q[0]).0 && s'.handler == s.handler.(toEngine := q[1..]) && s'.issued == s.issued;
    hide Inv, Enabled, Next, BrokerApply, Reported, Told, Queued, UpToEnd, Ended;
    ServicedHead(s);
    ShelvedIsOwned(st, s.issued);
    HeadIsEntitled(s);
    assert Serves(st, q[0]) by { ServesEntitled(st, q[0]); }
    ServedReports(st, q[0], id);
    var told, queued, more := Told(s.handler.sent, id), Queued(st.toClient, id), Reported(st, q[0], id);
    if id in s.handler.known {
      Associative(told, queued, more);
    } else if id in s.issued {
      UpToEndEnds(ladder);
      EndConcat(ladder, more);
    } else {
      LiveIssued(s);
      NothingReported(s, id);
    }
  }

  lemma ServesEntitled(st: BrokerState, p: Payload)
    requires Entitled(st, p)
    ensures Serves(st, p)
  {}

  lemma LiveIssued(s: System)
    requires Inv(s)
    ensures Live(s) <= s.handler.known.Keys <= s.issued.Keys
  {}

  lemma QueuedPop(q: seq<Payload>, id: uint64)
    requires q != []
    ensures Queued(q, id) == Queued([q[0]], id) + Queued(q[1..], id)
    ensures q[0].id != id ==> Queued([q[0]], id) == [] && !Ended([]) && UpToEnd([]) == []
  {
    assert q == [q[0]] + q[1..];
    QueuedConcat([q[0]], q[1..], id);
  }

  /** A response handled, when it finds its client, is one report told. */
  lemma HandledTells(h: Handler, p: Payload, fails: bool, keys: seq<uint64>, id: uint64)
    requires HandlerSpec.CanHandle(h, p, fails, keys)
    requires p.kind in {AckKind, FillKind, CloseKind} && p.id in h.known ==> !fails && Reachable(h, h.known[p.id].client)
    ensures var h' := HandlerSpec.Handle(h, p, fails, keys);
      && Told(h'.sent, id) == Told(h.sent, id) + (if p.id in h.known then Queued([p], id) else [])
      && h'.known == (if HandlerSpec.Terminal(p) then h.known - {p.id} else h.known)
  {
    hide Told;
    var h' := HandlerSpec.Handle(h, p, fails, keys);
    var told := Told(h.sent, id);
    assert [p][1..] == [] && told + [] == told;
    if p.kind in {AckKind, FillKind, CloseKind} && p.id in h.known {
      ResponseDelivered(h, p, keys);
      var e := h'.sent[|h.sent|];
      assert h'.sent == h.sent + [e];
      ToldConcat(h.sent, [e], id);
      ToldOne(e, p, id);
    } else if p.kind.RejectKind? {
      RefusalSaysNothing(h, p, fails, keys, id);
    }
  }

  lemma ToldOne(e: HandlerSpec.Sent, p: Payload, id: uint64)
    requires e.id == p.id
    requires p.kind.AckKind? ==> e.message.Ack? && e.message.quantity == p.quantity && e.message.price == p.price
    requires p.kind.FillKind? ==> e.message.Fill? && e.message.quantity == p.quantity && e.message.price == p.price && e.message.flags == p.flags
    requires p.kind.CloseKind? ==> e.message.Closed?
    requires p.kind in {AckKind, FillKind, CloseKind}
    ensures Told([e], id) == Queued([p], id)
  {
    assert [e][1..] == [] && [p][1..] == [];
  }

  lemma RefusalSaysNothing(h: Handler, p: Payload, fails: bool, keys: seq<uint64>, id: uint64)
    requires p.kind.RejectKind? && HandlerSpec.CanHandle(h, p, fails, keys)
    ensures Told(HandlerSpec.Handle(h, p, fails, keys).sent, id) == Told(h.sent, id)
  {
    hide Told;
    if Reachable(h, p.client) {
      if fails {
        ClosingSendsNothing(h, h.socks[p.client], keys);
      } else {
        RefusalDelivered(h, p, keys);
        var e := HandlerSpec.Sent(h.socks[p.client], p.id, HandlerSpec.Rejected(p.id, p.flags));
        ToldConcat(h.sent, [e], id);
        NothingTold(e, id);
      }
    } else {
      NobodyToTell(h, p, fails, keys);
    }
  }

  lemma NothingTold(e: HandlerSpec.Sent, id: uint64)
    requires e.message.Rejected?
    ensures Told([e], id) == []
  {
    assert [e][1..] == [];
  }

  lemma EndsIsTerminal(p: Payload, id: uint64)
    requires p.id == id
    ensures Ended(Queued([p], id)) <==> HandlerSpec.Terminal(p)
    ensures !HandlerSpec.Terminal(p) || Queued([p], id) != []
    ensures UpToEnd(Queued([p], id)) == Queued([p], id)
  {
    assert [p][1..] == [];
    var r := Queued([p], id);
    if r != [] { assert r == [r[0]] && r[1..] == []; }
  }

  lemma HandlerInforms(s: System, rules: HandlerSpec.Rules, fails: bool, keys: seq<uint64>, id: uint64, ladder: seq<Report>)
    requires Inv(s) && Enabled(s, HandlerStep(fails, keys)) && Reaches(s, HandlerStep(fails, keys)) && Informed(s, id, ladder)
    ensures Informed(Next(s, rules, HandlerStep(fails, keys)), id, ladder)
  {
    hide *;
    var h, q := s.handler, s.broker.toClient;
    InformedIs(s, id, ladder);
    HandledChanges(s, rules, fails, keys, id);
    QueuedPop(q, id);
    if q[0].id == id {
      EndsIsTerminal(q[0], id);
    }
    HandledInforms(Told(h.sent, id), Queued([q[0]], id), Queued(q[1..], id), id in h.known, id in s.issued, ladder,
                   q[0].id == id && HandlerSpec.Terminal(q[0]));
    assert Told(h.sent, id) + [] == Told(h.sent, id);
    InformedIs(Next(s, rules, HandlerStep(fails, keys)), id, ladder);
  }

  lemma InformedIs(s: System, id: uint64, ladder: seq<Report>)
    ensures Informed(s, id, ladder) ==
      InformedBy(Told(s.handler.sent, id), Queued(s.broker.toClient, id), id in s.handler.known, id in s.issued, ladder)
  {
    hide InformedBy;
  }

  lemma HandledChanges(s: System, rules: HandlerSpec.Rules, fails: bool, keys: seq<uint64>, id: uint64)
    requires Enabled(s, HandlerStep(fails, keys)) && Reaches(s, HandlerStep(fails, keys))
    ensures s.broker.toClient != []
    ensures var q, s' := s.broker.toClient, Next(s, rules, HandlerStep(fails, keys));
      && Told(s'.handler.sent, id) == Told(s.handler.sent, id) + (if q[0].id in s.handler.known then Queued([q[0]], id) else [])
      && s'.handler.known == (if HandlerSpec.Terminal(q[0]) then s.handler.known - {q[0].id} else s.handler.known)
      && s'.broker.toClient == q[1..] && s'.issued == s.issued
  {
    var h, q := s.handler, s.broker.toClient;
    assert Next(s, rules, HandlerStep(fails, keys)) == s.(handler := HandlerSpec.Handle(h, q[0], fails, keys), broker := s.broker.(toClient := q[1..]));
    hide Told, Queued, HandlerSpec.Terminal, HandlerSpec.Handle, HandlerSpec.CanHandle;
    HandledTells(h, q[0], fails, keys, id);
  }

  /** The next report on its way is told, if the order is still known; when it is the last the order is forgotten. */
  lemma HandledInforms(told: seq<Report>, one: seq<Report>, rest: seq<Report>, known: bool, issued: bool, ladder: seq<Report>, ends: bool)
    requires InformedBy(told, one + rest, known, issued, ladder)
    requires (ends <==> Ended(one)) && UpToEnd(one) == one
    ensures InformedBy(if known then told + one else told, rest, known && !ends, issued, ladder)
  {
    if known {
      OneMoreTold(told, one, rest);
      assert told + one + rest == ladder;
    }
    hide Ended, UpToEnd;
  }

  lemma OneMoreTold(told: seq<Report>, one: seq<Report>, rest: seq<Report>)
    requires !Ended(told) && UpToEnd(one) == one
    ensures (told + one) + rest == told + (one + rest)
    ensures Ended(told + one) <==> Ended(one)
    ensures Ended(one) ==> UpToEnd(told + (one + rest)) == told + one
  {
    hide *;
    Associative(told, one, rest);
    EndConcat(told, one);
    EndConcat(told, one + rest);
    EndConcat(one, rest);
  }

  lemma ClientInforms(s: System, rules: HandlerSpec.Rules, step: Step, id: uint64, ladder: seq<Report>)
    requires Inv(s) && Enabled(s, step) && !step.EngineStep? && !step.HandlerStep? && Informed(s, id, ladder)
    ensures Informed(Next(s, rules, step), id, ladder)
  {
    hide Inv, Enabled, Next, Told, Queued, UpToEnd, Accepts;
    if Accepts(s, rules, step) {
      AcceptsNew(s, rules, step);
      Accepted(s, rules, step);
      EnabledNew(s, step);
      EndedNothing();
    } else {
      ClientStepIsQuiet(s, rules, step);
      QuietKnown(s.handler, Next(s, rules, step).handler);
    }
  }

  lemma AcceptsNew(s: System, rules: HandlerSpec.Rules, step: Step)
    requires Accepts(s, rules, step)
    ensures step.ClientNew?
  {}

  lemma EndedNothing()
    ensures !Ended([])
  {}

  lemma {:induction false} RunInforms(s: System, rules: HandlerSpec.Rules, steps: seq<Step>, id: uint64, ladder: seq<Report>)
    requires Inv(s) && rules.Keys <= s.broker.books.Keys && Possible(s, rules, steps) && AllReach(s, rules, steps) && Informed(s, id, ladder)
    ensures Informed(After(s, rules, steps), id, ladder + LadderReports(s, rules, steps, id))
    decreases |steps|
  {
    hide Inv, Enabled, Next, Informed, Reaches, Reported;
    if steps == [] {
      assert ladder + [] == ladder;
    } else {
      var step := steps[0];
      InvStays(s, rules, step);
      if step.EngineStep? {
        EngineInforms(s, rules, id, ladder);
      } else {
        assert ladder + [] == ladder;
        if step.HandlerStep? {
          HandlerInforms(s, rules, step.fails, step.keys, id, ladder);
        } else {
          ClientInforms(s, rules, step, id, ladder);
        }
      }
      Associative(ladder, StepReports(s, step, id), LadderReports(Next(s, rules, step), rules, steps[1..], id));
      RunInforms(Next(s, rules, step), rules, steps[1..], id, ladder + StepReports(s, step, id));
    }
  }

  /**
   In every interleaving in which responses find their clients: order by order, a client has been told what the ladder
   reported, in sequence, with its quantities and prices, up to the end of the order; what it has not been told yet of an
   order that is not over is on its way.
   */
  lemma ClientsHearTheLadder(symbols: set<uint32>, rules: HandlerSpec.Rules, steps: seq<Step>, id: uint64)
    requires rules.Keys <= symbols && Possible(Start(symbols), rules, steps) && AllReach(Start(symbols), rules, steps)
    ensures var s, ladder := After(Start(symbols), rules, steps), LadderReports(Start(symbols), rules, steps, id);
      && (id in s.handler.known ==> Told(s.handler.sent, id) + Queued(s.broker.toClient, id) == ladder)
      && (id in s.issued && id !in s.handler.known ==> Told(s.handler.sent, id) == UpToEnd(ladder))
      && (s.broker.toClient == [] ==> Told(s.handler.sent, id) == UpToEnd(ladder))
  {
    var start := Start(symbols);
    assert Informed(start, id, []) && start.broker.books.Keys == symbols;
    StartInv(symbols);
    hide Inv, Enabled, Next, Possible, After, AllReach, Informed, LadderReports, Start, UpToEnd, Told;
    RunInforms(start, rules, steps, id, []);
    var s, ladder := After(start, rules, steps), LadderReports(start, rules, steps, id);
    assert [] + ladder == ladder;
    InformedParts(s, id, ladder);
  }

  lemma InformedParts(s: System, id: uint64, ladder: seq<Report>)
    requires Informed(s, id, ladder)
    ensures id in s.handler.known ==> Told(s.handler.sent, id) + Queued(s.broker.toClient, id) == ladder
    ensures id in s.issued && id !in s.handler.known ==> Told(s.handler.sent, id) == UpToEnd(ladder)
    ensures s.broker.toClient == [] ==> Told(s.handler.sent, id) == UpToEnd(ladder)
  {
    hide Told, Ended;
    if s.broker.toClient == [] && id in s.handler.known {
      assert Told(s.handler.sent, id) + [] == Told(s.handler.sent, id);
      UpToEndEnds(ladder);
    }
  }
}
