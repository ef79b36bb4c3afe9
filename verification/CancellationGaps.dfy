/** Two runs of the code as it is after which both queues are empty, a client has no session, and its order still rests. */
module CancellationGaps {
  import opened ExchangeTypes
  import opened BookSpec
  import opened BookTheorems
  import opened BrokerSpec
  import opened BrokerTheorems
  import opened BrokerLog
  import opened Lifecycle
  import opened Cancellation
  import HandlerSpec

  const SYMBOL: uint32 := 1

  function AnyOrder(): HandlerSpec.Rules {
    map[SYMBOL := HandlerSpec.SymbolRules(1, 1, 100, 1000, 0)]
  }

  function Asked(session: uint64, client: uint32): HandlerSpec.NewRequest {
    HandlerSpec.NewRequest(session, client, 1, 5, SYMBOL, Buy, 10, 100, 0)
  }

  function Login(sock: HandlerSpec.Sock, client: uint32, session: uint64): Step {
    ClientLogin(sock, client, true, session, false, [])
  }

  function Entry(client: uint32, id: uint64): Payload {
    Payload(NewOrderKind, id, SYMBOL, 1, client, Buy, 10, 100, 0)
  }

  function AckOf(client: uint32, id: uint64): Payload {
    Payload(AckKind, id, SYMBOL, 1, client, Buy, 10, 100, 0)
  }

  function CloseOf(client: uint32, id: uint64): Payload {
    Payload(CloseKind, id, 0, 0, client, Buy, 0, 0, 0)
  }

  function Rested(id: uint64): Book {
    Book([Order(id, Buy, 100, 10, 0, 0)], [])
  }

  /** Entering the order into an empty ladder. */
  lemma EnteringEmpty(id: uint64)
    ensures var r := Apply(Book([], []), New(id, Buy, 10, 100, 0));
      r.book == Rested(id) && r.events == [OnNewOrder(id, Buy, 10, 100, 0)] && r.outcome == Done
  {
    var m := Match(id, Buy, 10, 100, []);
    assert m == MatchResult(10, [], []);
    assert !InBook(Book([], []), id);
    assert Insert([], Order(id, Buy, 100, 10, 0, 0)) == [Order(id, Buy, 100, 10, 0, 0)];
  }

  lemma Deleting(id: uint64)
    ensures var r := Apply(Rested(id), Delete(id));
      r.book == Book([], []) && r.events == [OnDeleteOrder(id, true)] && r.outcome == Done
  {
    var os := [Order(id, Buy, 100, 10, 0, 0)];
    assert IndexOf(os, id) == 0;
    assert Without(os, 0) == [];
  }

  lemma EnterServed(st: BrokerState, client: uint32, id: uint64)
    requires st.books == map[SYMBOL := Book([], [])]
    ensures var st' := BrokerApply(st, Entry(client, id)).0;
      st'.books == map[SYMBOL := Rested(id)] && st'.toClient == st.toClient + [AckOf(client, id)]
  {
    EnteringEmpty(id);
    hide Apply;
    var p := Entry(client, id);
    var ev := [OnNewOrder(id, Buy, 10, 100, 0)];
    var owners := st.owners[Low32(id) := client];
    var c := Context(owners, SYMBOL, 1, client);
    assert Completed(owners, ev) == 1 && ev[..1] == ev;
    assert Responses(c, ev) == [AckOf(client, id)] by { assert ev[1..] == []; }
  }

  lemma CancelServed(st: BrokerState, client: uint32, id: uint64)
    requires st.books == map[SYMBOL := Rested(id)]
    ensures var st' := BrokerApply(st, HandlerSpec.DeletePayload(HandlerSpec.OpenOrder(id, SYMBOL), 0, client)).0;
      st'.books == map[SYMBOL := Book([], [])] && st'.toClient == st.toClient + [CloseOf(client, id)]
  {
    Deleting(id);
    hide Apply;
    var ev := [OnDeleteOrder(id, true)];
    var c := Context(st.owners, SYMBOL, 0, client);
    assert Completed(st.owners, ev) == 1 && ev[..1] == ev;
    assert Responses(c, ev) == [CloseOf(client, id)] by { assert ev[1..] == []; }
  }

  lemma Prepend(s: System, rules: HandlerSpec.Rules, step: Step, rest: seq<Step>)
    requires Enabled(s, step) && Possible(Next(s, rules, step), rules, rest)
    ensures Possible(s, rules, [step] + rest) && After(s, rules, [step] + rest) == After(Next(s, rules, step), rules, rest)
  {
    assert ([step] + rest)[1..] == rest;
  }

  /** Everything has drained, the client has no session, and its order still rests. */
  ghost predicate Stranded(s: System, client: uint32, id: uint64) {
    && s.handler.toEngine == [] && s.broker.toClient == []
    && id in Resting(s.broker) && id in s.issued && s.issued[id].client == client && Gone(s.handler, client)
  }

  lemma RestedRests(st: BrokerState, id: uint64)
    requires st.books == map[SYMBOL := Rested(id)]
    ensures id in Resting(st)
  {
    assert st.books[SYMBOL].bids[0].id == id;
    assert id in BookIds(st.books[SYMBOL]);
  }

  lemma Nothing(s: System, rules: HandlerSpec.Rules)
    ensures Possible(s, rules, []) && After(s, rules, []) == s
  {}

  // ----- a login over a live session -----

  /** Client 7 trades; client 8 logs in on the same socket; the socket closes. */
  function OverwrittenRun(): seq<Step> {
    [Login(1, 7, 70)] + ([ClientNew(1, Asked(70, 7), 100)] + ([Login(1, 8, 80)] + ([Disconnect(1, [])] + Settling())))
  }

  /** The broker serves one request and the handler its response. */
  function Settling(): seq<Step> {
    [EngineStep] + ([HandlerStep(false, [])] + [])
  }

  function LoggedIn(): System {
    var h := HandlerSpec.Handler(map[1 := HandlerSpec.Session(70, 7)], map[7 := 1], map[], map[], [], []);
    System(h, Idle({SYMBOL}), map[])
  }

  function Entered(): System {
    var h := HandlerSpec.Handler(map[1 := HandlerSpec.Session(70, 7)], map[7 := 1], map[7 := map[5 := HandlerSpec.OpenOrder(100, SYMBOL)]],
                                 map[100 := HandlerSpec.ClientOrder(7, 5)], [Entry(7, 100)], []);
    System(h, Idle({SYMBOL}), map[100 := Issue(7, 5, SYMBOL)])
  }

  function Overwritten(): System {
    var s := Entered();
    s.(handler := s.handler.(sessions := map[1 := HandlerSpec.Session(80, 8)], socks := map[7 := 1, 8 := 1]))
  }

  function Hung(): System {
    var s := Entered();
    s.(handler := s.handler.(sessions := map[], socks := map[7 := 1]))
  }

  lemma OpensAndEnters()
    ensures Enabled(Start({SYMBOL}), Login(1, 7, 70)) && Next(Start({SYMBOL}), AnyOrder(), Login(1, 7, 70)) == LoggedIn()
    ensures Enabled(LoggedIn(), ClientNew(1, Asked(70, 7), 100))
    ensures Next(LoggedIn(), AnyOrder(), ClientNew(1, Asked(70, 7), 100)) == Entered()
  {
    hide BrokerApply;
  }

  lemma OverwritesAndHangs()
    ensures Enabled(Entered(), Login(1, 8, 80)) && Next(Entered(), AnyOrder(), Login(1, 8, 80)) == Overwritten()
    ensures Enabled(Overwritten(), Disconnect(1, [])) && Next(Overwritten(), AnyOrder(), Disconnect(1, [])) == Hung()
  {
    hide BrokerApply;
  }

  /** An order entered for a client that is gone rests, and its acknowledgement goes nowhere. */
  lemma Settles(s: System, client: uint32, id: uint64)
    requires s.handler.toEngine == [Entry(client, id)] && s.broker.toClient == [] && s.broker.books == map[SYMBOL := Book([], [])]
    requires s.handler.sessions == map[] && id in s.issued && s.issued[id].client == client
    ensures Possible(s, AnyOrder(), Settling()) && Stranded(After(s, AnyOrder(), Settling()), client, id)
  {
    hide BrokerApply, Possible, After, Resting, HandlerSpec.SocketClosed, HandlerSpec.Forget;
    var rules := AnyOrder();
    EnterServed(s.broker, client, id);
    var s5 := Next(s, rules, EngineStep);
    assert s5.handler == s.handler.(toEngine := []) && s5.broker.toClient == [AckOf(client, id)];
    var s6 := Next(s5, rules, HandlerStep(false, []));
    assert s6.handler == s5.handler && s6.broker == s5.broker.(toClient := []);
    RestedRests(s6.broker, id);
    Nothing(s6, rules);
    Prepend(s5, rules, HandlerStep(false, []), []);
    Prepend(s, rules, EngineStep, [HandlerStep(false, [])] + []);
  }

  /** Without the login condition the promise fails: the overwritten session's order is never cancelled. */
  lemma OverwrittenSessionStrands()
    ensures Possible(Start({SYMBOL}), AnyOrder(), OverwrittenRun())
    ensures Stranded(After(Start({SYMBOL}), AnyOrder(), OverwrittenRun()), 7, 100)
  {
    hide Possible, After, Enabled, Next, AnyOrder, Stranded, Settling, Asked, Start;
    OpensAndEnters();
    OverwritesAndHangs();
    assert Hung().broker.books == map[SYMBOL := Book([], [])];
    Settles(Hung(), 7, 100);
    hide Hung, Overwritten, Entered, LoggedIn;
    var rules := AnyOrder();
    var r4 := [Disconnect(1, [])] + Settling();
    var r3 := [Login(1, 8, 80)] + r4;
    var r2 := [ClientNew(1, Asked(70, 7), 100)] + r3;
    Prepend(Overwritten(), rules, Disconnect(1, []), Settling());
    Prepend(Entered(), rules, Login(1, 8, 80), r4);
    Prepend(LoggedIn(), rules, ClientNew(1, Asked(70, 7), 100), r3);
    Prepend(Start({SYMBOL}), rules, Login(1, 7, 70), r2);
  }

  // ----- a client id used again too soon -----

  lemma {:induction false} Joined(s: System, rules: HandlerSpec.Rules, a: seq<Step>, b: seq<Step>)
    requires Possible(s, rules, a) && Possible(After(s, rules, a), rules, b)
    ensures Possible(s, rules, a + b) && After(s, rules, a + b) == After(After(s, rules, a), rules, b)
    decreases |a|
  {
    hide Enabled, Next;
    if a == [] {
      assert a + b == b;
    } else {
      assert (a + b)[1..] == a[1..] + b;
      Joined(Next(s, rules, a[0]), rules, a[1..], b);
    }
  }

  lemma Three(s: System, rules: HandlerSpec.Rules, a: Step, b: Step, c: Step)
    requires Enabled(s, a) && Enabled(Next(s, rules, a), b) && Enabled(Next(Next(s, rules, a), rules, b), c)
    ensures Possible(s, rules, [a, b, c]) && After(s, rules, [a, b, c]) == Next(Next(Next(s, rules, a), rules, b), rules, c)
  {
    hide Enabled, Next;
    var s1, s2 := Next(s, rules, a), Next(Next(s, rules, a), rules, b);
    Nothing(Next(s2, rules, c), rules);
    Prepend(s2, rules, c, []);
    Prepend(s1, rules, b, [c]);
    Prepend(s, rules, a, [b, c]);
    assert [a] + [b, c] == [a, b, c] && [b] + [c] == [b, c] && [c] + [] == [c];
  }

  /** Client 7 enters order 5 and hangs up. */
  function FirstVisit(): seq<Step> {
    [Login(1, 7, 70), ClientNew(1, Asked(70, 7), 100), Disconnect(1, [5])]
  }

  /** It comes back and enters order 5 again before the broker has seen either message of the first one. */
  function SecondVisit(): seq<Step> {
    [Login(2, 7, 71), ClientNew(2, Asked(71, 7), 101), EngineStep]
  }

  function BrokerCatchesUp(): seq<Step> {
    [EngineStep, EngineStep, HandlerStep(false, [])]
  }

  /** The close of the first order 5 takes away the entry of the second, so that nothing is cancelled on disconnect. */
  function HandlerCatchesUp(): seq<Step> {
    [HandlerStep(false, []), HandlerStep(false, []), Disconnect(2, [])]
  }

  function ReusedRun(): seq<Step> {
    FirstVisit() + (SecondVisit() + (BrokerCatchesUp() + HandlerCatchesUp()))
  }

  function FirstDelete(): Payload {
    HandlerSpec.DeletePayload(HandlerSpec.OpenOrder(100, SYMBOL), 0, 7)
  }

  ghost predicate Visited(s: System) {
    s == System(HandlerSpec.Handler(map[], map[], map[], map[100 := HandlerSpec.ClientOrder(7, 5)], [Entry(7, 100), FirstDelete()], []),
                Idle({SYMBOL}), map[100 := Issue(7, 5, SYMBOL)])
  }

  /** What the handler holds while client 7 is back: two exchange orders under one client id, one entry. */
  predicate Back(h: Handler) {
    && h.sessions == map[2 := HandlerSpec.Session(71, 7)] && h.socks == map[7 := 2]
    && h.open == map[7 := map[5 := HandlerSpec.OpenOrder(101, SYMBOL)]]
    && h.known == map[100 := HandlerSpec.ClientOrder(7, 5), 101 := HandlerSpec.ClientOrder(7, 5)]
  }

  ghost predicate Reused(s: System) {
    && Back(s.handler) && s.handler.toEngine == [FirstDelete(), Entry(7, 101)]
    && s.broker.books == map[SYMBOL := Rested(100)] && s.broker.toClient == [AckOf(7, 100)]
    && 101 in s.issued && s.issued[101].client == 7
  }

  ghost predicate Answered(s: System) {
    && Back(s.handler) && s.handler.toEngine == []
    && s.broker.books == map[SYMBOL := Rested(101)] && s.broker.toClient == [CloseOf(7, 100), AckOf(7, 101)]
    && 101 in s.issued && s.issued[101].client == 7
  }

  lemma VisitsOnce()
    ensures Possible(Start({SYMBOL}), AnyOrder(), FirstVisit()) && Visited(After(Start({SYMBOL}), AnyOrder(), FirstVisit()))
  {
    hide BrokerApply, Possible, After;
    OpensAndEnters();
    var s := Next(Entered(), AnyOrder(), Disconnect(1, [5]));
    assert HandlerSpec.Cancels(map[5 := HandlerSpec.OpenOrder(100, SYMBOL)], [5], 7) == [FirstDelete()];
    assert Visited(s);
    Three(Start({SYMBOL}), AnyOrder(), Login(1, 7, 70), ClientNew(1, Asked(70, 7), 100), Disconnect(1, [5]));
  }

  lemma VisitsAgain(s: System)
    requires Visited(s)
    ensures Possible(s, AnyOrder(), SecondVisit()) && Reused(After(s, AnyOrder(), SecondVisit()))
  {
    hide BrokerApply, Possible, After;
    var rules := AnyOrder();
    var s1 := Next(s, rules, Login(2, 7, 71));
    var s2 := Next(s1, rules, ClientNew(2, Asked(71, 7), 101));
    assert s2.handler.toEngine == [Entry(7, 100), FirstDelete(), Entry(7, 101)];
    assert s.broker.books == map[SYMBOL := Book([], [])];
    EnterServed(s.broker, 7, 100);
    var s3 := Next(s2, rules, EngineStep);
    assert s3.handler.toEngine == [FirstDelete(), Entry(7, 101)];
    Three(s, rules, Login(2, 7, 71), ClientNew(2, Asked(71, 7), 101), EngineStep);
  }

  lemma BrokerAnswers(s: System)
    requires Reused(s)
    ensures Possible(s, AnyOrder(), BrokerCatchesUp()) && Answered(After(s, AnyOrder(), BrokerCatchesUp()))
  {
    hide BrokerApply, Possible, After, HandlerSpec.SocketClosed, HandlerSpec.Forget;
    var rules := AnyOrder();
    CancelServed(s.broker, 7, 100);
    var s1 := Next(s, rules, EngineStep);
    EnterServed(s1.broker, 7, 101);
    var s2 := Next(s1, rules, EngineStep);
    assert s2.broker.toClient == [AckOf(7, 100), CloseOf(7, 100), AckOf(7, 101)];
    Three(s, rules, EngineStep, EngineStep, HandlerStep(false, []));
  }

  lemma HandlerAnswers(s: System)
    requires Answered(s)
    ensures Possible(s, AnyOrder(), HandlerCatchesUp()) && Stranded(After(s, AnyOrder(), HandlerCatchesUp()), 7, 101)
  {
    hide BrokerApply, Possible, After, Resting;
    var rules := AnyOrder();
    var s1 := Next(s, rules, HandlerStep(false, []));
    assert s1.handler.open == map[7 := map[]] && s1.handler.sessions == s.handler.sessions && s1.broker.toClient == [AckOf(7, 101)];
    assert s1.handler.toEngine == [] && s1.handler.socks == s.handler.socks;
    var s2 := Next(s1, rules, HandlerStep(false, []));
    assert s2.handler.open == map[7 := map[]] && s2.handler.sessions == s.handler.sessions && s2.broker.toClient == [];
    assert s2.handler.toEngine == [];
    var s3 := Next(s2, rules, Disconnect(2, []));
    RestedRests(s3.broker, 101);
    Three(s, rules, HandlerStep(false, []), HandlerStep(false, []), Disconnect(2, []));
  }

  /** Without the condition on client ids the promise fails too: the second order 5 outlives its client's session. */
  lemma ReusedIdStrands()
    ensures Possible(Start({SYMBOL}), AnyOrder(), ReusedRun())
    ensures Stranded(After(Start({SYMBOL}), AnyOrder(), ReusedRun()), 7, 101)
  {
    hide Possible, After, AnyOrder, FirstVisit, SecondVisit, BrokerCatchesUp, HandlerCatchesUp, Stranded, Visited, Reused, Answered;
    var rules, s0 := AnyOrder(), Start({SYMBOL});
    VisitsOnce();
    var s1 := After(s0, rules, FirstVisit());
    VisitsAgain(s1);
    var s2 := After(s1, rules, SecondVisit());
    BrokerAnswers(s2);
    var s3 := After(s2, rules, BrokerCatchesUp());
    HandlerAnswers(s3);
    Joined(s2, rules, BrokerCatchesUp(), HandlerCatchesUp());
    Joined(s1, rules, SecondVisit(), BrokerCatchesUp() + HandlerCatchesUp());
    Joined(s0, rules, FirstVisit(), SecondVisit() + (BrokerCatchesUp() + HandlerCatchesUp()));
  }
}
