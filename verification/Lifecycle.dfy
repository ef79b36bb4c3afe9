/**
 The order lifecycle: client handler and broker exchanging payloads over two FIFO queues, with clients
 logging in, trading and disconnecting in between. Every interleaving of the steps is a run.
 */
module Lifecycle {
  import opened ExchangeTypes
  import opened BookSpec
  import opened BookTheorems
  import opened BrokerSpec
  import opened BrokerTheorems
  import opened BrokerLog
  import HandlerSpec

  type Handler = HandlerSpec.Handler

  /** Who asked for an exchange order and for which symbol. */
  datatype Issue = Issue(client: uint32, order: uint64, symbol: uint32)

  /** `handler.toEngine` and `broker.toClient` are the queues; `issued` remembers every exchange id handed out. */
  datatype System = System(handler: Handler, broker: BrokerState, issued: map<uint64, Issue>)

  /** `keys` and `fails` are what the environment decides: hash map order and whether a send fails. */
  datatype Step =
    | ClientLogin(sock: HandlerSpec.Sock, client: uint32, valid: bool, session: uint64, fails: bool, keys: seq<uint64>)
    | ClientNew(sock: HandlerSpec.Sock, request: HandlerSpec.NewRequest, id: uint64)
    | ClientDelete(sock: HandlerSpec.Sock, order: HandlerSpec.OrderRequest)
    | ClientModify(sock: HandlerSpec.Sock, order: HandlerSpec.OrderRequest, side: Side, quantity: uint32, price: int)
    | Disconnect(sock: HandlerSpec.Sock, keys: seq<uint64>)
    | EngineStep
    | HandlerStep(fails: bool, keys: seq<uint64>)

  /** The clock never repeats an id; a queue is only read when it holds something. */
  predicate Enabled(s: System, step: Step) {
    match step
    case ClientLogin(sock, client, valid, session, fails, keys) =>
      HandlerSpec.CanLogin(s.handler, sock, client, valid, session, fails, keys)
    case ClientNew(_, _, id) => id !in s.issued
    case ClientDelete(_, _) => true
    case ClientModify(_, _, _, _, _) => true
    case Disconnect(sock, keys) => HandlerSpec.CanClose(s.handler, sock, keys)
    case EngineStep => s.handler.toEngine != []
    case HandlerStep(fails, keys) =>
      s.broker.toClient != [] && HandlerSpec.CanHandle(s.handler, s.broker.toClient[0], fails, keys)
  }

  predicate Accepts(s: System, rules: HandlerSpec.Rules, step: Step) {
    step.ClientNew? && HandlerSpec.NewRefusal(s.handler, rules, step.sock, step.request) == HandlerSpec.NONE
  }

  function Next(s: System, rules: HandlerSpec.Rules, step: Step): System
    requires Enabled(s, step)
  {
    var h := s.handler;
    match step
    case ClientLogin(sock, client, valid, session, fails, keys) =>
      s.(handler := HandlerSpec.Login(h, sock, client, valid, session, fails, keys))
    case ClientNew(sock, m, id) =>
      s.(handler := HandlerSpec.NewOrder(h, rules, sock, m, id),
         issued := if Accepts(s, rules, step) then s.issued[id := Issue(m.client, m.order, m.symbol)] else s.issued)
    case ClientDelete(sock, m) => s.(handler := HandlerSpec.DeleteOrder(h, sock, m))
    case ClientModify(sock, m, side, quantity, price) =>
      s.(handler := HandlerSpec.ModifyOrder(h, rules, sock, m, side, quantity, price))
    case Disconnect(sock, keys) => s.(handler := HandlerSpec.SocketClosed(h, sock, keys))
    case EngineStep =>
      s.(handler := h.(toEngine := h.toEngine[1..]), broker := BrokerApply(s.broker, h.toEngine[0]).0)
    case HandlerStep(fails, keys) =>
      s.(handler := HandlerSpec.Handle(h, s.broker.toClient[0], fails, keys),
         broker := s.broker.(toClient := s.broker.toClient[1..]))
  }

  // ----- where an exchange id can be -----

  /** Ids of new orders on their way to the broker. */
  ghost function News(q: seq<Payload>): set<uint64> {
    set i | 0 <= i < |q| && q[i].kind.NewOrderKind? :: q[i].id
  }

  /** Ids with a closing message on its way to the handler. */
  ghost function Endings(q: seq<Payload>): set<uint64> {
    set i | 0 <= i < |q| && HandlerSpec.Terminal(q[i]) :: q[i].id
  }

  ghost function Live(s: System): set<uint64> {
    News(s.handler.toEngine) + Resting(s.broker)
  }

  /** Every live id is known, every known id is live or has its closing message in flight, never both. */
  ghost predicate Accounted(news: set<uint64>, resting: set<uint64>, endings: set<uint64>, known: set<uint64>, issued: set<uint64>) {
    && news !! resting && endings !! news + resting
    && news + resting <= known <= news + resting + endings
    && known + endings <= issued
  }

  ghost predicate NewOnce(q: seq<Payload>) {
    forall i, j :: 0 <= i < j < |q| && q[i].kind.NewOrderKind? && q[j].kind.NewOrderKind? ==> q[i].id != q[j].id
  }

  /** A request the broker can serve: known id, the symbol it was issued for, something to trade. */
  predicate Serviceable(p: Payload, issued: map<uint64, Issue>, symbols: set<uint32>) {
    && p.kind in {NewOrderKind, DeleteOrderKind, ModifyOrderKind, RejectKind}
    && (p.kind != RejectKind ==> p.id in issued && issued[p.id].symbol == p.symbol && p.symbol in symbols)
    && (p.kind.NewOrderKind? ==> p.quantity > 0)
  }

  ghost predicate AllServiceable(q: seq<Payload>, issued: map<uint64, Issue>, symbols: set<uint32>) {
    forall i :: 0 <= i < |q| ==> Serviceable(q[i], issued, symbols)
  }

  /** A session's client is reached through that session's socket, so no client has two. */
  ghost predicate OneSession(h: Handler) {
    forall sock :: sock in h.sessions ==> h.sessions[sock].client in h.socks && h.socks[h.sessions[sock].client] == sock
  }

  /** The handler's two maps and the sessions agree with what was issued. */
  ghost predicate Named(h: Handler, issued: map<uint64, Issue>, symbols: set<uint32>) {
    && (forall x :: x in issued ==> issued[x].symbol in symbols)
    && (forall x :: x in h.known ==> x in issued && h.known[x] == HandlerSpec.ClientOrder(issued[x].client, issued[x].order))
    && (forall c, o :: HandlerSpec.Tracks(h, c, o) ==> Matches(h.open[c][o], c, o, issued) && h.open[c][o].id in h.known)
    && OneSession(h)
  }

  predicate Matches(entry: HandlerSpec.OpenOrder, c: uint32, o: uint64, issued: map<uint64, Issue>) {
    entry.id in issued && issued[entry.id] == Issue(c, o, entry.symbol)
  }

  /** Every resting order has an owner in the broker's table and rests in the ladder of its own symbol. */
  ghost predicate Homed(st: BrokerState, issued: map<uint64, Issue>) {
    forall s, x :: s in st.books && x in BookIds(st.books[s]) ==> Low32(x) in st.owners && x in issued && issued[x].symbol == s
  }

  ghost predicate Shelved(st: BrokerState, issued: map<uint64, Issue>) {
    (forall s :: s in st.books ==> WellFormed(st.books[s])) && Disjoint(st.books) && Homed(st, issued)
  }

  ghost predicate Inv(s: System) {
    && Accounted(News(s.handler.toEngine), Resting(s.broker), Endings(s.broker.toClient), s.handler.known.Keys, s.issued.Keys)
    && NewOnce(s.handler.toEngine) && AllServiceable(s.handler.toEngine, s.issued, s.broker.books.Keys)
    && Named(s.handler, s.issued, s.broker.books.Keys) && Shelved(s.broker, s.issued)
  }

  // ----- what the handler's events do, short of taking a new order -----

  /** A request the handler makes on behalf of an entry it tracks. */
  ghost predicate OnBehalf(h: Handler, p: Payload) {
    || p.kind.RejectKind?
    || (p.kind in {DeleteOrderKind, ModifyOrderKind} &&
        exists o :: HandlerSpec.Tracks(h, p.client, o) && h.open[p.client][o] == HandlerSpec.OpenOrder(p.id, p.symbol))
  }

  ghost predicate CancelledIn(q: seq<Payload>, from: nat, id: uint64) {
    exists i :: from <= i < |q| && q[i].kind.DeleteOrderKind? && q[i].id == id
  }

  /** No new id; requests only on behalf of tracked entries; an entry dropped is an entry cancelled. */
  ghost predicate Quiet(h: Handler, h': Handler) {
    && h'.known == h.known && h.toEngine <= h'.toEngine
    && (forall i :: |h.toEngine| <= i < |h'.toEngine| ==> OnBehalf(h, h'.toEngine[i]))
    && (forall c, o :: HandlerSpec.Tracks(h', c, o) ==> HandlerSpec.Tracks(h, c, o) && h'.open[c][o] == h.open[c][o])
    && (forall c, o :: HandlerSpec.Tracks(h, c, o) && !HandlerSpec.Tracks(h', c, o) ==>
          CancelledIn(h'.toEngine, |h.toEngine|, h.open[c][o].id))
  }

  lemma ClosingIsQuiet(h: Handler, sock: HandlerSpec.Sock, keys: seq<uint64>)
    requires HandlerSpec.CanClose(h, sock, keys)
    ensures Quiet(h, HandlerSpec.SocketClosed(h, sock, keys))
  {
    if sock in h.sessions {
      var client := h.sessions[sock].client;
      var h', m := HandlerSpec.SocketClosed(h, sock, keys), HandlerSpec.Orders(h, client);
      var cancels := HandlerSpec.Cancels(m, keys, client);
      assert h'.toEngine == h.toEngine + cancels;
      forall i | |h.toEngine| <= i < |h'.toEngine| ensures OnBehalf(h, h'.toEngine[i]) {
        var o := keys[i - |h.toEngine|];
        assert h'.toEngine[i] == cancels[i - |h.toEngine|];
        assert o in keys && o in m;
        assert HandlerSpec.Tracks(h, client, o);
      }
      forall o | HandlerSpec.Tracks(h, client, o) ensures CancelledIn(h'.toEngine, |h.toEngine|, m[o].id) {
        assert o in m;
        var k :| 0 <= k < |keys| && keys[k] == o;
        assert h'.toEngine[|h.toEngine| + k] == cancels[k];
      }
    }
  }

  lemma LoginIsQuiet(h: Handler, sock: HandlerSpec.Sock, client: uint32, valid: bool, session: uint64, fails: bool, keys: seq<uint64>)
    requires HandlerSpec.CanLogin(h, sock, client, valid, session, fails, keys)
    ensures Quiet(h, HandlerSpec.Login(h, sock, client, valid, session, fails, keys))
  {
    if valid {
      if client in h.socks {
        if h.socks[client] != sock && h.socks[client] in h.sessions {
          ClosingIsQuiet(h, h.socks[client], keys);
        }
      } else if fails {
        var h1 := h.(sessions := h.sessions[sock := HandlerSpec.Session(session, client)], socks := h.socks[client := sock]);
        ClosingIsQuiet(h1, sock, keys);
        hide HandlerSpec.SocketClosed;
        var h' := HandlerSpec.SocketClosed(h1, sock, keys);
        forall i | |h.toEngine| <= i < |h'.toEngine| ensures OnBehalf(h, h'.toEngine[i]) {
          assert OnBehalf(h1, h'.toEngine[i]);
        }
      }
    }
  }

  lemma WritingIsQuiet(h: Handler, client: uint32, id: uint64, message: HandlerSpec.Message, fails: bool, keys: seq<uint64>)
    requires HandlerSpec.CanWrite(h, client, fails, keys)
    ensures Quiet(h, HandlerSpec.Write(h, client, id, message, fails, keys))
  {
    if client in h.socks && fails {
      ClosingIsQuiet(h, h.socks[client], keys);
    }
  }

  lemma RequestsAreQuiet(h: Handler, rules: HandlerSpec.Rules, sock: HandlerSpec.Sock, m: HandlerSpec.OrderRequest,
                         side: Side, quantity: uint32, price: int)
    ensures Quiet(h, HandlerSpec.DeleteOrder(h, sock, m))
    ensures Quiet(h, HandlerSpec.ModifyOrder(h, rules, sock, m, side, quantity, price))
  {
    hide HandlerSpec.Validate;
    assert HandlerSpec.Tracks(h, m.client, m.order) ==>
      h.open[m.client][m.order] == HandlerSpec.OpenOrder(h.open[m.client][m.order].id, h.open[m.client][m.order].symbol);
  }

  lemma RefusalIsQuiet(h: Handler, rules: HandlerSpec.Rules, sock: HandlerSpec.Sock, m: HandlerSpec.NewRequest, id: uint64)
    requires HandlerSpec.NewRefusal(h, rules, sock, m) != HandlerSpec.NONE
    ensures Quiet(h, HandlerSpec.NewOrder(h, rules, sock, m, id))
  {}

  // ----- the sessions stay one per client -----

  lemma ClosingKeepsOneSession(h: Handler, sock: HandlerSpec.Sock, keys: seq<uint64>)
    requires HandlerSpec.CanClose(h, sock, keys) && OneSession(h)
    ensures OneSession(HandlerSpec.SocketClosed(h, sock, keys))
  {
    hide HandlerSpec.Cancels, HandlerSpec.Enumerates;
  }

  lemma LoginKeepsOneSession(h: Handler, sock: HandlerSpec.Sock, client: uint32, valid: bool, session: uint64, fails: bool, keys: seq<uint64>)
    requires HandlerSpec.CanLogin(h, sock, client, valid, session, fails, keys) && OneSession(h)
    ensures OneSession(HandlerSpec.Login(h, sock, client, valid, session, fails, keys))
  {
    hide HandlerSpec.SocketClosed;
    if valid {
      if client in h.socks {
        if h.socks[client] != sock && h.socks[client] in h.sessions {
          ClosingKeepsOneSession(h, h.socks[client], keys);
        }
      } else {
        var h1 := h.(sessions := h.sessions[sock := HandlerSpec.Session(session, client)], socks := h.socks[client := sock]);
        assert OneSession(h1);
        if fails {
          ClosingKeepsOneSession(h1, sock, keys);
        }
      }
    }
  }

  lemma WritingKeepsOneSession(h: Handler, client: uint32, id: uint64, message: HandlerSpec.Message, fails: bool, keys: seq<uint64>)
    requires HandlerSpec.CanWrite(h, client, fails, keys) && OneSession(h)
    ensures OneSession(HandlerSpec.Write(h, client, id, message, fails, keys))
  {
    if client in h.socks && fails {
      ClosingKeepsOneSession(h, h.socks[client], keys);
    }
  }

  // ----- the invariant over quiet steps -----

  lemma NewsAppend(q: seq<Payload>, ext: seq<Payload>)
    requires forall i :: 0 <= i < |ext| ==> ext[i].kind != NewOrderKind
    ensures News(q + ext) == News(q)
    ensures NewOnce(q) ==> NewOnce(q + ext)
  {
    assert forall i :: 0 <= i < |q| ==> q[i] == (q + ext)[i];
  }

  lemma QuietKeeps(s: System, h': Handler)
    requires Inv(s) && Quiet(s.handler, h') && OneSession(h')
    ensures Inv(s.(handler := h'))
  {
    hide Shelved, BookIds, Accounted, Resting, Endings;
    var h := s.handler;
    var ext := h'.toEngine[|h.toEngine|..];
    assert h'.toEngine == h.toEngine + ext;
    forall i | 0 <= i < |ext| ensures ext[i].kind != NewOrderKind && Serviceable(ext[i], s.issued, s.broker.books.Keys) {
      assert ext[i] == h'.toEngine[|h.toEngine| + i];
      assert OnBehalf(h, ext[i]);
    }
    NewsAppend(h.toEngine, ext);
    hide Quiet, OnBehalf, NewOnce, News;
    QuietNamed(h, h', s.issued, s.broker.books.Keys);
  }

  lemma QuietNamed(h: Handler, h': Handler, issued: map<uint64, Issue>, symbols: set<uint32>)
    requires Named(h, issued, symbols) && Quiet(h, h') && OneSession(h')
    ensures Named(h', issued, symbols)
  {
    hide Matches, OnBehalf, CancelledIn;
  }

  // ----- a new order taken -----

  lemma NewsPush(q: seq<Payload>, p: Payload)
    requires p.kind.NewOrderKind? && p.id !in News(q)
    ensures News(q + [p]) == News(q) + {p.id}
    ensures NewOnce(q) ==> NewOnce(q + [p])
  {
    var r := q + [p];
    assert r[|q|] == p && forall i :: 0 <= i < |q| ==> r[i] == q[i];
    forall i | 0 <= i < |q| && q[i].kind.NewOrderKind? ensures q[i].id in News(q) {}
    assert forall x :: x in News(r) ==> x in News(q) + {p.id};
  }

  lemma AccountedNew(news: set<uint64>, resting: set<uint64>, endings: set<uint64>, known: set<uint64>, issued: set<uint64>, id: uint64)
    requires Accounted(news, resting, endings, known, issued) && id !in issued
    ensures Accounted(news + {id}, resting, endings, known + {id}, issued + {id})
    ensures id !in news
  {}

  /** What taking a new order does to the state. */
  lemma Accepted(s: System, rules: HandlerSpec.Rules, step: Step)
    requires Enabled(s, step) && Accepts(s, rules, step)
    ensures var h, s', m := s.handler, Next(s, rules, step), step.request;
      && s'.broker == s.broker && s'.issued == s.issued[step.id := Issue(m.client, m.order, m.symbol)]
      && s'.handler.sessions == h.sessions && s'.handler.socks == h.socks
      && s'.handler.known == h.known[step.id := HandlerSpec.ClientOrder(m.client, m.order)]
      && s'.handler.open == h.open[m.client := HandlerSpec.Orders(h, m.client)[m.order := HandlerSpec.OpenOrder(step.id, m.symbol)]]
      && s'.handler.toEngine == h.toEngine + [Payload(NewOrderKind, step.id, m.symbol, m.seqNum, m.client, m.side, m.quantity, m.price, m.flags)]
      && s'.handler.sent == h.sent
      && m.symbol in rules && m.quantity > 0 && !HandlerSpec.Tracks(h, m.client, m.order)
      && HandlerSpec.ValidSession(h, step.sock, m.session, m.client)
  {}

  lemma AcceptingKeeps(s: System, rules: HandlerSpec.Rules, step: Step)
    requires Inv(s) && Enabled(s, step) && step.ClientNew? && Accepts(s, rules, step) && rules.Keys <= s.broker.books.Keys
    ensures Inv(Next(s, rules, step))
  {
    hide *;
    InvParts(s);
    Accepted(s, rules, step);
    var h, m, symbols, s' := s.handler, step.request, s.broker.books.Keys, Next(s, rules, step);
    var p := Payload(NewOrderKind, step.id, m.symbol, m.seqNum, m.client, m.side, m.quantity, m.price, m.flags);
    assert step.id !in s.issued by { EnabledNew(s, step); }
    AccountedNew(News(h.toEngine), Resting(s.broker), Endings(s.broker.toClient), h.known.Keys, s.issued.Keys, step.id);
    NewsPush(h.toEngine, p);
    ServiceablePush(h.toEngine, p, s.issued, s'.issued, symbols);
    AcceptedNamed(h, s'.handler, s.issued, m, step.id, symbols);
    ShelvedGrows(s.broker, s.issued, s'.issued);
    assert s'.handler.known.Keys == h.known.Keys + {step.id} && s'.issued.Keys == s.issued.Keys + {step.id};
    PartsInv(s');
  }

  lemma EnabledNew(s: System, step: Step)
    requires Enabled(s, step) && step.ClientNew?
    ensures step.id !in s.issued
  {}

  lemma ServiceablePush(q: seq<Payload>, p: Payload, issued: map<uint64, Issue>, issued': map<uint64, Issue>, symbols: set<uint32>)
    requires AllServiceable(q, issued, symbols) && Serviceable(p, issued', symbols)
    requires forall x :: x in issued ==> x in issued' && issued'[x] == issued[x]
    ensures AllServiceable(q + [p], issued', symbols)
  {}

  lemma ShelvedGrows(st: BrokerState, issued: map<uint64, Issue>, issued': map<uint64, Issue>)
    requires Shelved(st, issued) && forall x :: x in issued ==> x in issued' && issued'[x] == issued[x]
    ensures Shelved(st, issued')
  {
    hide WellFormed, BookIds, Disjoint, Low32;
  }

  lemma PartsInv(s: System)
    requires Accounted(News(s.handler.toEngine), Resting(s.broker), Endings(s.broker.toClient), s.handler.known.Keys, s.issued.Keys)
    requires NewOnce(s.handler.toEngine) && AllServiceable(s.handler.toEngine, s.issued, s.broker.books.Keys)
    requires Named(s.handler, s.issued, s.broker.books.Keys) && Shelved(s.broker, s.issued)
    ensures Inv(s)
  {}

  lemma AcceptedNamed(h: Handler, h': Handler, issued: map<uint64, Issue>, m: HandlerSpec.NewRequest, id: uint64, symbols: set<uint32>)
    requires Named(h, issued, symbols) && id !in issued && m.symbol in symbols
    requires h'.sessions == h.sessions && h'.socks == h.socks
    requires h'.known == h.known[id := HandlerSpec.ClientOrder(m.client, m.order)]
    requires h'.open == h.open[m.client := HandlerSpec.Orders(h, m.client)[m.order := HandlerSpec.OpenOrder(id, m.symbol)]]
    ensures Named(h', issued[id := Issue(m.client, m.order, m.symbol)], symbols)
  {
    hide OneSession;
    var issued' := issued[id := Issue(m.client, m.order, m.symbol)];
    assert OneSession(h') by { OneSessionFrame(h, h'); }
    forall c, o | HandlerSpec.Tracks(h', c, o)
      ensures Matches(h'.open[c][o], c, o, issued') && h'.open[c][o].id in h'.known
    {
      if c != m.client || o != m.order {
        assert HandlerSpec.Tracks(h, c, o);
      }
    }
  }

  lemma OneSessionFrame(h: Handler, h': Handler)
    requires OneSession(h) && h'.sessions == h.sessions && h'.socks == h.socks
    ensures OneSession(h')
  {}

  // ----- a request served -----

  lemma ShelvedIsSound(st: BrokerState, issued: map<uint64, Issue>)
    requires Shelved(st, issued)
    ensures Sound(st, Kept(st))
  {
    hide BookIds, WellFormed, Disjoint, Low32;
  }

  lemma ShelvedIsOwned(st: BrokerState, issued: map<uint64, Issue>)
    requires Shelved(st, issued)
    ensures Owned(st)
  {
    hide BookIds, WellFormed, Disjoint, Low32;
  }

  lemma HeadIsEntitled(s: System)
    requires Inv(s) && s.handler.toEngine != []
    ensures Entitled(s.broker, s.handler.toEngine[0]) && WellRouted(s.broker, s.handler.toEngine[0])
  {
    hide BookIds, WellFormed, Disjoint, Low32, Named;
    var p := s.handler.toEngine[0];
    assert Serviceable(p, s.issued, s.broker.books.Keys);
    if p.kind.NewOrderKind? {
      assert p.id in News(s.handler.toEngine);
      assert p.id !in Resting(s.broker);
    }
  }

  /** In every reachable state the broker serves the next request without throwing. */
  lemma EngineNeverThrows(s: System)
    requires Inv(s) && s.handler.toEngine != []
    ensures BrokerApply(s.broker, s.handler.toEngine[0]).1 == Processed
  {
    hide *;
    assert Shelved(s.broker, s.issued) by { InvParts(s); }
    ShelvedIsSound(s.broker, s.issued);
    HeadIsEntitled(s);
    NeverThrows(s.broker, Kept(s.broker), s.handler.toEngine[0]);
  }

  lemma InvParts(s: System)
    requires Inv(s)
    ensures Accounted(News(s.handler.toEngine), Resting(s.broker), Endings(s.broker.toClient), s.handler.known.Keys, s.issued.Keys)
    ensures NewOnce(s.handler.toEngine) && AllServiceable(s.handler.toEngine, s.issued, s.broker.books.Keys)
    ensures Named(s.handler, s.issued, s.broker.books.Keys) && Shelved(s.broker, s.issued)
  {}

  lemma EndingsConcat(a: seq<Payload>, b: seq<Payload>)
    ensures Endings(a + b) == Endings(a) + Endings(b)
  {
    var q := a + b;
    assert forall i :: 0 <= i < |a| ==> q[i] == a[i];
    assert forall i :: 0 <= i < |b| ==> q[|a| + i] == b[i];
    forall x ensures x in Endings(q) <==> x in Endings(a) + Endings(b) {
      if x in Endings(q) {
        var i :| 0 <= i < |q| && HandlerSpec.Terminal(q[i]) && q[i].id == x;
        if i < |a| { assert a[i].id == x; } else { assert b[i - |a|].id == x; }
      }
    }
  }

  /** The broker tells the handler that an order is over exactly when the ladder closed it. */
  lemma {:induction false} ResponsesEnd(c: Context, events: seq<Event>)
    requires AllAttributable(c.owners, events)
    ensures Endings(Responses(c, events)) == ClosedIds(events)
  {
    if events != [] {
      ResponsesEnd(c, events[1..]);
      EndingsConcat(Response(c, events[0]), Responses(c, events[1..]));
      ResponseEnds(c, events[0]);
    }
  }

  lemma ResponseEnds(c: Context, e: Event)
    requires Attributable(c.owners, e)
    ensures Endings(Response(c, e)) == if Closes(e) then {e.id} else {}
  {
    var r := Response(c, e);
    if r != [] {
      assert r == [r[0]];
      assert HandlerSpec.Terminal(r[0]) <==> Closes(e);
      assert Endings([r[0]]) == if HandlerSpec.Terminal(r[0]) then {r[0].id} else {};
    }
  }

  /** What a served request sends back closes exactly what the ladder closed. */
  lemma ServedEndings(st: BrokerState, owner: TrueOwners, p: Payload)
    requires Sound(st, owner) && Entitled(st, p)
    ensures Endings(BrokerApply(st, p).0.toClient) ==
      Endings(st.toClient) + (if p.kind.RejectKind? then {} else ClosedIds(Apply(st.books[p.symbol], RequestOf(p)).events))
  {
    hide BookIds, WellFormed, Apply, Low32, Disjoint, Attributed, Endings, ClosedIds, HandlerSpec.Terminal;
    if p.kind.RejectKind? {
      EndingsConcat(st.toClient, [p]);
      NoEnding(p);
    } else {
      NeverThrows(st, owner, p);
      var ev := Apply(st.books[p.symbol], RequestOf(p)).events;
      assert ev[..|ev|] == ev;
      var c := Context(BrokerApply(st, p).0.owners, p.symbol, p.clientSeq, p.client);
      ResponsesEnd(c, ev);
      EndingsConcat(st.toClient, Responses(c, ev));
    }
  }

  lemma NoEnding(p: Payload)
    requires p.kind.RejectKind?
    ensures Endings([p]) == {}
  {}

  lemma RestingUpdated(st: BrokerState, st': BrokerState, symbol: uint32)
    requires symbol in st.books && st'.books.Keys == st.books.Keys && Disjoint(st.books)
    requires forall s :: s in st.books && s != symbol ==> st'.books[s] == st.books[s]
    ensures Resting(st') == Resting(st) - BookIds(st.books[symbol]) + BookIds(st'.books[symbol])
    ensures BookIds(st.books[symbol]) <= Resting(st)
  {
    hide BookIds;
    forall x ensures x in Resting(st') <==> x in Resting(st) - BookIds(st.books[symbol]) + BookIds(st'.books[symbol]) {
      if x in Resting(st) {
        var s :| s in st.books && x in BookIds(st.books[s]);
        assert s != symbol ==> x in BookIds(st'.books[s]);
      }
    }
  }

  /** Taking the head off a queue takes its new id away, if it carries one. */
  lemma NewsPop(q: seq<Payload>)
    requires q != [] && NewOnce(q)
    ensures NewOnce(q[1..])
    ensures News(q) == News(q[1..]) + (if q[0].kind.NewOrderKind? then {q[0].id} else {})
    ensures q[0].kind.NewOrderKind? ==> q[0].id !in News(q[1..])
  {
    var t := q[1..];
    assert forall i {:trigger t[i]} :: 0 <= i < |t| ==> t[i] == q[i + 1];
    forall x ensures x in News(q) <==> x in News(t) + (if q[0].kind.NewOrderKind? then {q[0].id} else {}) {
      if x in News(q) {
        var i :| 0 <= i < |q| && q[i].kind.NewOrderKind? && q[i].id == x;
        if i > 0 { assert t[i - 1].id == x; }
      }
      if x in News(t) {
        var i :| 0 <= i < |t| && t[i].kind.NewOrderKind? && t[i].id == x;
        assert q[i + 1] == t[i];
      }
    }
  }

  /** A request moves ids from the queue and the ladder to the ladder and the closing messages, losing none. */
  lemma AccountedServed(news: set<uint64>, resting: set<uint64>, endings: set<uint64>, known: set<uint64>, issued: set<uint64>,
                        before: set<uint64>, after: set<uint64>, entered: set<uint64>)
    requires Accounted(news + entered, resting, endings, known, issued) && news !! entered
    requires before <= resting && after <= before + entered
    ensures Accounted(news, resting - before + after, endings + (before + entered - after), known, issued)
  {}

  lemma HomedUpdated(st: BrokerState, st': BrokerState, issued: map<uint64, Issue>, p: Payload)
    requires Homed(st, issued) && p.id in issued && issued[p.id].symbol == p.symbol && p.symbol in st.books
    requires st'.books.Keys == st.books.Keys && forall s :: s in st.books && s != p.symbol ==> st'.books[s] == st.books[s]
    requires BookIds(st'.books[p.symbol]) <= BookIds(st.books[p.symbol]) + (if p.kind.NewOrderKind? then {p.id} else {})
    requires st'.owners == if p.kind.NewOrderKind? then st.owners[Low32(p.id) := p.client] else st.owners
    ensures Homed(st', issued)
  {
    hide BookIds, Low32;
  }

  lemma ServedHomed(st: BrokerState, issued: map<uint64, Issue>, p: Payload)
    requires Shelved(st, issued) && Entitled(st, p) && Serviceable(p, issued, st.books.Keys) && p.kind != RejectKind
    ensures Homed(BrokerApply(st, p).0, issued) && BrokerApply(st, p).0.books.Keys == st.books.Keys
  {
    hide BookIds, WellFormed, Disjoint, Low32, BrokerApply, Apply, Entitled, Sound, ClosedIds, Homed, Admissible;
    ShelvedIsSound(st, issued);
    RequestOutcome(st, Kept(st), p);
    HomedUpdated(st, BrokerApply(st, p).0, issued, p);
  }

  lemma ServedShelved(st: BrokerState, issued: map<uint64, Issue>, p: Payload)
    requires Shelved(st, issued) && Entitled(st, p) && Serviceable(p, issued, st.books.Keys)
    ensures Shelved(BrokerApply(st, p).0, issued) && BrokerApply(st, p).0.books.Keys == st.books.Keys
  {
    hide BookIds, WellFormed, Disjoint, Low32, BrokerApply, Apply, Entitled, Sound, Serviceable;
    ShelvedIsSound(st, issued);
    BooksStaySound(st, Kept(st), p);
    if p.kind.RejectKind? {
      RejectPasses(st, p);
    } else {
      hide Homed;
      ServedHomed(st, issued, p);
    }
  }

  lemma ServiceablePop(q: seq<Payload>, issued: map<uint64, Issue>, symbols: set<uint32>)
    requires q != [] && AllServiceable(q, issued, symbols)
    ensures AllServiceable(q[1..], issued, symbols) && Serviceable(q[0], issued, symbols)
  {
    hide Serviceable;
  }

  /** Where the ids are after the broker's turn. */
  lemma ServedAccounted(s: System)
    requires Inv(s) && s.handler.toEngine != []
    ensures var q, st' := s.handler.toEngine, BrokerApply(s.broker, s.handler.toEngine[0]).0;
      Accounted(News(q[1..]), Resting(st'), Endings(st'.toClient), s.handler.known.Keys, s.issued.Keys)
  {
    hide *;
    var q, st := s.handler.toEngine, s.broker;
    var p, st' := q[0], BrokerApply(st, q[0]).0;
    InvParts(s);
    HeadIsEntitled(s);
    ShelvedIsSound(st, s.issued);
    ServedEndings(st, Kept(st), p);
    NewsPop(q);
    if p.kind.RejectKind? {
      RejectPasses(st, p);
      RestingSame(st, st');
      assert News(q) == News(q[1..]) && Endings(st'.toClient) == Endings(st.toClient);
    } else {
      ServicedKind(s);
      var b, req := st.books[p.symbol], RequestOf(p);
      RequestOutcome(st, Kept(st), p);
      BooksApart(st, s.issued);
      RestingUpdated(st, st', p.symbol);
      NewIdsOf(p);
      AccountedServed(News(q[1..]), Resting(st), Endings(st.toClient), s.handler.known.Keys, s.issued.Keys,
                      BookIds(b), BookIds(Apply(b, req).book), NewIds(req));
    }
  }

  lemma ServicedKind(s: System)
    requires Inv(s) && s.handler.toEngine != [] && s.handler.toEngine[0].kind != RejectKind
    ensures s.handler.toEngine[0].kind in {NewOrderKind, DeleteOrderKind, ModifyOrderKind}
    ensures s.handler.toEngine[0].symbol in s.broker.books
  {
    assert Serviceable(s.handler.toEngine[0], s.issued, s.broker.books.Keys);
  }

  lemma BooksApart(st: BrokerState, issued: map<uint64, Issue>)
    requires Shelved(st, issued)
    ensures Disjoint(st.books)
  {}

  lemma NewIdsOf(p: Payload)
    requires p.kind in {NewOrderKind, DeleteOrderKind, ModifyOrderKind}
    ensures NewIds(RequestOf(p)) == if p.kind.NewOrderKind? then {p.id} else {}
  {}

  lemma EngineKeeps(s: System, rules: HandlerSpec.Rules)
    requires Inv(s) && Enabled(s, EngineStep)
    ensures Inv(Next(s, rules, EngineStep))
  {
    var q := s.handler.toEngine;
    assert q != [];
    assert Next(s, rules, EngineStep) == s.(handler := s.handler.(toEngine := q[1..]), broker := BrokerApply(s.broker, q[0]).0);
    hide *;
    InvParts(s);
    HeadIsEntitled(s);
    ServiceablePop(q, s.issued, s.broker.books.Keys);
    ServedShelved(s.broker, s.issued, q[0]);
    ServedAccounted(s);
    NewsPop(q);
    NamedPop(s.handler, s.issued, s.broker.books.Keys);
    PartsInv(Next(s, rules, EngineStep));
  }

  lemma RestingSame(st: BrokerState, st': BrokerState)
    requires st'.books == st.books
    ensures Resting(st') == Resting(st)
  {}

  lemma NamedPop(h: Handler, issued: map<uint64, Issue>, symbols: set<uint32>)
    requires Named(h, issued, symbols) && h.toEngine != []
    ensures Named(h.(toEngine := h.toEngine[1..]), issued, symbols)
  {
    hide Matches;
  }

  // ----- a response handled -----

  predicate Forgets(h: Handler, p: Payload) {
    HandlerSpec.Terminal(p) && p.id in h.known
  }

  /** The message a response becomes. */
  function Worded(h: Handler, p: Payload): HandlerSpec.Message
    requires p.kind in {RejectKind, AckKind, FillKind, CloseKind}
    requires p.kind != RejectKind ==> p.id in h.known
  {
    if p.kind.RejectKind? then HandlerSpec.Rejected(p.id, p.flags)
    else if p.kind.AckKind? then HandlerSpec.Ack(h.known[p.id].order, p.quantity, p.price)
    else if p.kind.FillKind? then HandlerSpec.Fill(h.known[p.id].order, p.quantity, p.price, p.flags)
    else HandlerSpec.Closed(h.known[p.id].order)
  }

  /** The handler after the message of a response has been written, before the order is forgotten. */
  function Written(h: Handler, p: Payload, fails: bool, keys: seq<uint64>): Handler
    requires HandlerSpec.CanHandle(h, p, fails, keys)
  {
    if p.kind.RejectKind? then HandlerSpec.Write(h, p.client, p.id, Worded(h, p), fails, keys)
    else if p.id in h.known && p.kind in {AckKind, FillKind, CloseKind} then
      HandlerSpec.Write(h, h.known[p.id].client, p.id, Worded(h, p), fails, keys)
    else h
  }

  lemma HandledAs(h: Handler, p: Payload, fails: bool, keys: seq<uint64>)
    requires HandlerSpec.CanHandle(h, p, fails, keys)
    ensures var h1 := Written(h, p, fails, keys);
      HandlerSpec.Handle(h, p, fails, keys) == if Forgets(h, p) then HandlerSpec.Forget(h1, h.known[p.id], p.id) else h1
  {
    hide HandlerSpec.Write, HandlerSpec.Forget;
  }

  lemma WrittenIsQuiet(h: Handler, p: Payload, fails: bool, keys: seq<uint64>)
    requires HandlerSpec.CanHandle(h, p, fails, keys)
    ensures Quiet(h, Written(h, p, fails, keys))
    ensures OneSession(h) ==> OneSession(Written(h, p, fails, keys))
  {
    hide HandlerSpec.Write, HandlerSpec.CanWrite, OneSession;
    if p.kind.RejectKind? {
      WritingIsQuiet(h, p.client, p.id, Worded(h, p), fails, keys);
      if OneSession(h) { WritingKeepsOneSession(h, p.client, p.id, Worded(h, p), fails, keys); }
    } else if p.id in h.known && p.kind in {AckKind, FillKind, CloseKind} {
      var client := h.known[p.id].client;
      WritingIsQuiet(h, client, p.id, Worded(h, p), fails, keys);
      if OneSession(h) { WritingKeepsOneSession(h, client, p.id, Worded(h, p), fails, keys); }
    }
  }

  lemma EndingsPop(q: seq<Payload>)
    requires q != []
    ensures Endings(q) == Endings(q[1..]) + (if HandlerSpec.Terminal(q[0]) then {q[0].id} else {})
  {
    hide HandlerSpec.Terminal;
    EndingsConcat([q[0]], q[1..]);
    assert [q[0]] + q[1..] == q;
    assert Endings([q[0]]) == if HandlerSpec.Terminal([q[0]][0]) then {[q[0]][0].id} else {};
  }

  lemma AccountedEnded(news: set<uint64>, resting: set<uint64>, endings: set<uint64>, known: set<uint64>, issued: set<uint64>, id: uint64)
    requires Accounted(news, resting, endings + {id}, known, issued)
    ensures Accounted(news, resting, endings, known - {id}, issued)
  {}

  lemma ForgetNamed(h: Handler, issued: map<uint64, Issue>, symbols: set<uint32>, id: uint64)
    requires Named(h, issued, symbols) && id in h.known
    ensures Named(HandlerSpec.Forget(h, h.known[id], id), issued, symbols)
  {
    hide OneSession;
    var at := h.known[id];
    var h' := HandlerSpec.Forget(h, at, id);
    OneSessionFrame(h, h');
    forall c, o | HandlerSpec.Tracks(h', c, o)
      ensures Matches(h'.open[c][o], c, o, issued) && h'.open[c][o].id in h'.known
    {
      assert HandlerSpec.Tracks(h, c, o) && h'.open[c][o] == h.open[c][o];
      assert Matches(h.open[c][o], c, o, issued);
    }
  }

  lemma HandledNext(s: System, rules: HandlerSpec.Rules, fails: bool, keys: seq<uint64>)
    requires Enabled(s, HandlerStep(fails, keys))
    ensures var s', p := Next(s, rules, HandlerStep(fails, keys)), s.broker.toClient[0];
      var h1 := Written(s.handler, p, fails, keys);
      && s'.broker == s.broker.(toClient := s.broker.toClient[1..]) && s'.issued == s.issued
      && s'.handler == if Forgets(s.handler, p) then HandlerSpec.Forget(h1, s.handler.known[p.id], p.id) else h1
  {
    HandledAs(s.handler, s.broker.toClient[0], fails, keys);
  }

  lemma ForgetChanges(h: Handler, at: HandlerSpec.ClientOrder, id: uint64)
    ensures var h' := HandlerSpec.Forget(h, at, id);
      h'.known.Keys == h.known.Keys - {id} && h'.toEngine == h.toEngine && h'.sent == h.sent && h'.sessions == h.sessions
  {}

  /** The ids after a response has been handled. */
  lemma HandledAccounted(s: System, h': Handler, q: seq<Payload>)
    requires Inv(s) && s.broker.toClient == q && q != [] && h'.toEngine == s.handler.toEngine
    requires h'.known.Keys == if HandlerSpec.Terminal(q[0]) then s.handler.known.Keys - {q[0].id} else s.handler.known.Keys
    ensures Accounted(News(h'.toEngine), Resting(s.broker.(toClient := q[1..])), Endings(q[1..]), h'.known.Keys, s.issued.Keys)
  {
    hide *;
    InvParts(s);
    EndingsPop(q);
    RestingSame(s.broker, s.broker.(toClient := q[1..]));
    if HandlerSpec.Terminal(q[0]) {
      AccountedEnded(News(h'.toEngine), Resting(s.broker), Endings(q[1..]), s.handler.known.Keys, s.issued.Keys, q[0].id);
    } else {
      assert Endings(q) == Endings(q[1..]);
    }
  }

  lemma HandlerKeeps(s: System, rules: HandlerSpec.Rules, fails: bool, keys: seq<uint64>)
    requires Inv(s) && Enabled(s, HandlerStep(fails, keys))
    ensures Inv(Next(s, rules, HandlerStep(fails, keys)))
  {
    hide *;
    var h, q, s' := s.handler, s.broker.toClient, Next(s, rules, HandlerStep(fails, keys));
    EnabledHandler(s, fails, keys);
    HandledNext(s, rules, fails, keys);
    var p, h1 := q[0], Written(h, q[0], fails, keys);
    assert OneSession(h) by { InvSessions(s); }
    WrittenIsQuiet(h, p, fails, keys);
    QuietKeeps(s, h1);
    var s1 := s.(handler := h1);
    QuietKnown(h, h1);
    InvParts(s1);
    ForgetsWhen(h, p);
    if Forgets(h, p) {
      ForgetChanges(h1, h.known[p.id], p.id);
      ForgetNamed(h1, s.issued, s.broker.books.Keys, p.id);
    }
    HandledAccounted(s1, s'.handler, q);
    ShelvedFrame(s.broker, s'.broker, s.issued);
    PartsInv(s');
  }

  lemma EnabledHandler(s: System, fails: bool, keys: seq<uint64>)
    requires Enabled(s, HandlerStep(fails, keys))
    ensures s.broker.toClient != [] && HandlerSpec.CanHandle(s.handler, s.broker.toClient[0], fails, keys)
  {}

  lemma ForgetsWhen(h: Handler, p: Payload)
    ensures Forgets(h, p) ==> HandlerSpec.Terminal(p) && p.id in h.known
    ensures !Forgets(h, p) && HandlerSpec.Terminal(p) ==> h.known.Keys - {p.id} == h.known.Keys
  {}

  lemma InvSessions(s: System)
    requires Inv(s)
    ensures OneSession(s.handler)
  {}

  lemma QuietKnown(h: Handler, h': Handler)
    requires Quiet(h, h')
    ensures h'.known == h.known
  {}

  lemma ShelvedFrame(st: BrokerState, st': BrokerState, issued: map<uint64, Issue>)
    requires Shelved(st, issued) && st'.books == st.books && st'.owners == st.owners
    ensures Shelved(st', issued)
  {
    hide WellFormed, BookIds, Disjoint;
  }

  // ----- every run -----

  /** The matching engine knows every symbol the validator lets through; nothing has happened yet. */
  function Start(symbols: set<uint32>): System {
    System(HandlerSpec.Handler(map[], map[], map[], map[], [], []), Idle(symbols), map[])
  }

  lemma StartInv(symbols: set<uint32>)
    ensures Inv(Start(symbols))
  {
    var s := Start(symbols);
    assert BookIds(Book([], [])) == {};
    assert Resting(s.broker) == {} && News(s.handler.toEngine) == {} && Endings(s.broker.toClient) == {};
    assert s.handler.known.Keys == {} && s.issued.Keys == {};
    IdleIsSound(symbols);
  }

  lemma StepKeepsSymbols(s: System, rules: HandlerSpec.Rules, step: Step)
    requires Enabled(s, step) && Inv(s)
    ensures Next(s, rules, step).broker.books.Keys == s.broker.books.Keys
  {
    hide BrokerApply, Shelved, Accounted, NewOnce, Named;
    if step.EngineStep? {
      ServicedHead(s);
      HeadIsEntitled(s);
      ServedShelved(s.broker, s.issued, s.handler.toEngine[0]);
    }
  }

  lemma ServicedHead(s: System)
    requires Inv(s) && s.handler.toEngine != []
    ensures Serviceable(s.handler.toEngine[0], s.issued, s.broker.books.Keys) && Shelved(s.broker, s.issued)
  {}

  /** Steps of the client side that take no new order. */
  lemma ClientStepIsQuiet(s: System, rules: HandlerSpec.Rules, step: Step)
    requires Enabled(s, step) && !step.EngineStep? && !step.HandlerStep? && !Accepts(s, rules, step)
    ensures Quiet(s.handler, Next(s, rules, step).handler)
    ensures OneSession(s.handler) ==> OneSession(Next(s, rules, step).handler)
    ensures Next(s, rules, step) == s.(handler := Next(s, rules, step).handler)
    ensures Next(s, rules, step).handler.sent == s.handler.sent
  {
    hide Quiet, OneSession, HandlerSpec.Login, HandlerSpec.SocketClosed, HandlerSpec.DeleteOrder, HandlerSpec.ModifyOrder, HandlerSpec.NewOrder,
      HandlerSpec.NewRefusal;
    var h := s.handler;
    match step
    case ClientLogin(sock, client, valid, session, fails, keys) =>
      LoginIsQuiet(h, sock, client, valid, session, fails, keys);
      if OneSession(h) { LoginKeepsOneSession(h, sock, client, valid, session, fails, keys); }
      LoginSendsNothing(h, sock, client, valid, session, fails, keys);
    case ClientNew(sock, m, id) =>
      RefusalIsQuiet(h, rules, sock, m, id);
      RefusalPushes(h, rules, sock, m, id);
    case ClientDelete(sock, m) =>
      RequestsAreQuiet(h, rules, sock, m, Buy, 0, 0);
      RequestsPush(h, rules, sock, m, Buy, 0, 0);
    case ClientModify(sock, m, side, quantity, price) =>
      RequestsAreQuiet(h, rules, sock, m, side, quantity, price);
      RequestsPush(h, rules, sock, m, side, quantity, price);
    case Disconnect(sock, keys) =>
      ClosingIsQuiet(h, sock, keys);
      if OneSession(h) { ClosingKeepsOneSession(h, sock, keys); }
      ClosingSendsNothing(h, sock, keys);
  }

  lemma ClosingSendsNothing(h: Handler, sock: HandlerSpec.Sock, keys: seq<uint64>)
    requires HandlerSpec.CanClose(h, sock, keys)
    ensures HandlerSpec.SocketClosed(h, sock, keys).sent == h.sent
  {}

  lemma LoginSendsNothing(h: Handler, sock: HandlerSpec.Sock, client: uint32, valid: bool, session: uint64, fails: bool, keys: seq<uint64>)
    requires HandlerSpec.CanLogin(h, sock, client, valid, session, fails, keys)
    ensures HandlerSpec.Login(h, sock, client, valid, session, fails, keys).sent == h.sent
  {}

  lemma RefusalPushes(h: Handler, rules: HandlerSpec.Rules, sock: HandlerSpec.Sock, m: HandlerSpec.NewRequest, id: uint64)
    requires HandlerSpec.NewRefusal(h, rules, sock, m) != HandlerSpec.NONE
    ensures var h' := HandlerSpec.NewOrder(h, rules, sock, m, id); OneSession(h) ==> OneSession(h')
    ensures HandlerSpec.NewOrder(h, rules, sock, m, id).sent == h.sent
  {}

  lemma RequestsPush(h: Handler, rules: HandlerSpec.Rules, sock: HandlerSpec.Sock, m: HandlerSpec.OrderRequest,
                     side: Side, quantity: uint32, price: int)
    ensures OneSession(h) ==> OneSession(HandlerSpec.DeleteOrder(h, sock, m))
    ensures OneSession(h) ==> OneSession(HandlerSpec.ModifyOrder(h, rules, sock, m, side, quantity, price))
    ensures HandlerSpec.DeleteOrder(h, sock, m).sent == HandlerSpec.ModifyOrder(h, rules, sock, m, side, quantity, price).sent == h.sent
  {
    hide HandlerSpec.Validate;
  }

  /** The invariant is kept by every step of every party, in any order. */
  lemma InvStays(s: System, rules: HandlerSpec.Rules, step: Step)
    requires Inv(s) && Enabled(s, step) && rules.Keys <= s.broker.books.Keys
    ensures Inv(Next(s, rules, step)) && Next(s, rules, step).broker.books.Keys == s.broker.books.Keys
  {
    hide Inv, Enabled, Next, Accepts, Quiet, OneSession;
    StepKeepsSymbols(s, rules, step);
    if step.EngineStep? {
      EngineKeeps(s, rules);
    } else if step.HandlerStep? {
      HandlerKeeps(s, rules, step.fails, step.keys);
    } else if step.ClientNew? && Accepts(s, rules, step) {
      AcceptingKeeps(s, rules, step);
    } else {
      if !step.ClientNew? {
        NotAccepted(s, rules, step);
      }
      InvSessions(s);
      ClientStepIsQuiet(s, rules, step);
      QuietKeeps(s, Next(s, rules, step).handler);
    }
  }

  lemma NotAccepted(s: System, rules: HandlerSpec.Rules, step: Step)
    requires !step.ClientNew?
    ensures !Accepts(s, rules, step)
  {}

  ghost predicate Possible(s: System, rules: HandlerSpec.Rules, steps: seq<Step>)
    decreases |steps|
  {
    steps == [] || (Enabled(s, steps[0]) && Possible(Next(s, rules, steps[0]), rules, steps[1..]))
  }

  ghost function After(s: System, rules: HandlerSpec.Rules, steps: seq<Step>): System
    requires Possible(s, rules, steps)
    decreases |steps|
  {
    if steps == [] then s else After(Next(s, rules, steps[0]), rules, steps[1..])
  }

  lemma {:induction false} RunKeeps(s: System, rules: HandlerSpec.Rules, steps: seq<Step>)
    requires Inv(s) && rules.Keys <= s.broker.books.Keys && Possible(s, rules, steps)
    ensures Inv(After(s, rules, steps)) && After(s, rules, steps).broker.books.Keys == s.broker.books.Keys
    decreases |steps|
  {
    hide Inv, Enabled, Next;
    if steps != [] {
      InvStays(s, rules, steps[0]);
      RunKeeps(Next(s, rules, steps[0]), rules, steps[1..]);
    }
  }

  /**
   In every interleaving: an id in an in-flight new order or resting in a ladder is known to the handler; a known
   id is in flight, resting or has its closing message in flight; with both queues empty, known is resting.
   */
  lemma KnownIsLive(symbols: set<uint32>, rules: HandlerSpec.Rules, steps: seq<Step>)
    requires rules.Keys <= symbols && Possible(Start(symbols), rules, steps)
    ensures var s := After(Start(symbols), rules, steps);
      && News(s.handler.toEngine) + Resting(s.broker) <= s.handler.known.Keys
      && s.handler.known.Keys <= News(s.handler.toEngine) + Resting(s.broker) + Endings(s.broker.toClient)
      && Endings(s.broker.toClient) !! News(s.handler.toEngine) + Resting(s.broker)
      && (s.handler.toEngine == [] && s.broker.toClient == [] ==> s.handler.known.Keys == Resting(s.broker))
      && (s.handler.toEngine != [] ==> BrokerApply(s.broker, s.handler.toEngine[0]).1 == Processed)
  {
    hide Inv, Enabled, Next, BrokerApply, Shelved, Named;
    StartInv(symbols);
    RunKeeps(Start(symbols), rules, steps);
    var s := After(Start(symbols), rules, steps);
    InvParts(s);
    if s.handler.toEngine != [] {
      EngineNeverThrows(s);
    }
    assert News([]) == {} && Endings([]) == {};
  }
}
