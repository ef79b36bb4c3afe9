/** Cancel on disconnect: when a client loses its session, everything it has at the exchange goes. */
module Cancellation {
  import opened ExchangeTypes
  import opened BookSpec
  import opened BookOrder
  import opened BookTheorems
  import opened BrokerSpec
  import opened BrokerTheorems
  import opened Lifecycle
  import HandlerSpec

  // ----- orders with a delete behind them -----

  /** A delete for this order is queued behind its new order, wherever that is. */
  ghost predicate Doomed(q: seq<Payload>, id: uint64) {
    exists j :: 0 <= j < |q| && DoomedAt(q, id, j)
  }

  ghost predicate DoomedAt(q: seq<Payload>, id: uint64, j: nat)
    requires j < |q|
  {
    q[j].kind.DeleteOrderKind? && q[j].id == id && forall i :: j <= i < |q| ==> !(q[i].kind.NewOrderKind? && q[i].id == id)
  }

  lemma DoomedAppend(q: seq<Payload>, ext: seq<Payload>, id: uint64)
    requires Doomed(q, id) && forall i :: 0 <= i < |ext| ==> !(ext[i].kind.NewOrderKind? && ext[i].id == id)
    ensures Doomed(q + ext, id)
  {
    var j :| 0 <= j < |q| && DoomedAt(q, id, j);
    assert DoomedAt(q + ext, id, j);
  }

  lemma CancelDooms(q: seq<Payload>, from: nat, id: uint64)
    requires from <= |q| && CancelledIn(q, from, id) && forall i :: from <= i < |q| ==> q[i].kind != NewOrderKind
    ensures Doomed(q, id)
  {
    var j :| from <= j < |q| && q[j].kind.DeleteOrderKind? && q[j].id == id;
    assert DoomedAt(q, id, j);
  }

  /** Serving the head leaves the order doomed unless the head is the last delete itself. */
  lemma DoomedPop(q: seq<Payload>, id: uint64)
    requires Doomed(q, id)
    ensures Doomed(q[1..], id) || (q[0].kind.DeleteOrderKind? && q[0].id == id && id !in News(q))
  {
    var j :| 0 <= j < |q| && DoomedAt(q, id, j);
    if j > 0 {
      var t := q[1..];
      assert forall i {:trigger t[i]} :: 0 <= i < |t| ==> t[i] == q[i + 1];
      assert DoomedAt(t, id, j - 1);
    }
  }

  // ----- orders still reachable through their client's entry -----

  /** The client's entry for the order's own client id is this order. */
  predicate Held(h: Handler, issued: map<uint64, Issue>, id: uint64)
    requires id in issued
  {
    HandlerSpec.Tracks(h, issued[id].client, issued[id].order) && h.open[issued[id].client][issued[id].order].id == id
  }

  ghost predicate Reached(h: Handler, issued: map<uint64, Issue>, live: set<uint64>) {
    forall x :: x in live ==> x in issued && (Held(h, issued, x) || Doomed(h.toEngine, x))
  }

  /** Every live order is either in its client's entry or already on its way out. */
  ghost predicate Tracked(s: System) {
    Reached(s.handler, s.issued, Live(s))
  }

  lemma QuietExtends(h: Handler, h': Handler)
    requires Quiet(h, h')
    ensures h.toEngine <= h'.toEngine && h'.known == h.known
    ensures forall i :: |h.toEngine| <= i < |h'.toEngine| ==> h'.toEngine[i].kind != NewOrderKind
    ensures News(h'.toEngine) == News(h.toEngine)
  {
    var ext := h'.toEngine[|h.toEngine|..];
    assert h'.toEngine == h.toEngine + ext;
    forall i | |h.toEngine| <= i < |h'.toEngine| ensures h'.toEngine[i].kind != NewOrderKind {
      assert OnBehalf(h, h'.toEngine[i]);
    }
    NewsAppend(h.toEngine, ext);
  }

  lemma QuietDoomed(h: Handler, h': Handler, id: uint64)
    requires Quiet(h, h') && Doomed(h.toEngine, id)
    ensures Doomed(h'.toEngine, id)
  {
    hide Quiet, Doomed;
    QuietExtends(h, h');
    var ext := h'.toEngine[|h.toEngine|..];
    assert h'.toEngine == h.toEngine + ext;
    DoomedAppend(h.toEngine, ext, id);
  }

  lemma QuietReached(h: Handler, h': Handler, issued: map<uint64, Issue>, live: set<uint64>)
    requires Quiet(h, h') && Reached(h, issued, live)
    ensures Reached(h', issued, live)
  {
    hide Doomed, CancelledIn, OnBehalf;
    QuietExtends(h, h');
    forall x | x in live ensures Held(h', issued, x) || Doomed(h'.toEngine, x) {
      if Doomed(h.toEngine, x) {
        QuietDoomed(h, h', x);
      } else {
        var c, o := issued[x].client, issued[x].order;
        assert HandlerSpec.Tracks(h, c, o);
        if !HandlerSpec.Tracks(h', c, o) {
          CancelDooms(h'.toEngine, |h.toEngine|, x);
        }
      }
    }
  }

  // ----- the broker's turn -----

  /** A served delete leaves no trace of the order. */
  lemma DeleteRemoves(s: System)
    requires Inv(s) && s.handler.toEngine != [] && s.handler.toEngine[0].kind.DeleteOrderKind?
    ensures s.handler.toEngine[0].id !in Resting(BrokerApply(s.broker, s.handler.toEngine[0]).0)
  {
    hide *;
    var p, st := s.handler.toEngine[0], s.broker;
    var st' := BrokerApply(st, p).0;
    HeadIsEntitled(s);
    InvParts(s);
    ShelvedIsSound(st, s.issued);
    ServicedKind(s);
    RequestOutcome(st, Kept(st), p);
    BooksApart(st, s.issued);
    RestingUpdated(st, st', p.symbol);
    RequestIs(p);
    DeletedIds(st.books[p.symbol], p.id);
    OnlyThere(s);
  }

  lemma RequestIs(p: Payload)
    requires p.kind.DeleteOrderKind?
    ensures RequestOf(p) == Delete(p.id)
  {}

  /** The order of a request rests in the ladder the request is for, if anywhere. */
  lemma OnlyThere(s: System)
    requires Inv(s) && s.handler.toEngine != [] && s.handler.toEngine[0].kind != RejectKind
    ensures var p := s.handler.toEngine[0];
      p.symbol in s.broker.books && (p.id in Resting(s.broker) ==> p.id in BookIds(s.broker.books[p.symbol]))
  {
    hide BookIds, WellFormed, Disjoint, Accounted, NewOnce, Named;
    ServicedHead(s);
  }

  lemma DeletedIds(b: Book, id: uint64)
    requires WellFormed(b)
    ensures id !in BookIds(Apply(b, Delete(id)).book)
  {
    HasIsIds(b.bids, id);
    HasIsIds(b.asks, id);
    hide Ids, WellFormed, Has;
    if InBook(b, id) {
      RemovedIds(b, id);
    }
  }

  lemma EngineNext(s: System, rules: HandlerSpec.Rules)
    requires Enabled(s, EngineStep)
    ensures s.handler.toEngine != []
    ensures Next(s, rules, EngineStep) ==
      s.(handler := s.handler.(toEngine := s.handler.toEngine[1..]), broker := BrokerApply(s.broker, s.handler.toEngine[0]).0)
  {
    hide BrokerApply;
  }

  /** What was live after the broker's turn was live before. */
  lemma EngineLive(s: System, rules: HandlerSpec.Rules)
    requires Inv(s) && Enabled(s, EngineStep)
    ensures Live(Next(s, rules, EngineStep)) <= Live(s)
  {
    hide *;
    EngineNext(s, rules);
    var q, st := s.handler.toEngine, s.broker;
    var p, st' := q[0], BrokerApply(st, q[0]).0;
    HeadIsEntitled(s);
    InvParts(s);
    NewsPop(q);
    ShelvedIsSound(st, s.issued);
    LiveIs(s);
    LiveIs(Next(s, rules, EngineStep));
    if p.kind.RejectKind? {
      RejectPasses(st, p);
      RestingSame(st, st');
    } else {
      ServicedKind(s);
      RequestOutcome(st, Kept(st), p);
      BooksApart(st, s.issued);
      RestingUpdated(st, st', p.symbol);
      NewIdsOf(p);
    }
  }

  lemma LiveIs(s: System)
    ensures Live(s) == News(s.handler.toEngine) + Resting(s.broker)
  {}

  lemma EngineReached(s: System, rules: HandlerSpec.Rules)
    requires Inv(s) && Tracked(s) && Enabled(s, EngineStep)
    ensures Tracked(Next(s, rules, EngineStep))
  {
    hide Inv, Next, BrokerApply, Live, News, Resting, Doomed, Enabled;
    EngineNext(s, rules);
    var s', q := Next(s, rules, EngineStep), s.handler.toEngine;
    EngineLive(s, rules);
    forall x | x in Live(s') ensures x in s.issued && (Held(s'.handler, s.issued, x) || Doomed(q[1..], x)) {
      assert x in Live(s);
      if !Held(s.handler, s.issued, x) {
        EngineDoomed(s, rules, x);
      }
    }
  }

  /** A doomed order that is still live after the broker's turn is still doomed. */
  lemma EngineDoomed(s: System, rules: HandlerSpec.Rules, id: uint64)
    requires Inv(s) && Enabled(s, EngineStep) && Doomed(s.handler.toEngine, id) && id in Live(Next(s, rules, EngineStep))
    ensures Doomed(Next(s, rules, EngineStep).handler.toEngine, id)
  {
    hide *;
    EngineNext(s, rules);
    var s', q := Next(s, rules, EngineStep), s.handler.toEngine;
    InvParts(s);
    DoomedPop(q, id);
    if !Doomed(q[1..], id) {
      DeleteRemoves(s);
      NewsPop(q);
      LiveIs(s');
    }
  }

  // ----- taking a new order -----

  lemma AcceptedReached(s: System, rules: HandlerSpec.Rules, step: Step)
    requires Inv(s) && Tracked(s) && Enabled(s, step) && step.ClientNew? && Accepts(s, rules, step)
    ensures Tracked(Next(s, rules, step))
  {
    hide Inv, Next, Doomed, Enabled, Accepts, Resting, News;
    Accepted(s, rules, step);
    EnabledNew(s, step);
    KnownNews(s);
    var s', m := Next(s, rules, step), step.request;
    var p := s'.handler.toEngine[|s.handler.toEngine|];
    NewsPush(s.handler.toEngine, p);
    forall x | x in Live(s') ensures x in s'.issued && (Held(s'.handler, s'.issued, x) || Doomed(s'.handler.toEngine, x)) {
      if x != step.id {
        assert x in Live(s);
        if !Held(s.handler, s.issued, x) {
          DoomedAppend(s.handler.toEngine, [p], x);
        }
      }
    }
  }

  lemma KnownNews(s: System)
    requires Inv(s)
    ensures News(s.handler.toEngine) <= s.issued.Keys && Resting(s.broker) <= s.issued.Keys
  {}

  // ----- handling a response -----

  /** The closing message of an old order takes away the entry of a newer live one: the client reused the id too soon. */
  ghost predicate LosesTrack(s: System, step: Step) {
    && step.HandlerStep? && Enabled(s, step)
    && var h, p := s.handler, s.broker.toClient[0];
       Forgets(h, p) && Displaces(Written(h, p, step.fails, step.keys), h.known[p.id], Live(s))
  }

  /** The client's entry under this name is for a live order that is not on its way out. */
  ghost predicate Displaces(h: Handler, at: HandlerSpec.ClientOrder, live: set<uint64>) {
    HandlerSpec.Tracks(h, at.client, at.order) && var x := h.open[at.client][at.order].id; x in live && !Doomed(h.toEngine, x)
  }

  lemma ForgetReached(h: Handler, issued: map<uint64, Issue>, symbols: set<uint32>, live: set<uint64>, id: uint64)
    requires Named(h, issued, symbols) && Reached(h, issued, live) && id in h.known
    ensures Reached(HandlerSpec.Forget(h, h.known[id], id), issued, live) <==> !Displaces(h, h.known[id], live)
  {
    hide Doomed, OneSession;
    var at := h.known[id];
    var h' := HandlerSpec.Forget(h, at, id);
    if Displaces(h, at, live) {
      var x := h.open[at.client][at.order].id;
      assert Matches(h.open[at.client][at.order], at.client, at.order, issued);
      assert !Held(h', issued, x);
    } else {
      forall x | x in live ensures Held(h', issued, x) || Doomed(h'.toEngine, x) {
        if !Doomed(h.toEngine, x) {
          assert Held(h, issued, x);
          assert issued[x].client != at.client || issued[x].order != at.order;
        }
      }
    }
  }

  lemma LiveFrame(s: System, s': System)
    requires News(s'.handler.toEngine) == News(s.handler.toEngine) && s'.broker.books == s.broker.books
    ensures Live(s') == Live(s)
  {
    hide News;
    RestingSame(s.broker, s'.broker);
  }

  lemma TrackedIs(s: System)
    ensures Tracked(s) <==> Reached(s.handler, s.issued, Live(s))
  {}

  lemma HandlerReached(s: System, rules: HandlerSpec.Rules, fails: bool, keys: seq<uint64>)
    requires Inv(s) && Tracked(s) && Enabled(s, HandlerStep(fails, keys))
    ensures Tracked(Next(s, rules, HandlerStep(fails, keys))) <==> !LosesTrack(s, HandlerStep(fails, keys))
  {
    hide *;
    EnabledHandler(s, fails, keys);
    HandledNext(s, rules, fails, keys);
    var s', h, p := Next(s, rules, HandlerStep(fails, keys)), s.handler, s.broker.toClient[0];
    var h1 := Written(h, p, fails, keys);
    InvSessions(s);
    WrittenIsQuiet(h, p, fails, keys);
    QuietKeeps(s, h1);
    InvParts(s.(handler := h1));
    QuietExtends(h, h1);
    TrackedIs(s);
    TrackedIs(s');
    QuietReached(h, h1, s.issued, Live(s));
    ForgetsWhen(h, p);
    if Forgets(h, p) {
      ForgetChanges(h1, h.known[p.id], p.id);
      ForgetReached(h1, s.issued, s.broker.books.Keys, Live(s), p.id);
    }
    LiveFrame(s, s');
    LosesTrackIs(s, fails, keys);
  }

  lemma LosesTrackIs(s: System, fails: bool, keys: seq<uint64>)
    requires Enabled(s, HandlerStep(fails, keys))
    ensures var h, p := s.handler, s.broker.toClient[0];
      LosesTrack(s, HandlerStep(fails, keys)) <==> Forgets(h, p) && Displaces(Written(h, p, fails, keys), h.known[p.id], Live(s))
  {}

  /** Every step of every party keeps live orders within their client's reach, except one that displaces a reused id. */
  lemma TrackedStays(s: System, rules: HandlerSpec.Rules, step: Step)
    requires Inv(s) && Tracked(s) && Enabled(s, step)
    ensures Tracked(Next(s, rules, step)) <==> !LosesTrack(s, step)
  {
    if step.HandlerStep? {
      HandlerReached(s, rules, step.fails, step.keys);
    } else {
      assert !LosesTrack(s, step);
      hide *;
      if step.EngineStep? {
        EngineReached(s, rules);
      } else if step.ClientNew? && Accepts(s, rules, step) {
        AcceptedReached(s, rules, step);
      } else {
        if !step.ClientNew? {
          NotAccepted(s, rules, step);
        }
        var s' := Next(s, rules, step);
        ClientStepIsQuiet(s, rules, step);
        QuietExtends(s.handler, s'.handler);
        TrackedIs(s);
        TrackedIs(s');
        LiveFrame(s, s');
        QuietReached(s.handler, s'.handler, s.issued, Live(s));
      }
    }
  }

  // ----- no reuse, no loss -----

  /** The client id of a new order is not that of an exchange order still tracked. */
  predicate NoReuse(s: System, step: Step) {
    step.ClientNew? ==> forall x :: x in s.handler.known ==> s.handler.known[x] != HandlerSpec.ClientOrder(step.request.client, step.request.order)
  }

  ghost predicate Distinct(known: map<uint64, HandlerSpec.ClientOrder>) {
    forall x, y :: x in known && y in known && known[x] == known[y] ==> x == y
  }

  lemma DistinctStays(s: System, rules: HandlerSpec.Rules, step: Step)
    requires Enabled(s, step) && Distinct(s.handler.known) && NoReuse(s, step)
    ensures Distinct(Next(s, rules, step).handler.known)
  {
    hide Enabled, Next, Accepts, Quiet, OneSession;
    var h, s' := s.handler, Next(s, rules, step);
    if step.EngineStep? {
      EngineNext(s, rules);
    } else if step.HandlerStep? {
      EnabledHandler(s, step.fails, step.keys);
      HandledNext(s, rules, step.fails, step.keys);
      WrittenIsQuiet(h, s.broker.toClient[0], step.fails, step.keys);
      QuietKnown(h, Written(h, s.broker.toClient[0], step.fails, step.keys));
    } else if step.ClientNew? && Accepts(s, rules, step) {
      Accepted(s, rules, step);
    } else {
      if !step.ClientNew? {
        NotAccepted(s, rules, step);
      }
      ClientStepIsQuiet(s, rules, step);
      QuietKnown(h, s'.handler);
    }
  }

  lemma EntryIsOwn(h: Handler, issued: map<uint64, Issue>, symbols: set<uint32>, id: uint64)
    requires Named(h, issued, symbols) && Distinct(h.known) && id in h.known
    requires HandlerSpec.Tracks(h, h.known[id].client, h.known[id].order)
    ensures h.open[h.known[id].client][h.known[id].order].id == id
  {
    hide OneSession;
    var at := h.known[id];
    assert Matches(h.open[at.client][at.order], at.client, at.order, issued);
  }

  lemma OwnEntryIsNoLoss(h: Handler, id: uint64, live: set<uint64>)
    requires id in h.known && id !in live
    requires HandlerSpec.Tracks(h, h.known[id].client, h.known[id].order) ==> h.open[h.known[id].client][h.known[id].order].id == id
    ensures !Displaces(h, h.known[id], live)
  {}

  /** With one tracked order per client id nothing is ever displaced. */
  lemma DistinctNeverLoses(s: System, step: Step)
    requires Inv(s) && Enabled(s, step) && Distinct(s.handler.known)
    ensures !LosesTrack(s, step)
  {
    if step.HandlerStep? {
      hide *;
      EnabledHandler(s, step.fails, step.keys);
      var h, p := s.handler, s.broker.toClient[0];
      var h1 := Written(h, p, step.fails, step.keys);
      LosesTrackIs(s, step.fails, step.keys);
      ForgetsWhen(h, p);
      if Forgets(h, p) {
        WrittenIsQuiet(h, p, step.fails, step.keys);
        InvSessions(s);
        InvParts(s);
        QuietKnown(h, h1);
        QuietNamed(h, h1, s.issued, s.broker.books.Keys);
        if HandlerSpec.Tracks(h1, h1.known[p.id].client, h1.known[p.id].order) {
          EntryIsOwn(h1, s.issued, s.broker.books.Keys, p.id);
        }
        EndedNotLive(s, p);
        OwnEntryIsNoLoss(h1, p.id, Live(s));
      }
    }
  }

  lemma EndedNotLive(s: System, p: Payload)
    requires Inv(s) && s.broker.toClient != [] && s.broker.toClient[0] == p && HandlerSpec.Terminal(p)
    ensures p.id !in Live(s)
  {
    assert p.id in Endings(s.broker.toClient);
  }

  // ----- losing the session -----

  ghost predicate Gone(h: Handler, client: uint32) {
    forall sock :: sock in h.sessions ==> h.sessions[sock].client != client
  }

  ghost predicate NoEntries(h: Handler, client: uint32) {
    forall o :: !HandlerSpec.Tracks(h, client, o)
  }

  /** Everything of this client that is live is on its way out. */
  ghost predicate AllDoomed(s: System, client: uint32) {
    forall x :: x in Live(s) && x in s.issued && s.issued[x].client == client ==> Doomed(s.handler.toEngine, x)
  }

  /** A login that opens a session over one the socket already has. */
  predicate Overwrites(s: System, step: Step) {
    step.ClientLogin? && HandlerSpec.Opens(s.handler, step.client, step.valid) && step.sock in s.handler.sessions
  }

  lemma ClosingClears(h: Handler, sock: HandlerSpec.Sock, keys: seq<uint64>, client: uint32)
    requires HandlerSpec.CanClose(h, sock, keys) && !Gone(h, client) && Gone(HandlerSpec.SocketClosed(h, sock, keys), client)
    ensures NoEntries(HandlerSpec.SocketClosed(h, sock, keys), client)
  {
    hide HandlerSpec.Cancels, HandlerSpec.Enumerates;
    var other :| other in h.sessions && h.sessions[other].client == client;
    var h' := HandlerSpec.SocketClosed(h, sock, keys);
    assert other !in h'.sessions;
  }

  lemma LoginClears(s: System, sock: HandlerSpec.Sock, login: uint32, valid: bool, session: uint64, fails: bool, keys: seq<uint64>, client: uint32)
    requires HandlerSpec.CanLogin(s.handler, sock, login, valid, session, fails, keys)
    requires !(HandlerSpec.Opens(s.handler, login, valid) && sock in s.handler.sessions)
    requires !Gone(s.handler, client) && Gone(HandlerSpec.Login(s.handler, sock, login, valid, session, fails, keys), client)
    ensures NoEntries(HandlerSpec.Login(s.handler, sock, login, valid, session, fails, keys), client)
  {
    hide HandlerSpec.SocketClosed, NoEntries;
    var h := s.handler;
    var other :| other in h.sessions && h.sessions[other].client == client;
    if login in h.socks {
      ClosingClears(h, h.socks[login], keys, client);
    } else {
      var h1 := h.(sessions := h.sessions[sock := HandlerSpec.Session(session, login)], socks := h.socks[login := sock]);
      assert h1.sessions[other].client == client;
      ClosingClears(h1, sock, keys, client);
    }
  }

  lemma WritingClears(h: Handler, p: Payload, fails: bool, keys: seq<uint64>, client: uint32)
    requires HandlerSpec.CanHandle(h, p, fails, keys) && !Gone(h, client) && Gone(Written(h, p, fails, keys), client)
    ensures NoEntries(Written(h, p, fails, keys), client)
  {
    hide NoEntries, HandlerSpec.SocketClosed;
    var to := if p.kind.RejectKind? then p.client else if p.id in h.known then h.known[p.id].client else 0;
    if to in h.socks && h.socks[to] in h.sessions && fails {
      ClosingClears(h, h.socks[to], keys, client);
    }
  }

  lemma ForgetKeepsNoEntries(h: Handler, at: HandlerSpec.ClientOrder, id: uint64, client: uint32)
    requires NoEntries(h, client)
    ensures NoEntries(HandlerSpec.Forget(h, at, id), client)
  {
    forall o ensures !HandlerSpec.Tracks(HandlerSpec.Forget(h, at, id), client, o) {
      assert !HandlerSpec.Tracks(h, client, o);
    }
  }

  lemma GoneSame(h: Handler, h': Handler, client: uint32)
    requires h'.sessions == h.sessions
    ensures Gone(h', client) == Gone(h, client)
  {}

  /** Requests change no session. */
  lemma RequestSessions(s: System, rules: HandlerSpec.Rules, step: Step)
    requires Enabled(s, step) && (step.EngineStep? || step.ClientNew? || step.ClientDelete? || step.ClientModify?)
    ensures Next(s, rules, step).handler.sessions == s.handler.sessions
  {
    hide BrokerApply, HandlerSpec.Validate;
  }

  /** A step that costs a client its session drops all its entries, unless it is a login over that session. */
  lemma SessionLossClears(s: System, rules: HandlerSpec.Rules, step: Step, client: uint32)
    requires Enabled(s, step) && !Overwrites(s, step)
    requires !Gone(s.handler, client) && Gone(Next(s, rules, step).handler, client)
    ensures NoEntries(Next(s, rules, step).handler, client)
  {
    hide NoEntries, Gone, BrokerApply, HandlerSpec.NewOrder, HandlerSpec.DeleteOrder, HandlerSpec.ModifyOrder, HandlerSpec.Login,
      HandlerSpec.SocketClosed, Written, HandlerSpec.CanLogin, HandlerSpec.CanClose, HandlerSpec.CanHandle;
    var s' := Next(s, rules, step);
    match step
    case ClientLogin(sock, login, valid, session, fails, keys) => LoginClears(s, sock, login, valid, session, fails, keys, client);
    case Disconnect(sock, keys) => ClosingClears(s.handler, sock, keys, client);
    case HandlerStep(fails, keys) =>
      HandledNext(s, rules, fails, keys);
      var h, p := s.handler, s.broker.toClient[0];
      var h1 := Written(h, p, fails, keys);
      ForgetsWhen(h, p);
      if Forgets(h, p) {
        ForgetChanges(h1, h.known[p.id], p.id);
        GoneSame(h1, s'.handler, client);
        WritingClears(h, p, fails, keys, client);
        ForgetKeepsNoEntries(h1, h.known[p.id], p.id, client);
      } else {
        WritingClears(h, p, fails, keys, client);
      }
    case _ =>
      RequestSessions(s, rules, step);
      GoneSame(s.handler, s'.handler, client);
  }

  lemma NoEntriesAllDoomed(s: System, client: uint32)
    requires Tracked(s) && NoEntries(s.handler, client)
    ensures AllDoomed(s, client)
  {
    hide Doomed, Live;
    forall x | x in Live(s) && x in s.issued && s.issued[x].client == client ensures Doomed(s.handler.toEngine, x) {
      assert !HandlerSpec.Tracks(s.handler, client, s.issued[x].order);
    }
  }

  /** A delete behind `q` for orders of others does nothing for this one. */
  lemma DoomedBefore(q: seq<Payload>, ext: seq<Payload>, id: uint64)
    requires Doomed(q + ext, id) && forall i :: 0 <= i < |ext| ==> !(ext[i].kind.DeleteOrderKind? && ext[i].id == id)
    ensures Doomed(q, id)
  {
    var r := q + ext;
    assert forall i :: 0 <= i < |ext| ==> r[|q| + i] == ext[i];
    assert forall i :: |q| <= i < |r| ==> r[i] == ext[i - |q|];
    var j :| 0 <= j < |r| && DoomedAt(r, id, j);
    assert forall i :: j <= i < |q| ==> r[i] == q[i];
    assert DoomedAt(q, id, j);
  }

  /** An order some entry of the client is for. */
  ghost predicate Listed(h: Handler, client: uint32, id: uint64) {
    exists o :: HandlerSpec.Tracks(h, client, o) && h.open[client][o].id == id
  }

  /** What closing a socket queues is for entries of the session's client. */
  lemma ClosingQueues(h: Handler, sock: HandlerSpec.Sock, keys: seq<uint64>)
    requires HandlerSpec.CanClose(h, sock, keys) && sock in h.sessions
    ensures var h', client := HandlerSpec.SocketClosed(h, sock, keys), h.sessions[sock].client;
      && h.toEngine <= h'.toEngine
      && forall i :: |h.toEngine| <= i < |h'.toEngine| ==> Listed(h, client, h'.toEngine[i].id)
  {
    var client := h.sessions[sock].client;
    var h', m := HandlerSpec.SocketClosed(h, sock, keys), HandlerSpec.Orders(h, client);
    var cancels := HandlerSpec.Cancels(m, keys, client);
    assert h'.toEngine == h.toEngine + cancels;
    forall i | |h.toEngine| <= i < |h'.toEngine| ensures Listed(h, client, h'.toEngine[i].id) {
      var o := keys[i - |h.toEngine|];
      assert h'.toEngine[i] == cancels[i - |h.toEngine|];
      assert o in keys && o in m;
      assert HandlerSpec.Tracks(h, client, o);
    }
  }

  lemma ListedIsIssued(h: Handler, issued: map<uint64, Issue>, symbols: set<uint32>, client: uint32, id: uint64)
    requires Named(h, issued, symbols) && Listed(h, client, id)
    ensures id in issued && issued[id].client == client
  {
    hide OneSession;
    var o :| HandlerSpec.Tracks(h, client, o) && h.open[client][o].id == id;
    assert Matches(h.open[client][o], client, o, issued);
  }

  /** The handler with a session opened over whatever the socket had. */
  function Opened(h: Handler, step: Step): Handler
    requires step.ClientLogin?
  {
    h.(sessions := h.sessions[step.sock := HandlerSpec.Session(step.session, step.client)], socks := h.socks[step.client := step.sock])
  }

  lemma OverwriteNext(s: System, rules: HandlerSpec.Rules, step: Step, client: uint32)
    requires Enabled(s, step) && Overwrites(s, step) && !Gone(s.handler, client) && OneSession(s.handler)
    ensures step.ClientLogin? && step.client != client
    ensures var s', h1 := Next(s, rules, step), Opened(s.handler, step);
      && s' == s.(handler := s'.handler) && (!step.fails ==> s'.handler == h1)
      && (step.fails ==> HandlerSpec.CanClose(h1, step.sock, step.keys) && s'.handler == HandlerSpec.SocketClosed(h1, step.sock, step.keys))
  {
    hide HandlerSpec.SocketClosed;
  }

  lemma OverwriteFails(s: System, s': System, step: Step, client: uint32)
    requires Inv(s) && step.ClientLogin? && step.client != client
    requires HandlerSpec.CanClose(Opened(s.handler, step), step.sock, step.keys)
    requires s' == s.(handler := HandlerSpec.SocketClosed(Opened(s.handler, step), step.sock, step.keys)) && Live(s') == Live(s)
    requires AllDoomed(s', client)
    ensures AllDoomed(s, client)
  {
    hide Live, Doomed, HandlerSpec.SocketClosed, HandlerSpec.CanClose, Inv, Named, Opened;
    var h, q' := s.handler, s'.handler.toEngine;
    OpenedIs(h, step);
    ClosingQueues(Opened(h, step), step.sock, step.keys);
    forall x | x in Live(s) && x in s.issued && s.issued[x].client == client ensures Doomed(h.toEngine, x) {
      assert q' == h.toEngine + q'[|h.toEngine|..];
      forall i | |h.toEngine| <= i < |q'| ensures q'[i].id != x {
        ListedIsAnothers(s, step, q'[i].id, client);
      }
      DoomedBefore(h.toEngine, q'[|h.toEngine|..], x);
    }
  }

  lemma OpenedIs(h: Handler, step: Step)
    requires step.ClientLogin?
    ensures Opened(h, step).toEngine == h.toEngine && Opened(h, step).open == h.open
    ensures step.sock in Opened(h, step).sessions && Opened(h, step).sessions[step.sock].client == step.client
  {}

  lemma ListedIsAnothers(s: System, step: Step, id: uint64, client: uint32)
    requires Inv(s) && step.ClientLogin? && step.client != client && Listed(Opened(s.handler, step), step.client, id)
    ensures id in s.issued && s.issued[id].client != client
  {
    hide *;
    InvParts(s);
    OpenedIs(s.handler, step);
    SameListed(s.handler, Opened(s.handler, step), step.client, id);
    ListedIsIssued(s.handler, s.issued, s.broker.books.Keys, step.client, id);
  }

  lemma SameListed(h: Handler, h1: Handler, client: uint32, id: uint64)
    requires h1.open == h.open && Listed(h1, client, id)
    ensures Listed(h, client, id)
  {
    var o :| HandlerSpec.Tracks(h1, client, o) && h1.open[client][o].id == id;
    assert HandlerSpec.Tracks(h, client, o);
  }

  /** A login over a live session leaves the orders of the client it displaces as they were. */
  lemma OverwritingDooms(s: System, rules: HandlerSpec.Rules, step: Step, client: uint32)
    requires Inv(s) && Enabled(s, step) && Overwrites(s, step) && !Gone(s.handler, client)
    ensures AllDoomed(Next(s, rules, step), client) <==> AllDoomed(s, client)
  {
    hide *;
    InvSessions(s);
    OverwriteNext(s, rules, step, client);
    var s' := Next(s, rules, step);
    NotAccepted(s, rules, step);
    ClientStepIsQuiet(s, rules, step);
    QuietExtends(s.handler, s'.handler);
    LiveFrame(s, s');
    if AllDoomed(s, client) {
      QuietAllDoomed(s, s', client);
    }
    if AllDoomed(s', client) {
      if step.fails {
        OverwriteFails(s, s', step, client);
      } else {
        OpenedIs(s.handler, step);
        SameAllDoomed(s', s, client);
      }
    }
  }

  /**
   When a step costs a client its session, everything it has is on its way out exactly if the step was not a login
   over that session, or nothing of the client was left to cancel.
   */
  lemma SessionLossExact(s: System, rules: HandlerSpec.Rules, step: Step, client: uint32)
    requires Inv(s) && Tracked(s) && Distinct(s.handler.known) && Enabled(s, step)
    requires !Gone(s.handler, client) && Gone(Next(s, rules, step).handler, client)
    ensures AllDoomed(Next(s, rules, step), client) <==> !Overwrites(s, step) || AllDoomed(s, client)
  {
    hide *;
    if Overwrites(s, step) {
      OverwritingDooms(s, rules, step, client);
    } else {
      DistinctNeverLoses(s, step);
      TrackedStays(s, rules, step);
      SessionLossClears(s, rules, step, client);
      NoEntriesAllDoomed(Next(s, rules, step), client);
    }
  }

  // ----- until the queues have drained -----

  /** The client has no session and what it left is on its way out. */
  ghost predicate Leaving(s: System, client: uint32) {
    Gone(s.handler, client) && AllDoomed(s, client)
  }

  predicate Returns(s: System, step: Step, client: uint32) {
    step.ClientLogin? && step.client == client && HandlerSpec.Opens(s.handler, step.client, step.valid)
  }

  lemma GoneStays(s: System, rules: HandlerSpec.Rules, step: Step, client: uint32)
    requires Enabled(s, step) && Gone(s.handler, client) && !Returns(s, step, client)
    ensures Gone(Next(s, rules, step).handler, client)
  {
    hide HandlerSpec.NewOrder, HandlerSpec.DeleteOrder, HandlerSpec.ModifyOrder, BrokerApply, HandlerSpec.Cancels, HandlerSpec.Enumerates;
    match step
    case HandlerStep(fails, keys) =>
      HandledNext(s, rules, fails, keys);
    case ClientLogin(_, _, _, _, _, _) =>
    case Disconnect(_, _) =>
    case _ =>
      RequestSessions(s, rules, step);
  }

  lemma QuietAllDoomed(s: System, s': System, client: uint32)
    requires Quiet(s.handler, s'.handler) && s'.issued == s.issued && Live(s') == Live(s) && AllDoomed(s, client)
    ensures AllDoomed(s', client)
  {
    hide Quiet, Doomed, Live;
    forall x | x in Live(s') && x in s'.issued && s'.issued[x].client == client ensures Doomed(s'.handler.toEngine, x) {
      QuietDoomed(s.handler, s'.handler, x);
    }
  }

  lemma LeavingStays(s: System, rules: HandlerSpec.Rules, step: Step, client: uint32)
    requires Inv(s) && Enabled(s, step) && Leaving(s, client) && !Returns(s, step, client)
    ensures Leaving(Next(s, rules, step), client)
  {
    GoneStays(s, rules, step, client);
    var s' := Next(s, rules, step);
    hide Inv, Next, Enabled, Accepts, Returns, Quiet, OneSession, Doomed, Live, Forgets, Written;
    if step.EngineStep? {
      EngineNext(s, rules);
      EngineLive(s, rules);
      forall x | x in Live(s') && x in s'.issued && s'.issued[x].client == client ensures Doomed(s'.handler.toEngine, x) {
        EngineDoomed(s, rules, x);
      }
    } else if step.HandlerStep? {
      HandlerAllDoomed(s, rules, step.fails, step.keys, client);
    } else if step.ClientNew? && Accepts(s, rules, step) {
      AcceptedAllDoomed(s, rules, step, client);
    } else {
      if !step.ClientNew? {
        NotAccepted(s, rules, step);
      }
      ClientStepIsQuiet(s, rules, step);
      QuietExtends(s.handler, s'.handler);
      LiveFrame(s, s');
      QuietAllDoomed(s, s', client);
    }
  }

  lemma HandlerAllDoomed(s: System, rules: HandlerSpec.Rules, fails: bool, keys: seq<uint64>, client: uint32)
    requires Enabled(s, HandlerStep(fails, keys)) && AllDoomed(s, client)
    ensures AllDoomed(Next(s, rules, HandlerStep(fails, keys)), client)
  {
    hide *;
    EnabledHandler(s, fails, keys);
    HandledNext(s, rules, fails, keys);
    var s', h, p := Next(s, rules, HandlerStep(fails, keys)), s.handler, s.broker.toClient[0];
    var h1 := Written(h, p, fails, keys);
    var s1 := s.(handler := h1);
    WrittenIsQuiet(h, p, fails, keys);
    QuietExtends(h, h1);
    LiveFrame(s, s1);
    QuietAllDoomed(s, s1, client);
    ForgetsWhen(h, p);
    if Forgets(h, p) {
      ForgetChanges(h1, h.known[p.id], p.id);
    }
    LiveFrame(s1, s');
    SameAllDoomed(s1, s', client);
  }

  lemma SameAllDoomed(s: System, s': System, client: uint32)
    requires s'.handler.toEngine == s.handler.toEngine && s'.issued == s.issued && Live(s') == Live(s) && AllDoomed(s, client)
    ensures AllDoomed(s', client)
  {}

  /** A client without a session has no order accepted, and another's leaves its own doomed. */
  lemma AcceptedAllDoomed(s: System, rules: HandlerSpec.Rules, step: Step, client: uint32)
    requires Inv(s) && Enabled(s, step) && step.ClientNew? && Accepts(s, rules, step) && Leaving(s, client)
    ensures AllDoomed(Next(s, rules, step), client)
  {
    hide Inv, Next, Enabled, Accepts, Doomed, News, Resting;
    Accepted(s, rules, step);
    EnabledNew(s, step);
    KnownNews(s);
    var s' := Next(s, rules, step);
    var p := s'.handler.toEngine[|s.handler.toEngine|];
    NewsPush(s.handler.toEngine, p);
    assert step.request.client != client;
    forall x | x in Live(s') && x in s'.issued && s'.issued[x].client == client ensures Doomed(s'.handler.toEngine, x) {
      assert x != step.id && x in Live(s);
      DoomedAppend(s.handler.toEngine, [p], x);
    }
  }

  ghost predicate NeverReturns(s: System, rules: HandlerSpec.Rules, steps: seq<Step>, client: uint32)
    requires Possible(s, rules, steps)
    decreases |steps|
  {
    steps == [] || (!Returns(s, steps[0], client) && NeverReturns(Next(s, rules, steps[0]), rules, steps[1..], client))
  }

  lemma {:induction false} RunLeaves(s: System, rules: HandlerSpec.Rules, steps: seq<Step>, client: uint32)
    requires Inv(s) && rules.Keys <= s.broker.books.Keys && Possible(s, rules, steps)
    requires Leaving(s, client) && NeverReturns(s, rules, steps, client)
    ensures Inv(After(s, rules, steps)) && Leaving(After(s, rules, steps), client)
    decreases |steps|
  {
    hide Inv, Enabled, Next, Leaving, Returns;
    if steps != [] {
      InvStays(s, rules, steps[0]);
      LeavingStays(s, rules, steps[0], client);
      RunLeaves(Next(s, rules, steps[0]), rules, steps[1..], client);
    }
  }

  /** Client ids are not reused while tracked, at any step of a run. */
  ghost predicate NeverReuses(s: System, rules: HandlerSpec.Rules, steps: seq<Step>)
    requires Possible(s, rules, steps)
    decreases |steps|
  {
    steps == [] || (NoReuse(s, steps[0]) && NeverReuses(Next(s, rules, steps[0]), rules, steps[1..]))
  }

  lemma {:induction false} RunTracks(s: System, rules: HandlerSpec.Rules, steps: seq<Step>)
    requires Inv(s) && Tracked(s) && Distinct(s.handler.known) && rules.Keys <= s.broker.books.Keys
    requires Possible(s, rules, steps) && NeverReuses(s, rules, steps)
    ensures var e := After(s, rules, steps); Inv(e) && Tracked(e) && Distinct(e.handler.known) && e.broker.books.Keys == s.broker.books.Keys
    decreases |steps|
  {
    hide Inv, Enabled, Next, Tracked, Distinct, NoReuse, LosesTrack;
    if steps != [] {
      InvStays(s, rules, steps[0]);
      DistinctNeverLoses(s, steps[0]);
      TrackedStays(s, rules, steps[0]);
      DistinctStays(s, rules, steps[0]);
      RunTracks(Next(s, rules, steps[0]), rules, steps[1..]);
    }
  }

  lemma StartTracked(symbols: set<uint32>)
    ensures Tracked(Start(symbols)) && Distinct(Start(symbols).handler.known)
  {
    assert BookIds(Book([], [])) == {};
  }

  /**
   Cancel on disconnect. Take any run from the start in which client ids are not reused while tracked, then any
   step that costs a client its session, other than a login over that session, then any further run in which the
   client does not log in again. Once the broker's queue has drained, nothing of that client rests in any ladder.
   */
  lemma CancelledOnDisconnect(symbols: set<uint32>, rules: HandlerSpec.Rules, before: seq<Step>, loss: Step, rest: seq<Step>, client: uint32)
    requires rules.Keys <= symbols && Possible(Start(symbols), rules, before) && NeverReuses(Start(symbols), rules, before)
    requires var s := After(Start(symbols), rules, before);
      && Enabled(s, loss) && !Overwrites(s, loss)
      && !Gone(s.handler, client) && Gone(Next(s, rules, loss).handler, client)
      && Possible(Next(s, rules, loss), rules, rest) && NeverReturns(Next(s, rules, loss), rules, rest, client)
    ensures var e := After(Next(After(Start(symbols), rules, before), rules, loss), rules, rest);
      e.handler.toEngine == [] ==>
        forall x :: x in Resting(e.broker) ==> x in e.issued && e.issued[x].client != client
  {
    hide *;
    StartInv(symbols);
    StartTracked(symbols);
    StartSymbols(symbols);
    RunTracks(Start(symbols), rules, before);
    var s := After(Start(symbols), rules, before);
    var s' := Next(s, rules, loss);
    InvStays(s, rules, loss);
    DistinctNeverLoses(s, loss);
    TrackedStays(s, rules, loss);
    SessionLossClears(s, rules, loss, client);
    NoEntriesAllDoomed(s', client);
    BeginsLeaving(s', client);
    RunLeaves(s', rules, rest, client);
    var e := After(s', rules, rest);
    if e.handler.toEngine == [] {
      Drained(e, client);
    }
  }

  lemma StartSymbols(symbols: set<uint32>)
    ensures Start(symbols).broker.books.Keys == symbols
  {}

  lemma BeginsLeaving(s: System, client: uint32)
    requires Gone(s.handler, client) && AllDoomed(s, client)
    ensures Leaving(s, client)
  {}

  lemma Drained(s: System, client: uint32)
    requires Inv(s) && Leaving(s, client) && s.handler.toEngine == []
    ensures forall x :: x in Resting(s.broker) ==> x in s.issued && s.issued[x].client != client
  {
    hide Shelved, Named, Resting, Gone;
    forall x | x in Resting(s.broker) ensures x in s.issued && s.issued[x].client != client {
      assert x in Live(s);
      assert x in s.issued;
      assert !Doomed(s.handler.toEngine, x);
    }
  }
}
