/**
 The whole exchange: in every interleaving of clients, handler and broker the market data log keeps up with the
 ladders, and a client that joins late ends with a ladder's orders and exact levels.
 */
module EndToEnd {
  import opened ExchangeTypes
  import opened BookSpec
  import opened BookTheorems
  import opened MarketData
  import opened Markets
  import opened Replication
  import opened OrderBooks
  import opened ReplicaLevels
  import opened BrokerSpec
  import opened BrokerTheorems
  import opened BrokerLog
  import opened Lifecycle
  import opened SnapshotWriters
  import opened RecoverySpec
  import opened Recovery
  import opened LateJoin
  import opened RecoveryLevels
  import HandlerSpec

  // ----- the log in every interleaving -----

  /** The broker is about to amend a partly filled order in place. */
  predicate Misreports(s: System, step: Step) {
    step.EngineStep? && s.handler.toEngine != [] && InPlaceAmend(s.broker, s.handler.toEngine[0])
  }

  lemma SameLog(st: BrokerState, st': BrokerState)
    requires st'.log == st.log && st'.books == st.books
    ensures InStep(st') == InStep(st)
  {}

  lemma OtherStepsSpareBroker(s: System, rules: HandlerSpec.Rules, step: Step)
    requires Enabled(s, step) && !step.EngineStep?
    ensures Next(s, rules, step).broker.log == s.broker.log && Next(s, rules, step).broker.books == s.broker.books
  {
    hide HandlerSpec.Login, HandlerSpec.NewOrder, HandlerSpec.DeleteOrder, HandlerSpec.ModifyOrder, HandlerSpec.SocketClosed, HandlerSpec.Handle;
  }

  /** In every reachable state the next step keeps the log in step with all ladders exactly if it misreports no amend. */
  lemma StepInStep(s: System, rules: HandlerSpec.Rules, step: Step)
    requires Inv(s) && InStep(s.broker) && Enabled(s, step)
    ensures InStep(Next(s, rules, step).broker) <==> !Misreports(s, step)
  {
    if step.EngineStep? {
      assert s.handler.toEngine != [];
      assert Next(s, rules, step).broker == BrokerApply(s.broker, s.handler.toEngine[0]).0;
      assert Misreports(s, step) <==> InPlaceAmend(s.broker, s.handler.toEngine[0]);
      hide *;
      InvParts(s);
      ShelvedIsSound(s.broker, s.issued);
      HeadIsEntitled(s);
      LogStaysInStep(s.broker, Kept(s.broker), s.handler.toEngine[0]);
    } else {
      OtherStepsSpareBroker(s, rules, step);
      SameLog(s.broker, Next(s, rules, step).broker);
    }
  }

  // ----- totals along the log -----

  ghost predicate Fitting(g: Market, symbols: set<uint32>) {
    forall s :: s in symbols ==> Fits(Of(g, s)) && Positive(Of(g, s))
  }

  /** Positive quantities, and totals of these symbols that fit in 32 bits all along. */
  ghost predicate Roomy(g: Market, log: seq<MdMsg>, symbols: set<uint32>)
    decreases |log|
  {
    Fitting(g, symbols) && (log == [] || (PositiveMsg(log[0]) && Roomy(ApplyMarket(g, log[0]), log[1..], symbols)))
  }

  lemma {:induction false} RoomyAt(g: Market, log: seq<MdMsg>, symbols: set<uint32>, k: nat)
    requires Roomy(g, log, symbols) && k <= |log|
    ensures Fitting(Markets.Replay(g, log[..k]), symbols) && (k < |log| ==> PositiveMsg(log[k]))
    decreases |log|
  {
    hide Fitting, ApplyMarket, PositiveMsg;
    if k > 0 {
      RoomyAt(ApplyMarket(g, log[0]), log[1..], symbols, k - 1);
      assert log[..k][1..] == log[1..][..k - 1];
    }
  }

  lemma RoomyFits(log: seq<MdMsg>, symbols: set<uint32>)
    requires Roomy(map[], log, symbols)
    ensures AllPositive(log) && FitsWithin(log, 0, |log|, symbols)
  {
    hide Roomy, Fits, Positive, PositiveMsg, Of;
    forall k | 0 <= k < |log| ensures PositiveMsg(log[k]) {
      RoomyAt(map[], log, symbols, k);
    }
    forall k | 0 <= k <= |log| ensures FitsAt(log, k, symbols) {
      RoomyAt(map[], log, symbols, k);
    }
  }

  lemma {:induction false} RoomyConcat(g: Market, a: seq<MdMsg>, b: seq<MdMsg>, symbols: set<uint32>)
    ensures Roomy(g, a + b, symbols) <==> Roomy(g, a, symbols) && Roomy(Markets.Replay(g, a), b, symbols)
    decreases |a|
  {
    hide Fitting, ApplyMarket, PositiveMsg;
    if a == [] {
      assert a + b == b;
    } else {
      assert (a + b)[1..] == a[1..] + b;
      RoomyConcat(ApplyMarket(g, a[0]), a[1..], b, symbols);
    }
  }

  /** A stretch of log about one symbol has room everywhere if it has room in that symbol. */
  lemma {:induction false} SegmentRoomy(g: Market, seg: seq<MdMsg>, s: uint32, ids: set<uint64>, symbols: set<uint32>)
    requires AboutOne(g, seg, s, ids) && Fitting(g, symbols) && s in symbols
    requires AllFit(Of(g, s), seg) && AllProper(Of(g, s), seg)
    ensures Roomy(g, seg, symbols)
    decreases |seg|
  {
    hide Of, Fits, Positive, Proper, ApplyQuote, ApplyMarket, PositiveMsg;
    if seg != [] {
      var g', tail := ApplyMarket(g, seg[0]), seg[1..];
      OneMessage(g, seg, s, ids);
      PositiveStays(Of(g, s), seg[0]);
      assert AllFit(ApplyQuote(Of(g, s), seg[0]), tail);
      assert Fitting(g', symbols) by {
        forall t | t in symbols ensures Fits(Of(g', t)) && Positive(Of(g', t)) {}
      }
      SegmentRoomy(g', tail, s, ids, symbols);
    }
  }

  lemma OneMessage(g: Market, seg: seq<MdMsg>, s: uint32, ids: set<uint64>)
    requires AboutOne(g, seg, s, ids) && seg != []
    ensures var g' := ApplyMarket(g, seg[0]);
      && AboutOne(g', seg[1..], s, ids) && Of(g', s) == ApplyQuote(Of(g, s), seg[0])
      && forall t :: t != s ==> Of(g', t) == Of(g, t)
  {
    var g', tail := ApplyMarket(g, seg[0]), seg[1..];
    assert forall i {:trigger tail[i]} :: 0 <= i < |tail| ==> tail[i] == seg[i + 1];
    ApplyOf(g, seg[0], s);
    if Subject(g, seg[0]) != Some(s) {
      Ignored(g, seg[0], s);
    }
    forall t | t != s ensures Of(g', t) == Of(g, t) {
      ApplyOf(g, seg[0], t);
    }
  }

  /** Every ladder's totals fit. */
  ghost predicate Spacious(st: BrokerState) {
    forall s :: s in st.books ==> Fits(View(st.books[s]))
  }

  lemma ServedRoomy(st: BrokerState, owner: TrueOwners, p: Payload)
    requires Sound(st, owner) && InStep(st) && Entitled(st, p) && WellRouted(st, p) && !InPlaceAmend(st, p)
    requires Roomy(map[], st.log, st.books.Keys) && Spacious(st) && Spacious(BrokerApply(st, p).0)
    ensures Roomy(map[], BrokerApply(st, p).0.log, st.books.Keys)
  {
    hide BookIds, WellFormed, InBook, Apply, Low32, BrokerApply, Published, View, Disjoint, Attributed, AboutOne, Fits, AllFit, AllProper, Of;
    if p.kind.RejectKind? {
      RejectPasses(st, p);
    } else {
      var b, req, g, symbols := st.books[p.symbol], RequestOf(p), LoggedMarket(st), st.books.Keys;
      var aggressor := if p.kind.DeleteOrderKind? then st.aggressor else p.side;
      var seg := Published(p.symbol, aggressor, Apply(b, req).events);
      RequestOutcome(st, owner, p);
      LogGrows(st, owner, p);
      LiveIsResting(st, p.id);
      PublishedAboutOne(g, b, req, p.symbol, aggressor);
      assert !AmendsFilledInPlace(b, req) by {
        if p.kind != ModifyOrderKind { assert !req.Modify?; }
      }
      RequestFits(b, req, p.symbol, aggressor);
      assert Of(g, p.symbol) == View(b);
      assert Fits(View(b)) && Fits(View(Apply(b, req).book)) by {
        assert BrokerApply(st, p).0.books[p.symbol] == Apply(b, req).book;
      }
      RoomyEnd(st.log, symbols);
      SegmentRoomy(g, seg, p.symbol, BookIds(b) + {req.id}, symbols);
      RoomyConcat(map[], st.log, seg, symbols);
    }
  }

  lemma RoomyEnd(log: seq<MdMsg>, symbols: set<uint32>)
    requires Roomy(map[], log, symbols)
    ensures Fitting(Markets.Replay(map[], log), symbols)
  {
    RoomyAt(map[], log, symbols, |log|);
    assert log[..|log|] == log;
  }

  // ----- runs -----

  /** No step of the run misreports an amend. */
  ghost predicate CleanSteps(s: System, rules: HandlerSpec.Rules, steps: seq<Step>)
    requires Possible(s, rules, steps)
    decreases |steps|
  {
    steps == [] || (!Misreports(s, steps[0]) && CleanSteps(Next(s, rules, steps[0]), rules, steps[1..]))
  }

  /** In every state of the run every ladder's totals fit. */
  ghost predicate SpaciousSteps(s: System, rules: HandlerSpec.Rules, steps: seq<Step>)
    requires Possible(s, rules, steps)
    decreases |steps|
  {
    Spacious(s.broker) && (steps == [] || SpaciousSteps(Next(s, rules, steps[0]), rules, steps[1..]))
  }

  lemma {:induction false} RunInStep(s: System, rules: HandlerSpec.Rules, steps: seq<Step>)
    requires Inv(s) && InStep(s.broker) && rules.Keys <= s.broker.books.Keys
    requires Possible(s, rules, steps) && CleanSteps(s, rules, steps)
    ensures InStep(After(s, rules, steps).broker)
    decreases |steps|
  {
    hide Inv, Enabled, Next, InStep, Misreports;
    if steps != [] {
      InvStays(s, rules, steps[0]);
      StepInStep(s, rules, steps[0]);
      RunInStep(Next(s, rules, steps[0]), rules, steps[1..]);
    }
  }

  lemma StepRoomy(s: System, rules: HandlerSpec.Rules, step: Step)
    requires Inv(s) && InStep(s.broker) && Enabled(s, step) && !Misreports(s, step)
    requires Roomy(map[], s.broker.log, s.broker.books.Keys) && Spacious(s.broker) && Spacious(Next(s, rules, step).broker)
    ensures Roomy(map[], Next(s, rules, step).broker.log, s.broker.books.Keys)
  {
    if step.EngineStep? {
      assert s.handler.toEngine != [];
      assert Next(s, rules, step).broker == BrokerApply(s.broker, s.handler.toEngine[0]).0;
      assert !InPlaceAmend(s.broker, s.handler.toEngine[0]);
      hide *;
      InvParts(s);
      ShelvedIsSound(s.broker, s.issued);
      HeadIsEntitled(s);
      ServedRoomy(s.broker, Kept(s.broker), s.handler.toEngine[0]);
    } else {
      OtherStepsSpareBroker(s, rules, step);
    }
  }

  lemma {:induction false} RunRoomy(s: System, rules: HandlerSpec.Rules, steps: seq<Step>)
    requires Inv(s) && InStep(s.broker) && rules.Keys <= s.broker.books.Keys
    requires Possible(s, rules, steps) && CleanSteps(s, rules, steps) && SpaciousSteps(s, rules, steps)
    requires Roomy(map[], s.broker.log, s.broker.books.Keys)
    ensures var e := After(s, rules, steps); Roomy(map[], e.broker.log, e.broker.books.Keys) && e.broker.books.Keys == s.broker.books.Keys
    decreases |steps|
  {
    hide Inv, Enabled, Next, InStep, Misreports, Spacious, Roomy;
    if steps != [] {
      InvStays(s, rules, steps[0]);
      StepInStep(s, rules, steps[0]);
      StepRoomy(s, rules, steps[0]);
      RunRoomy(Next(s, rules, steps[0]), rules, steps[1..]);
    }
  }

  /** In every interleaving that misreports no amend, replaying the market data log gives every ladder's exact orders. */
  lemma LogKeepsUp(symbols: set<uint32>, rules: HandlerSpec.Rules, steps: seq<Step>)
    requires rules.Keys <= symbols && Possible(Start(symbols), rules, steps) && CleanSteps(Start(symbols), rules, steps)
    ensures var st := After(Start(symbols), rules, steps).broker;
      && AllFresh(map[], st.log) && st.books.Keys == symbols
      && forall s :: s in symbols ==> Of(Markets.Replay(map[], st.log), s) == View(st.books[s])
    ensures SpaciousSteps(Start(symbols), rules, steps) ==> Roomy(map[], After(Start(symbols), rules, steps).broker.log, symbols)
  {
    hide Inv, Enabled, Next, Misreports, View, Of, Possible, After, CleanSteps, SpaciousSteps, Roomy;
    StartInv(symbols);
    StartInStep(symbols);
    RunKeeps(Start(symbols), rules, steps);
    RunInStep(Start(symbols), rules, steps);
    if SpaciousSteps(Start(symbols), rules, steps) {
      RunRoomy(Start(symbols), rules, steps);
    }
  }

  lemma StartInStep(symbols: set<uint32>)
    ensures InStep(Start(symbols).broker) && Start(symbols).broker.books.Keys == symbols
    ensures Roomy(map[], Start(symbols).broker.log, symbols)
  {
    IdleIsSound(symbols);
    EmptyBookExact();
    ExactFits(EMPTY_BOOK);
    assert forall s :: Of(map[], s) == map[];
  }

  // ----- heartbeats -----

  /** The log without its heartbeats. */
  function NoBeats(log: seq<MdMsg>): seq<MdMsg> {
    if log == [] then [] else (if log[0].MdHeartbeat? then [] else [log[0]]) + NoBeats(log[1..])
  }

  /** Heartbeats change nothing of what a log means. */
  lemma {:induction false} BeatsIgnored(g: Market, log: seq<MdMsg>, symbols: set<uint32>)
    ensures Markets.Replay(g, log) == Markets.Replay(g, NoBeats(log))
    ensures AllFresh(g, log) == AllFresh(g, NoBeats(log))
    ensures Roomy(g, NoBeats(log), symbols) ==> Roomy(g, log, symbols)
    decreases |log|
  {
    hide Fitting;
    if log != [] {
      BeatsIgnored(ApplyMarket(g, log[0]), log[1..], symbols);
      if log[0].MdHeartbeat? {
        assert NoBeats(log) == NoBeats(log[1..]);
        if Roomy(g, NoBeats(log), symbols) { assert Fitting(g, symbols); }
      } else {
        assert NoBeats(log)[1..] == NoBeats(log[1..]);
      }
    }
  }

  // ----- the late joiner and the ladder -----

  /**
   After any interleaving that misreports no amend, let `log` be everything published, heartbeats included. A client
   that refused old announcements, whose snapshots were delivered whole and did not move, and whose buffer reaches to the
   end of the log, holds for each of its symbols the orders that rest in the ladder; its levels are exact if the
   ladders' totals always fit.
   */
  lemma LateJoinerHasTheLadder(symbols: set<uint32>, rules: HandlerSpec.Rules, steps: seq<Step>, log: seq<MdMsg>,
                               covered: set<uint32>, heard: seq<SnapMsg>, joined: seq<uint32>, hearings: map<uint32, Hearing>,
                               buffer: seq<Numbered>, a: nat)
    requires rules.Keys <= symbols && Possible(Start(symbols), rules, steps) && CleanSteps(Start(symbols), rules, steps)
    requires NoBeats(log) == After(Start(symbols), rules, steps).broker.log
    requires IsFeed(buffer, log, a) && a + |buffer| == |log| && OnlyNewer(heard, buffer)
    requires joined != [] && DistinctSymbols(joined) && (forall s :: s in joined ==> s in symbols) && AllDelivered(heard, joined, hearings, log)
    requires Unmoved(joined, hearings, log, TakeSnaps(Waiting(covered), heard).cursor)
    ensures var c, st := Joined(TakeSnaps(Waiting(covered), heard), joined, buffer), After(Start(symbols), rules, steps).broker;
      && (forall s :: s in joined ==> s in st.books && BookOf(c, s).orders == View(st.books[s]))
      && (SpaciousSteps(Start(symbols), rules, steps) ==> forall s :: s in joined ==> Exact(BookOf(c, s)))
  {
    hide *;
    var st := After(Start(symbols), rules, steps).broker;
    LogKeepsUp(symbols, rules, steps);
    BeatsIgnored(map[], log, symbols);
    JoinerFollows(st.books, symbols, log, covered, heard, joined, hearings, buffer, a);
    if SpaciousSteps(Start(symbols), rules, steps) {
      JoinerLevels(symbols, log, covered, heard, joined, hearings, buffer, a);
    }
  }

  /** The late joiner holds the ladders' orders, if the whole log replays to them. */
  lemma JoinerFollows(books: map<uint32, Book>, symbols: set<uint32>, log: seq<MdMsg>, covered: set<uint32>, heard: seq<SnapMsg>,
                      joined: seq<uint32>, hearings: map<uint32, Hearing>, buffer: seq<Numbered>, a: nat)
    requires AllFresh(map[], log) && books.Keys == symbols && forall s :: s in symbols ==> Of(Markets.Replay(map[], log), s) == View(books[s])
    requires IsFeed(buffer, log, a) && a + |buffer| == |log| && OnlyNewer(heard, buffer)
    requires joined != [] && DistinctSymbols(joined) && (forall s :: s in joined ==> s in symbols) && AllDelivered(heard, joined, hearings, log)
    requires Unmoved(joined, hearings, log, TakeSnaps(Waiting(covered), heard).cursor)
    ensures var c := Joined(TakeSnaps(Waiting(covered), heard), joined, buffer);
      forall s :: s in joined ==> s in books && BookOf(c, s).orders == View(books[s])
  {
    hide *;
    var w, all := TakeSnaps(Waiting(covered), heard), set i | 0 <= i < |joined| :: joined[i];
    LateJoinExact(covered, heard, joined, hearings, buffer, a, log);
    LastOfFeed(w.cursor, |log|);
    AlignedAtEnd(Joined(w, joined, buffer), log, all);
    assert forall s :: s in joined ==> s in all;
  }

  /** Its levels are exact, if the totals fit all along the log. */
  lemma JoinerLevels(symbols: set<uint32>, log: seq<MdMsg>, covered: set<uint32>, heard: seq<SnapMsg>,
                     joined: seq<uint32>, hearings: map<uint32, Hearing>, buffer: seq<Numbered>, a: nat)
    requires AllFresh(map[], log) && Roomy(map[], log, symbols)
    requires IsFeed(buffer, log, a) && a + |buffer| == |log| && OnlyNewer(heard, buffer)
    requires joined != [] && DistinctSymbols(joined) && (forall s :: s in joined ==> s in symbols) && AllDelivered(heard, joined, hearings, log)
    requires Unmoved(joined, hearings, log, TakeSnaps(Waiting(covered), heard).cursor)
    ensures var c := Joined(TakeSnaps(Waiting(covered), heard), joined, buffer); forall s :: s in joined ==> Exact(BookOf(c, s))
  {
    hide *;
    var w, all := TakeSnaps(Waiting(covered), heard), set i | 0 <= i < |joined| :: joined[i];
    RoomyFewer(map[], log, symbols, all);
    RoomyFits(log, all);
    FitsLater(log, w.cursor + 1, all);
    LateJoinExact(covered, heard, joined, hearings, buffer, a, log);
    JoinLevels(covered, heard, joined, hearings, buffer, a, |log|, log);
    LevelsOfAll(Joined(w, joined, buffer), all);
    assert forall s :: s in joined ==> s in all;
  }

  lemma FitsLater(log: seq<MdMsg>, k: nat, symbols: set<uint32>)
    requires FitsWithin(log, 0, |log|, symbols)
    ensures FitsWithin(log, k, |log|, symbols)
  {
    hide FitsAt;
  }

  lemma LastOfFeed(cursor: nat, n: nat)
    requires cursor < n
    ensures Max(cursor, n - 1) == n - 1
  {}

  lemma AlignedAtEnd(c: Client, log: seq<MdMsg>, symbols: set<uint32>)
    requires Aligned(c, log, symbols) && c.last == |log| - 1
    ensures forall s :: s in symbols ==> BookOf(c, s).orders == Of(Markets.Replay(map[], log), s)
  {
    hide Of;
    assert log[..|log|] == log;
  }

  lemma LevelsOfAll(c: Client, symbols: set<uint32>)
    requires LevelsExact(c, symbols)
    ensures forall s :: s in symbols ==> Exact(BookOf(c, s))
  {
    hide Exact;
  }

  lemma {:induction false} RoomyFewer(g: Market, log: seq<MdMsg>, symbols: set<uint32>, fewer: set<uint32>)
    requires Roomy(g, log, symbols) && fewer <= symbols
    ensures Roomy(g, log, fewer)
    decreases |log|
  {
    hide Of, Fits, Positive, ApplyMarket;
    if log != [] {
      RoomyFewer(ApplyMarket(g, log[0]), log[1..], symbols, fewer);
    }
  }
}
