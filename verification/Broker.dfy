/** The matching engine broker as the program has it: an object owning one ladder per symbol and draining a queue. */
module Brokers {
  import opened ExchangeTypes
  import opened BookSpec
  import opened BookTheorems
  import opened MarketData
  import opened Replication
  import opened BrokerSpec
  import opened Clearing
  import opened OrderLadders

  lemma {:induction false} ResponsesConcat(c: Context, a: seq<Event>, b: seq<Event>)
    requires AllAttributable(c.owners, a) && AllAttributable(c.owners, b)
    ensures AllAttributable(c.owners, a + b)
    ensures Responses(c, a + b) == Responses(c, a) + Responses(c, b)
  {
    if a == [] {
      assert a + b == b;
    } else {
      assert (a + b)[1..] == a[1..] + b;
      ResponsesConcat(c, a[1..], b);
    }
  }

  /** The first callback that cannot name its client is where the others stop. */
  lemma {:induction false} CompletedIs(owners: Owners, events: seq<Event>, n: nat)
    requires n <= |events| && AllAttributable(owners, events[..n])
    requires n < |events| ==> !Attributable(owners, events[n])
    ensures Completed(owners, events) == n
  {
    if n > 0 {
      var rest := events[1..][..n - 1];
      assert forall i {:trigger rest[i]} :: 0 <= i < n - 1 ==> rest[i] == events[..n][i + 1];
      assert events[..n][0] == events[0];
      CompletedIs(owners, events[1..], n - 1);
    }
  }

  /** How much of a queue is served before a request throws. */
  datatype Served = Served(st: BrokerState, outcome: BrokerOutcome, done: nat)

  function ServeAll(st: BrokerState, ps: seq<Payload>): (r: Served)
    ensures r.done <= |ps| && (r.outcome == Processed <==> r.done == |ps|)
    decreases |ps|
  {
    if ps == [] then Served(st, Processed, 0)
    else
      var (st', outcome) := BrokerApply(st, ps[0]);
      if outcome != Processed then Served(st', outcome, 0)
      else var r := ServeAll(st', ps[1..]); r.(done := r.done + 1)
  }

  /** The broker once the callbacks of a request's ladder operation have been dispatched. */
  function Reported(st: BrokerState, p: Payload): BrokerState
    requires p.kind in {NewOrderKind, DeleteOrderKind, ModifyOrderKind} && p.symbol in st.books
  {
    var r := Apply(st.books[p.symbol], RequestOf(p));
    var owners := if p.kind.NewOrderKind? then st.owners[Low32(p.id) := p.client] else st.owners;
    var aggressor := if p.kind.DeleteOrderKind? then st.aggressor else p.side;
    Dispatched(st.(books := st.books[p.symbol := r.book], owners := owners, aggressor := aggressor),
               Context(owners, p.symbol, p.clientSeq, p.client), r.events)
  }

  /** What follows the callbacks: an exception, or the held-back trades. */
  lemma Assembled(st: BrokerState, p: Payload)
    requires p.kind in {NewOrderKind, DeleteOrderKind, ModifyOrderKind} && p.symbol in st.books
    ensures var r, st' := Apply(st.books[p.symbol], RequestOf(p)), Reported(st, p);
      BrokerApply(st, p) ==
        if Completed(st'.owners, r.events) < |r.events| then (st', UnknownOwner)
        else if r.outcome != Done then (st', LadderThrew(r.outcome))
        else (QueuedAreTrades(r.events); (st'.(log := st'.log + WithSummary(p.symbol, st'.aggressor, QueuedTrades(r.events))), Processed))
  {
    hide Apply, Low32, Responses, Immediate, Cleared, QueuedTrades, WithSummary, RequestOf;
  }

  lemma AllTrades(events: seq<Event>)
    ensures events[..|events|] == events
    ensures forall i :: 0 <= i < |QueuedTrades(events)| ==> QueuedTrades(events)[i].MdTrade?
  {
    QueuedAreTrades(events);
  }

  class MatchingEngineBroker {
    var toClient: seq<Payload>
    var fromClient: seq<Payload>
    /** What the publisher has sent, and the trades it still holds back. */
    var log: seq<MdMsg>
    var queuedTrades: seq<MdMsg>
    var fills: seq<ClearingFill>
    var ladders: map<uint32, OrderLadder>
    var owners: Owners
    var clientSeq: uint32
    var client: uint32
    var aggressor: Side
    ghost var Repr: set<object>

    /** Every ladder is consistent and shares nothing with another or with the broker. */
    ghost predicate Valid()
      reads this`ladders, this`Repr, Repr - {this}
      ensures Valid() ==> this in Repr
    {
      && this in Repr
      && (forall s :: s in ladders ==> ladders[s] in Repr && ladders[s].Repr <= Repr && this !in ladders[s].Repr && ladders[s].Valid())
      && (forall s, t :: s in ladders && t in ladders && s != t ==> ladders[s].Repr !! ladders[t].Repr)
    }

    ghost function Books(): map<uint32, Book>
      reads this`ladders, this`Repr, Repr - {this}
      requires Valid()
    {
      map s | s in ladders :: ladders[s].Contents()
    }

    ghost function State(): BrokerState
      reads this, Repr
      requires Valid()
    {
      BrokerState(Books(), owners, aggressor, toClient, log, fills)
    }

    constructor ()
      ensures Valid() && fresh(Repr) && fromClient == [] && queuedTrades == []
      ensures State() == BrokerState(map[], map[], Buy, [], [], [])
    {
      toClient, fromClient, log, queuedTrades, fills := [], [], [], [], [];
      ladders, owners := map[], map[];
      clientSeq, client, aggressor := 0, 0, Buy;
      Repr := {this};
    }

    method AddSymbol(symbol: uint32)
      requires Valid() && symbol !in ladders
      modifies this`ladders, this`Repr
      ensures Valid() && fresh(Repr - old(Repr))
      ensures State() == old(State()).(books := old(State()).books[symbol := Book([], [])])
    {
      hide OrderLadder.Valid, OrderLadder.Contents;
      var ladder := new OrderLadder(symbol);
      ladders := ladders[symbol := ladder];
      Repr := Repr + ladder.Repr + {ladder};
      Added(symbol);
    }

    twostate lemma Added(symbol: uint32)
      requires old(Valid()) && symbol !in old(ladders) && symbol in ladders && ladders == old(ladders)[symbol := ladders[symbol]]
      requires ladders[symbol].Valid() && fresh(ladders[symbol].Repr) && this !in ladders[symbol].Repr
      requires forall o: object :: o in old(Repr) && o != this ==> unchanged(o)
      requires Repr == old(Repr) + ladders[symbol].Repr + {ladders[symbol]}
      ensures Valid() && Books() == old(Books())[symbol := ladders[symbol].Contents()]
    {
      hide OrderLadder.Valid;
      forall s | s in old(ladders)
        ensures ladders[s].Valid() && ladders[s].Repr == old(ladders[s].Repr) && ladders[s].Contents() == old(ladders[s].Contents())
      {
        LadderKept(ladders[s]);
      }
    }

    // ----- the ladder's callbacks -----

    ghost function Serving(symbol: uint32): Context
      reads this`owners, this`clientSeq, this`client
    {
      Context(owners, symbol, clientSeq, client)
    }

    /** One callback: what it sends to the client, publishes, holds back and clears; it throws when no owner is found. */
    method Callback(symbol: uint32, e: Event) returns (threw: bool)
      modifies this`toClient, this`log, this`queuedTrades, this`fills
      ensures threw <==> !Attributable(owners, e)
      ensures threw ==> unchanged(this)
      ensures !threw ==>
        && toClient == old(toClient) + Responses(Serving(symbol), [e])
        && log == old(log) + Immediate(symbol, [e])
        && queuedTrades == old(queuedTrades) + QueuedTrades([e])
        && fills == old(fills) + Cleared(Serving(symbol), [e])
    {
      assert [e][1..] == [];
      threw := false;
      match e
      case OnNewOrder(id, side, quantity, price, flags) =>
        if quantity > 0 {
          log := log + [MdNew(id, symbol, side, quantity, price, flags)];
        }
        toClient := toClient + [Payload(AckKind, id, symbol, clientSeq, client, side, quantity, price, flags)];
      case OnModifyOrder(id, side, quantity, price) =>
        log := log + [MdModify(id, side, quantity, price)];
        toClient := toClient + [Payload(AckKind, id, symbol, clientSeq, client, side, quantity, price, 0)];
      case OnDeleteOrder(id, publish) =>
        if publish {
          log := log + [MdDelete(id)];
        }
        toClient := toClient + [Payload(CloseKind, id, 0, clientSeq, client, Buy, 0, 0, 0)];
      case OnCancelReject(id) =>
        toClient := toClient + [Payload(RejectKind, id, 0, clientSeq, client, Buy, 0, 0, 0)];
      case OnTrade(id, quantity, price) =>
        queuedTrades := queuedTrades + [MdTrade(id, quantity, price)];
      case OnFill(id, side, quantity, price, closed, active) =>
        var sentSeq, fillClient := if active then clientSeq else 0, client;
        if !active {
          if Low32(id) !in owners {
            return true;
          }
          fillClient := owners[Low32(id)];
        }
        toClient := toClient + [Payload(FillKind, id, symbol, sentSeq, fillClient, side, quantity, price, if closed then CLOSED else PARTIAL_FILL)];
        fills := fills + [ClearingFill(fillClient, symbol, quantity, price, side)];
    }

    /** The callbacks of one ladder operation, in the order it made them. */
    method Dispatch(symbol: uint32, events: seq<Event>) returns (threw: bool)
      requires queuedTrades == []
      modifies this`toClient, this`log, this`queuedTrades, this`fills
      ensures var done := events[..Completed(owners, events)];
        && toClient == old(toClient) + Responses(Serving(symbol), done)
        && log == old(log) + Immediate(symbol, done)
        && queuedTrades == QueuedTrades(done)
        && fills == old(fills) + Cleared(Serving(symbol), done)
        && (threw <==> Completed(owners, events) < |events|)
    {
      hide Responses, Immediate, QueuedTrades, Cleared, Attributable;
      threw := false;
      var n := 0;
      Nothing(symbol);
      while n < |events|
        invariant 0 <= n <= |events| && AllAttributable(owners, events[..n])
        invariant toClient == old(toClient) + Responses(Serving(symbol), events[..n])
        invariant log == old(log) + Immediate(symbol, events[..n])
        invariant queuedTrades == QueuedTrades(events[..n])
        invariant fills == old(fills) + Cleared(Serving(symbol), events[..n])
      {
        threw := Callback(symbol, events[n]);
        if threw {
          CompletedIs(owners, events, n);
          return;
        }
        ghost var c, a, b := Serving(symbol), events[..n], [events[n]];
        assert events[..n + 1] == a + b;
        ResponsesConcat(c, a, b);
        ImmediateConcat(symbol, a, b);
        QueuedConcat(a, b);
        ClearedConcat(c, a, b);
        n := n + 1;
      }
      CompletedIs(owners, events, n);
    }

    lemma Nothing(symbol: uint32)
      ensures Responses(Serving(symbol), []) == [] && Immediate(symbol, []) == [] && QueuedTrades([]) == []
      ensures Cleared(Serving(symbol), []) == []
    {}

    /** The held-back trades go out behind a summary of their total and last price. */
    method FinishedPacket(symbol: uint32)
      requires forall i :: 0 <= i < |queuedTrades| ==> queuedTrades[i].MdTrade?
      modifies this`log, this`queuedTrades
      ensures log == old(log) + WithSummary(symbol, aggressor, old(queuedTrades)) && queuedTrades == []
    {
      var ms := Summarise(symbol, aggressor, queuedTrades);
      log := log + ms;
      queuedTrades := [];
    }

    // ----- the loop -----

    /** Every ladder but one is untouched by an operation on that one. */
    twostate lemma OthersKept(symbol: uint32)
      requires old(Valid()) && symbol in old(ladders) && ladders == old(ladders)
      requires ladders[symbol].Valid() && fresh(ladders[symbol].Repr - old(ladders[symbol].Repr))
      requires forall o: object :: o in old(Repr) && o !in old(ladders[symbol].Repr) && o != this ==> unchanged(o)
      requires Repr == old(Repr) + ladders[symbol].Repr
      ensures Valid() && Books() == old(Books())[symbol := ladders[symbol].Contents()]
    {
      hide OrderLadder.Valid;
      forall s | s in ladders && s != symbol
        ensures ladders[s].Valid() && ladders[s].Repr == old(ladders[s].Repr) && ladders[s].Contents() == old(ladders[s].Contents())
      {
        LadderKept(ladders[s]);
      }
    }

    /** One operation of a ladder, leaving what it reported in `calls`. */
    method Operate(symbol: uint32, req: Request) returns (events: seq<Event>, outcome: Outcome)
      requires Valid() && symbol in ladders
      modifies Repr
      ensures Valid() && fresh(Repr - old(Repr))
      ensures var r := Apply(old(ladders[symbol].Contents()), req);
        Books() == old(Books())[symbol := r.book] && events == r.events && outcome == r.outcome
      ensures ladders == old(ladders) && unchanged(`toClient, `fromClient, `log, `queuedTrades, `fills, `owners, `clientSeq, `client, `aggressor)
    {
      hide OrderLadder.Valid, BookSpec.NewOrder, BookSpec.DeleteOrder, BookSpec.ModifyOrder;
      var ladder := ladders[symbol];
      var before := |ladder.calls|;
      outcome := Done;
      match req {
        case New(id, side, quantity, price, flags) => outcome := ladder.NewOrder(id, side, quantity, price, flags);
        case Delete(id) =>
          DeleteOutcome(ladder.Contents(), id);
          ladder.DeleteOrder(id);
        case Modify(id, side, quantity, price) => outcome := ladder.ModifyOrder(id, side, quantity, price);
      }
      events := ladder.calls[before..];
      Repr := Repr + ladder.Repr;
      OthersKept(symbol);
    }

    lemma ValidMeans(symbol: uint32)
      requires Valid()
      ensures this in Repr && (symbol in Books() <==> symbol in ladders)
      ensures symbol in ladders ==> Books()[symbol] == ladders[symbol].Contents()
    {
      hide OrderLadder.Valid, OrderLadder.Contents;
    }

    /** The ladder operation of a request and its callbacks. */
    method Report(p: Payload) returns (events: seq<Event>, threw: bool, thrown: Outcome)
      requires Valid() && queuedTrades == [] && clientSeq == p.clientSeq && client == p.client
      requires p.kind in {NewOrderKind, DeleteOrderKind, ModifyOrderKind} && p.symbol in Books()
      modifies Repr
      ensures Valid() && fresh(Repr - old(Repr)) && fromClient == old(fromClient)
      ensures State() == Reported(old(State()), p)
      ensures var r := Apply(old(Books())[p.symbol], RequestOf(p)); events == r.events && thrown == r.outcome
      ensures threw <==> Completed(owners, events) < |events|
      ensures !threw ==> queuedTrades == QueuedTrades(events)
    {
      hide OrderLadder.Valid, MatchingEngineBroker.Valid, MatchingEngineBroker.Books, Apply, Low32, Completed, Responses, Immediate, Cleared,
        QueuedTrades, AllAttributable, OrderLadder.Contents, RequestOf;
      ValidMeans(p.symbol);
      if p.kind.NewOrderKind? {
        owners := owners[Low32(p.id) := p.client];
      }
      if p.kind != DeleteOrderKind {
        aggressor := p.side;
      }
      events, thrown := Operate(p.symbol, RequestOf(p));
      threw := Dispatch(p.symbol, events);
      WholeSeq(events);
    }

    lemma WholeSeq(events: seq<Event>)
      ensures events[..|events|] == events
    {}

    /** A request for a ladder that exists. */
    method ServeOrder(p: Payload) returns (outcome: BrokerOutcome)
      requires Valid() && queuedTrades == [] && clientSeq == p.clientSeq && client == p.client
      requires p.kind in {NewOrderKind, DeleteOrderKind, ModifyOrderKind} && p.symbol in Books()
      modifies Repr
      ensures Valid() && fresh(Repr - old(Repr)) && fromClient == old(fromClient)
      ensures (State(), outcome) == BrokerApply(old(State()), p)
      ensures outcome == Processed ==> queuedTrades == []
    {
      hide OrderLadder.Valid, MatchingEngineBroker.Valid, MatchingEngineBroker.Books, Apply, Completed, QueuedTrades, WithSummary, BrokerApply, Reported;
      ValidMeans(p.symbol);
      Assembled(State(), p);
      var events, threw, thrown := Report(p);
      if threw {
        return UnknownOwner;
      }
      if thrown != Done {
        return LadderThrew(thrown);
      }
      AllTrades(events);
      ValidMeans(p.symbol);
      FinishedPacket(p.symbol);
      return Processed;
    }

    /** One turn of the loop: a request processed or an exception. */
    method Serve(p: Payload) returns (outcome: BrokerOutcome)
      requires Valid() && queuedTrades == []
      modifies Repr
      ensures Valid() && fresh(Repr - old(Repr)) && fromClient == old(fromClient)
      ensures (State(), outcome) == BrokerApply(old(State()), p)
      ensures outcome == Processed ==> queuedTrades == []
    {
      hide OrderLadder.Valid, MatchingEngineBroker.Valid, MatchingEngineBroker.Books, Apply, Dispatched, Completed, OrderLadder.Contents;
      ValidMeans(p.symbol);
      clientSeq, client := p.clientSeq, p.client;
      if p.kind.RejectKind? {
        toClient := toClient + [p];
        return Processed;
      }
      if p.kind !in {NewOrderKind, DeleteOrderKind, ModifyOrderKind} {
        return InvalidKind;
      }
      if p.symbol !in ladders {
        return InvalidSymbol;
      }
      outcome := ServeOrder(p);
    }

    /** Heartbeat if one is due, then serve the queue; an exception leaves the request it came from at the front. */
    method Process(heartbeatDue: bool) returns (outcome: BrokerOutcome)
      requires Valid() && queuedTrades == []
      modifies Repr
      ensures Valid() && fresh(Repr - old(Repr))
      ensures var start := old(State());
        var r := ServeAll(start.(log := start.log + if heartbeatDue then [MdHeartbeat] else []), old(fromClient));
        State() == r.st && outcome == r.outcome && fromClient == old(fromClient)[r.done..]
      ensures outcome == Processed ==> queuedTrades == []
    {
      hide MatchingEngineBroker.Valid, ServeAll, BrokerApply;
      ghost var queue, before := fromClient, State();
      if heartbeatDue {
        log := log + [MdHeartbeat];
      }
      ghost var start := State();
      assert start == before.(log := before.log + if heartbeatDue then [MdHeartbeat] else []);
      ghost var n := 0;
      outcome := Processed;
      ServeNone(start);
      while fromClient != []
        invariant Valid() && fresh(Repr - old(Repr)) && queuedTrades == [] && outcome == Processed
        invariant 0 <= n <= |queue| && fromClient == queue[n..]
        invariant ServeAll(start, queue[..n]) == Served(State(), Processed, n)
        decreases |fromClient|
      {
        ghost var served, rest, st := queue[..n], queue[n..], State();
        var p := fromClient[0];
        outcome := Serve(p);
        ServeStep(st, rest);
        ServeStep(st, [p]);
        ServeMore(start, served, rest);
        ServeMore(start, served, [p]);
        assert served + rest == queue && queue[..n + 1] == served + [p];
        if outcome != Processed {
          return;
        }
        ServeNone(State());
        fromClient := fromClient[1..];
        n := n + 1;
      }
      assert queue[..n] == queue;
    }
  }

  lemma ServeNone(st: BrokerState)
    ensures ServeAll(st, []) == Served(st, Processed, 0)
  {}

  lemma ServeStep(st: BrokerState, ps: seq<Payload>)
    requires ps != []
    ensures var (st', outcome) := BrokerApply(st, ps[0]);
      ServeAll(st, ps) == if outcome != Processed then Served(st', outcome, 0)
                          else var r := ServeAll(st', ps[1..]); r.(done := r.done + 1)
  {}

  /** A queue served in two parts. */
  lemma {:induction false} ServeMore(st: BrokerState, a: seq<Payload>, b: seq<Payload>)
    requires ServeAll(st, a).outcome == Processed
    ensures var mid := ServeAll(st, a).st; var r := ServeAll(mid, b);
      ServeAll(st, a + b) == r.(done := |a| + r.done)
    decreases |a|
  {
    hide BrokerApply;
    if a == [] {
      assert a + b == b;
    } else {
      assert (a + b)[1..] == a[1..] + b;
      ServeMore(BrokerApply(st, a[0]).0, a[1..], b);
    }
  }

  twostate lemma LadderKept(ladder: OrderLadder)
    requires old(ladder.Valid()) && forall o: object :: o in old(ladder.Repr) ==> unchanged(o)
    ensures ladder.Valid() && ladder.Repr == old(ladder.Repr) && ladder.Contents() == old(ladder.Contents())
  {}
}
