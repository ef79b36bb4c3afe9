/** What a client is told about one order: at most one closing message, and nothing after it. */
module Forwarding {
  import opened ExchangeTypes
  import opened BrokerSpec
  import opened Lifecycle
  import HandlerSpec

  /** A closing fill or a close. */
  predicate Ends(m: HandlerSpec.Message) {
    m.Closed? || (m.Fill? && HandlerSpec.IsClosed(m.flags))
  }

  /** Rejects carry no exchange order; everything else is about the order `id`. */
  predicate About(e: HandlerSpec.Sent, id: uint64) {
    e.id == id && !e.message.Rejected?
  }

  /** Once an order's end has been sent nothing about that order follows. */
  ghost predicate EndsLast(sent: seq<HandlerSpec.Sent>) {
    forall i, j :: 0 <= i < j < |sent| && Ends(sent[i].message) ==> !About(sent[j], sent[i].id)
  }

  /** Orders written about were issued, and are no longer known once their end was sent. */
  ghost predicate Told(sent: seq<HandlerSpec.Sent>, known: set<uint64>, issued: set<uint64>) {
    forall i :: 0 <= i < |sent| && !sent[i].message.Rejected? ==>
      sent[i].id in issued && (Ends(sent[i].message) ==> sent[i].id !in known)
  }

  ghost predicate Orderly(s: System) {
    EndsLast(s.handler.sent) && Told(s.handler.sent, s.handler.known.Keys, s.issued.Keys)
  }

  /** Writing adds nothing or the one message. */
  lemma WriteSends(h: Handler, client: uint32, id: uint64, message: HandlerSpec.Message, fails: bool, keys: seq<uint64>)
    requires HandlerSpec.CanWrite(h, client, fails, keys)
    ensures var sent := HandlerSpec.Write(h, client, id, message, fails, keys).sent;
      sent == h.sent || exists sock :: sent == h.sent + [HandlerSpec.Sent(sock, id, message)]
  {
    if client in h.socks && fails {
      ClosingSendsNothing(h, h.socks[client], keys);
    } else if client in h.socks {
      assert HandlerSpec.Write(h, client, id, message, fails, keys).sent in {h.sent, h.sent + [HandlerSpec.Sent(h.socks[client], id, message)]};
    }
  }

  /** Nothing more, or one message about the response's order, a closing one only if the response closes. */
  ghost predicate AtMostOneMore(sent: seq<HandlerSpec.Sent>, sent': seq<HandlerSpec.Sent>, p: Payload, known: set<uint64>) {
    || sent' == sent
    || (&& |sent'| == |sent| + 1 && sent' == sent + [sent'[|sent|]] && sent'[|sent|].id == p.id
        && (!sent'[|sent|].message.Rejected? ==> p.id in known)
        && (Ends(sent'[|sent|].message) ==> HandlerSpec.Terminal(p)))
  }

  lemma HandleSends(h: Handler, p: Payload, fails: bool, keys: seq<uint64>)
    requires HandlerSpec.CanHandle(h, p, fails, keys)
    ensures AtMostOneMore(h.sent, Written(h, p, fails, keys).sent, p, h.known.Keys)
  {
    hide HandlerSpec.Write, HandlerSpec.CanWrite;
    if p.kind.RejectKind? {
      WriteSends(h, p.client, p.id, Worded(h, p), fails, keys);
    } else if p.id in h.known && p.kind in {AckKind, FillKind, CloseKind} {
      WriteSends(h, h.known[p.id].client, p.id, Worded(h, p), fails, keys);
    }
  }

  lemma ToldPush(sent: seq<HandlerSpec.Sent>, e: HandlerSpec.Sent, known: set<uint64>, issued: set<uint64>, known': set<uint64>)
    requires EndsLast(sent) && Told(sent, known, issued) && known' <= known <= issued
    requires !e.message.Rejected? ==> e.id in known
    requires Ends(e.message) ==> e.id !in known'
    ensures EndsLast(sent + [e]) && Told(sent + [e], known', issued)
  {
    var r := sent + [e];
    assert forall i :: 0 <= i < |sent| ==> r[i] == sent[i];
  }

  lemma OrderlyStays(s: System, rules: HandlerSpec.Rules, step: Step)
    requires Inv(s) && Orderly(s) && Enabled(s, step)
    ensures Orderly(Next(s, rules, step))
  {
    hide Inv, Enabled, Next, Accepts, Quiet, OneSession, BrokerApply, EndsLast;
    var s' := Next(s, rules, step);
    KnownIssued(s);
    if step.EngineStep? {
      EngineTellsNothing(s, rules);
    } else if step.HandlerStep? {
      EnabledHandler(s, step.fails, step.keys);
      HandledNext(s, rules, step.fails, step.keys);
      var h, p := s.handler, s.broker.toClient[0];
      var h1 := Written(h, p, step.fails, step.keys);
      WrittenIsQuiet(h, p, step.fails, step.keys);
      QuietKnown(h, h1);
      HandleSends(h, p, step.fails, step.keys);
      ForgetsWhen(h, p);
      if Forgets(h, p) {
        ForgetChanges(h1, h.known[p.id], p.id);
      }
      hide Told, HandlerSpec.Terminal, Forgets, Ends, AtMostOneMore;
      HandledOrderly(s, s'.handler.known.Keys, h1.sent, p);
    } else if step.ClientNew? && Accepts(s, rules, step) {
      Accepted(s, rules, step);
      EnabledNew(s, step);
    } else {
      if !step.ClientNew? {
        NotAccepted(s, rules, step);
      }
      ClientStepIsQuiet(s, rules, step);
      QuietKnown(s.handler, s'.handler);
    }
  }

  lemma HandledOrderly(s: System, known': set<uint64>, sent': seq<HandlerSpec.Sent>, p: Payload)
    requires Orderly(s) && known' <= s.handler.known.Keys <= s.issued.Keys
    requires HandlerSpec.Terminal(p) ==> p.id !in known'
    requires AtMostOneMore(s.handler.sent, sent', p, s.handler.known.Keys)
    ensures EndsLast(sent') && Told(sent', known', s.issued.Keys)
  {
    hide EndsLast, HandlerSpec.Terminal;
    if sent' != s.handler.sent {
      ToldPush(s.handler.sent, sent'[|s.handler.sent|], s.handler.known.Keys, s.issued.Keys, known');
    }
  }

  lemma KnownIssued(s: System)
    requires Inv(s)
    ensures s.handler.known.Keys <= s.issued.Keys
  {}

  lemma EngineTellsNothing(s: System, rules: HandlerSpec.Rules)
    requires Enabled(s, EngineStep)
    ensures var s' := Next(s, rules, EngineStep);
      s'.handler.sent == s.handler.sent && s'.handler.known == s.handler.known && s'.issued == s.issued
  {}

  lemma {:induction false} RunIsOrderly(s: System, rules: HandlerSpec.Rules, steps: seq<Step>)
    requires Inv(s) && Orderly(s) && rules.Keys <= s.broker.books.Keys && Possible(s, rules, steps)
    ensures Orderly(After(s, rules, steps))
    decreases |steps|
  {
    hide Inv, Enabled, Next, Orderly;
    if steps != [] {
      InvStays(s, rules, steps[0]);
      OrderlyStays(s, rules, steps[0]);
      RunIsOrderly(Next(s, rules, steps[0]), rules, steps[1..]);
    }
  }

  /** In every interleaving each exchange order leads to at most one closing message to a client, and no ack, fill or close after it. */
  lemma OneEnding(symbols: set<uint32>, rules: HandlerSpec.Rules, steps: seq<Step>, i: nat, j: nat)
    requires rules.Keys <= symbols && Possible(Start(symbols), rules, steps)
    requires i < j < |After(Start(symbols), rules, steps).handler.sent|
    requires Ends(After(Start(symbols), rules, steps).handler.sent[i].message)
    ensures var sent := After(Start(symbols), rules, steps).handler.sent; !About(sent[j], sent[i].id)
  {
    hide Inv, Enabled, Next, Possible, After;
    StartInv(symbols);
    RunIsOrderly(Start(symbols), rules, steps);
  }
}
