/** The counters that say a snapshot is complete, and the theorem that a late joiner ends up right. */
module LateJoin {
  import opened ExchangeTypes
  import opened MarketData
  import opened Markets
  import opened SnapshotWriters
  import opened SnapshotAgreement
  import opened RecoverySpec
  import opened Recovery

  // ----- what the snapshot channel delivers -----

  /** Snapshot messages accepted one after the other. */
  function TakeSnaps(w: Wait, ms: seq<SnapMsg>): Wait {
    if ms == [] then w else TakeSnap(TakeSnaps(w, ms[..|ms| - 1]), ms[|ms| - 1])
  }

  /** How far into a packet the client reads before it refuses an announcement. */
  function Accepted(ms: seq<SnapMsg>, first: uint32): (k: nat)
    ensures k <= |ms| && (k < |ms| ==> Refuses(ms[k], first))
    ensures forall i :: 0 <= i < k ==> !Refuses(ms[i], first)
    decreases |ms|
  {
    if ms == [] || Refuses(ms[0], first) then 0 else 1 + Accepted(ms[1..], first)
  }

  lemma {:induction false} TakeSnapsConcat(w: Wait, a: seq<SnapMsg>, b: seq<SnapMsg>)
    ensures TakeSnaps(w, a + b) == TakeSnaps(TakeSnaps(w, a), b)
  {
    if b == [] {
      assert a + b == a;
    } else {
      assert (a + b)[..|a + b| - 1] == a + b[..|b| - 1];
      TakeSnapsConcat(w, a, b[..|b| - 1]);
    }
  }

  /** A packet is its messages up to the first refusal. */
  lemma {:induction false} PacketIsAccepted(w: Wait, ms: seq<SnapMsg>, first: uint32)
    ensures TakeSnapPacket(w, ms, first) == TakeSnaps(w, ms[..Accepted(ms, first)])
    decreases |ms|
  {
    hide TakeSnap, Refuses;
    if ms == [] || Refuses(ms[0], first) {
    } else {
      PacketIsAccepted(TakeSnap(w, ms[0]), ms[1..], first);
      var k := Accepted(ms[1..], first);
      assert ms[..k + 1] == [ms[0]] + ms[1..][..k];
      TakeSnapsConcat(w, [ms[0]], ms[1..][..k]);
      assert [ms[0]][..0] == [];
    }
  }

  function OrdersFor(ms: seq<SnapMsg>, s: uint32): seq<Snap> {
    if ms == [] then []
    else
      var m := ms[|ms| - 1];
      OrdersFor(ms[..|ms| - 1], s) + (if m.SnapOrder? && m.order.symbol == s then [m.order] else [])
  }

  function CountSide(v: seq<Snap>, side: Side): nat {
    if v == [] then 0 else CountSide(v[..|v| - 1], side) + (if v[|v| - 1].side == side then 1 else 0)
  }

  predicate NoInfo(ms: seq<SnapMsg>, s: uint32) {
    forall i :: 0 <= i < |ms| && ms[i].Info? ==> ms[i].symbol != s
  }

  /** The first k orders are exactly what was announced. */
  predicate Matches(v: seq<Snap>, k: nat, bids: int, asks: int)
    requires k <= |v|
  {
    CountSide(v[..k], Buy) == bids && CountSide(v[..k], Sell) == asks
  }

  /** At some moment exactly what was announced had come. */
  ghost predicate MetWithin(v: seq<Snap>, bids: int, asks: int) {
    exists k :: 1 <= k <= |v| && Matches(v, k, bids, asks)
  }

  lemma CountPush(v: seq<Snap>, e: Snap)
    ensures forall side :: CountSide(v + [e], side) == CountSide(v, side) + (if e.side == side then 1 else 0)
    ensures forall k :: 0 <= k <= |v| ==> (v + [e])[..k] == v[..k]
    ensures (v + [e])[..|v| + 1] == v + [e]
  {
    assert (v + [e])[..|v|] == v;
  }

  lemma PushFor(ms: seq<SnapMsg>, m: SnapMsg, s: uint32)
    ensures OrdersFor(ms + [m], s) == OrdersFor(ms, s) + (if m.SnapOrder? && m.order.symbol == s then [m.order] else [])
  {
    assert (ms + [m])[..|ms|] == ms;
  }

  /** Counters, buffer and flag of a symbol after its orders `v` have come. */
  ghost predicate Reckoned(w: Wait, w': Wait, v: seq<Snap>, s: uint32) {
    && Due(w'.bidsDue, s) == Due(w.bidsDue, s) - CountSide(v, Buy)
    && Due(w'.asksDue, s) == Due(w.asksDue, s) - CountSide(v, Sell)
    && Buffer(w', s) == Buffer(w, s) + v
    && (IsComplete(w', s) <==> IsComplete(w, s) || MetWithin(v, Due(w.bidsDue, s), Due(w.asksDue, s)))
  }

  /**
   Until the next announcement for a symbol, its counters are what was due less what has come, its buffer is what
   has come, and it is flagged complete exactly when at some moment the two counts were both met.
   */
  lemma {:induction false} CountersExact(w: Wait, ms: seq<SnapMsg>, s: uint32)
    requires NoInfo(ms, s)
    ensures Reckoned(w, TakeSnaps(w, ms), OrdersFor(ms, s), s)
  {
    if ms == [] {
      assert Buffer(w, s) + [] == Buffer(w, s);
    } else {
      hide Reckoned, TakeSnap;
      var t, m := ms[..|ms| - 1], ms[|ms| - 1];
      assert ms == t + [m];
      CountersExact(w, t, s);
      PushFor(t, m, s);
      ReckonedStep(w, TakeSnaps(w, t), m, OrdersFor(t, s), s);
    }
  }

  lemma ReckonedStep(w: Wait, w1: Wait, m: SnapMsg, v: seq<Snap>, s: uint32)
    requires Reckoned(w, w1, v, s) && (m.Info? ==> m.symbol != s)
    ensures Reckoned(w, TakeSnap(w1, m), v + (if m.SnapOrder? && m.order.symbol == s then [m.order] else []), s)
  {
    hide TakeSnap, CountSide, MetWithin, IsComplete, Buffer;
    CounterStep(w1, m, s);
    if m.SnapOrder? && m.order.symbol == s {
      CountPush(v, m.order);
      MetPush(v, m.order, Due(w.bidsDue, s), Due(w.asksDue, s));
      assert Buffer(w, s) + (v + [m.order]) == Buffer(w, s) + v + [m.order];
    } else {
      assert v + [] == v;
    }
  }

  lemma MetPush(v: seq<Snap>, e: Snap, bids: int, asks: int)
    ensures MetWithin(v + [e], bids, asks) <==> MetWithin(v, bids, asks) || (CountSide(v + [e], Buy) == bids && CountSide(v + [e], Sell) == asks)
  {
    hide CountSide;
    var w := v + [e];
    CountPush(v, e);
    forall k | 1 <= k <= |v| ensures Matches(w, k, bids, asks) == Matches(v, k, bids, asks) {
      assert w[..k] == v[..k];
    }
    assert Matches(w, |w|, bids, asks) <==> CountSide(w, Buy) == bids && CountSide(w, Sell) == asks;
  }

  lemma CounterStep(w: Wait, m: SnapMsg, s: uint32)
    requires m.Info? ==> m.symbol != s
    ensures var w', mine := TakeSnap(w, m), m.SnapOrder? && m.order.symbol == s;
      && Due(w'.bidsDue, s) == Due(w.bidsDue, s) - (if mine && m.order.side.Buy? then 1 else 0)
      && Due(w'.asksDue, s) == Due(w.asksDue, s) - (if mine && m.order.side.Sell? then 1 else 0)
      && Buffer(w', s) == Buffer(w, s) + (if mine then [m.order] else [])
      && (IsComplete(w', s) <==> IsComplete(w, s) || (mine && Settled(w', s)))
  {
    var mine := m.SnapOrder? && m.order.symbol == s;
    if m.SnapOrder? {
      var t := m.order.symbol;
      var w1 := Counted(w, m.order);
      assert TakeSnap(w, m) == Flagged(w1, t);
      FlagStep(w1, t, s);
      assert Buffer(w, s) + [] == Buffer(w, s);
    } else {
      var w1 := w.(cursor := m.lastSeq, bidsDue := w.bidsDue[m.symbol := m.bids], asksDue := w.asksDue[m.symbol := m.asks],
                   buffers := w.buffers[m.symbol := []]);
      assert TakeSnap(w, m) == Flagged(w1, m.symbol);
      FlagStep(w1, m.symbol, s);
      assert Buffer(w, s) + [] == Buffer(w, s);
    }
  }

  /** An order counted and buffered, before its symbol is flagged. */
  function Counted(w: Wait, e: Snap): Wait {
    var w1 := if e.side.Buy? then w.(bidsDue := w.bidsDue[e.symbol := Due(w.bidsDue, e.symbol) - 1])
              else w.(asksDue := w.asksDue[e.symbol := Due(w.asksDue, e.symbol) - 1]);
    w1.(buffers := w1.buffers[e.symbol := Buffer(w1, e.symbol) + [e]])
  }

  lemma FlagStep(w: Wait, t: uint32, s: uint32)
    ensures var w' := Flagged(w, t);
      && w'.bidsDue == w.bidsDue && w'.asksDue == w.asksDue && w'.buffers == w.buffers && w'.cursor == w.cursor
      && (IsComplete(w', s) <==> IsComplete(w, s) || (s == t && Settled(w, s)))
  {}

  // ----- a snapshot delivered whole -----

  lemma {:induction false} CountListed(b: seq<Snap>, a: seq<Snap>, k: nat)
    requires (forall i :: 0 <= i < |b| ==> b[i].side.Buy?) && (forall i :: 0 <= i < |a| ==> a[i].side.Sell?) && k <= |b + a|
    ensures CountSide((b + a)[..k], Buy) == (if k <= |b| then k else |b|)
    ensures CountSide((b + a)[..k], Sell) == (if k <= |b| then 0 else k - |b|)
  {
    if k > 0 {
      CountListed(b, a, k - 1);
      var v := b + a;
      assert v[..k] == v[..k - 1] + [v[k - 1]];
      CountPush(v[..k - 1], v[k - 1]);
      hide CountSide;
      assert v[k - 1] == if k <= |b| then b[k - 1] else a[k - 1 - |b|];
    }
  }

  /**
   Announced as so many bids and asks and coming in the order sent, a symbol is flagged complete when all its orders
   have arrived, and not before unless an earlier snapshot of it had been: the flag is never taken back.
   */
  lemma CompletesWhenAllArrived(w: Wait, b: seq<Snap>, a: seq<Snap>, s: uint32, n: uint32, ms: seq<SnapMsg>, k: nat)
    requires (forall i :: 0 <= i < |b| ==> b[i].side.Buy?) && (forall i :: 0 <= i < |a| ==> a[i].side.Sell?)
    requires NoInfo(ms, s) && k <= |b + a| && OrdersFor(ms, s) == (b + a)[..k]
    ensures var w' := TakeSnaps(TakeSnap(w, Info(s, |b|, |a|, n)), ms);
      && (IsComplete(w', s) <==> IsComplete(w, s) || k == |b + a|)
      && Buffer(w', s) == (b + a)[..k] && (Settled(w', s) <==> k == |b + a|)
  {
    var w1 := TakeSnap(w, Info(s, |b|, |a|, n));
    hide *;
    Announced(w, s, |b|, |a|, n);
    CountersExact(w1, ms, s);
    ReckonedIs(w1, TakeSnaps(w1, ms), (b + a)[..k], s);
    MetListed(b, a, k);
    CountListed(b, a, k);
    assert (b + a)[..k][..k] == (b + a)[..k];
    SettledIs(TakeSnaps(w1, ms), s);
    assert [] + (b + a)[..k] == (b + a)[..k];
  }

  lemma SettledIs(w: Wait, s: uint32)
    ensures Settled(w, s) <==> Due(w.bidsDue, s) == 0 && Due(w.asksDue, s) == 0
  {}

  lemma Announced(w: Wait, s: uint32, bids: nat, asks: nat, n: uint32)
    ensures var w1 := TakeSnap(w, Info(s, bids, asks, n));
      && Buffer(w1, s) == [] && Due(w1.bidsDue, s) == bids && Due(w1.asksDue, s) == asks
      && (IsComplete(w1, s) <==> IsComplete(w, s) || (bids == 0 && asks == 0))
  {}

  lemma ReckonedIs(w: Wait, w': Wait, v: seq<Snap>, s: uint32)
    requires Reckoned(w, w', v, s)
    ensures Buffer(w', s) == Buffer(w, s) + v
    ensures IsComplete(w', s) <==> IsComplete(w, s) || MetWithin(v, Due(w.bidsDue, s), Due(w.asksDue, s))
    ensures Due(w'.bidsDue, s) == Due(w.bidsDue, s) - CountSide(v, Buy) && Due(w'.asksDue, s) == Due(w.asksDue, s) - CountSide(v, Sell)
  {}

  lemma MetListed(b: seq<Snap>, a: seq<Snap>, k: nat)
    requires (forall i :: 0 <= i < |b| ==> b[i].side.Buy?) && (forall i :: 0 <= i < |a| ==> a[i].side.Sell?) && k <= |b + a|
    ensures MetWithin((b + a)[..k], |b|, |a|) <==> 1 <= k == |b + a|
  {
    hide CountSide;
    var v := (b + a)[..k];
    forall j | 0 <= j <= k ensures Matches(v, j, |b|, |a|) <==> j == |b + a| {
      assert v[..j] == (b + a)[..j];
      CountListed(b, a, j);
    }
    assert 1 <= k ==> (Matches(v, k, |b|, |a|) <==> k == |b + a|);
  }

  /** The writer's whole snapshot of a symbol, announced at number n, is the last thing heard about it. */
  ghost predicate Delivered(heard: seq<SnapMsg>, s: uint32, n: uint32, i: nat, b: seq<Snap>, a: seq<Snap>, log: seq<MdMsg>) {
    && i < |heard| && heard[i] == Info(s, |b|, |a|, n) && NoInfo(heard[i + 1..], s) && OrdersFor(heard[i + 1..], s) == b + a
    && n < |log| && Lists(b, Buy, s, Of(MarketAt(log, n + 1), s)) && Lists(a, Sell, s, Of(MarketAt(log, n + 1), s))
  }

  lemma DeliveredShows(w: Wait, heard: seq<SnapMsg>, s: uint32, n: uint32, i: nat, b: seq<Snap>, a: seq<Snap>, log: seq<MdMsg>)
    requires Delivered(heard, s, n, i, b, a, log)
    ensures Depicts(TakeSnaps(w, heard), s, MarketAt(log, n + 1))
  {
    var rest := heard[i + 1..];
    var w0 := TakeSnaps(w, heard[..i]);
    var w1 := TakeSnap(w0, heard[i]);
    assert Buffer(w1, s) == [];
    assert heard == heard[..i + 1] + rest && heard[..i + 1] == heard[..i] + [heard[i]];
    TakeSnapsConcat(w, heard[..i + 1], rest);
    TakeSnapsConcat(w, heard[..i], [heard[i]]);
    TakeOne(w0, heard[i]);
    hide TakeSnap, TakeSnaps;
    CountersExact(w1, rest, s);
    assert [] + (b + a) == b + a;
    BothSides(b, a, s, Of(MarketAt(log, n + 1), s));
    forall j | 0 <= j < |b + a| ensures (b + a)[j].symbol == s {
      if j < |b| { assert Right(b[j], Buy, s, Of(MarketAt(log, n + 1), s)); }
      else { assert Right(a[j - |b|], Sell, s, Of(MarketAt(log, n + 1), s)); }
    }
  }

  lemma TakeOne(w: Wait, m: SnapMsg)
    ensures TakeSnaps(w, [m]) == TakeSnap(w, m)
  {
    assert [m][..0] == [];
  }

  // ----- loading -----

  /**
   Every symbol being flagged is what ends the wait; what was heard of a symbol since its last announcement is all
   of its snapshot exactly when its two counters stand at zero.
   */
  lemma DeliveredWhenSettled(w: Wait, heard: seq<SnapMsg>, s: uint32, n: uint32, i: nat, b: seq<Snap>, a: seq<Snap>, log: seq<MdMsg>, k: nat)
    requires n < |log| && Lists(b, Buy, s, Of(MarketAt(log, n + 1), s)) && Lists(a, Sell, s, Of(MarketAt(log, n + 1), s))
    requires i < |heard| && heard[i] == Info(s, |b|, |a|, n) && NoInfo(heard[i + 1..], s)
    requires k <= |b + a| && OrdersFor(heard[i + 1..], s) == (b + a)[..k]
    ensures Delivered(heard, s, n, i, b, a, log) <==> Settled(TakeSnaps(w, heard), s)
  {
    var rest, w0 := heard[i + 1..], TakeSnaps(w, heard[..i]);
    var q := Of(MarketAt(log, n + 1), s);
    ListsSides(b, Buy, s, q);
    ListsSides(a, Sell, s, q);
    hide TakeSnap, Lists, OrdersFor, Settled, TakeSnaps, Of;
    assert heard == heard[..i + 1] + rest && heard[..i + 1] == heard[..i] + [heard[i]];
    TakeSnapsConcat(w, heard[..i + 1], rest);
    TakeSnapsConcat(w, heard[..i], [heard[i]]);
    TakeOne(w0, heard[i]);
    CompletesWhenAllArrived(w0, b, a, s, n, rest, k);
    assert (b + a)[..k] == b + a <==> k == |b + a|;
  }

  lemma ListsSides(v: seq<Snap>, side: Side, s: uint32, q: Quotes)
    requires Lists(v, side, s, q)
    ensures forall i :: 0 <= i < |v| ==> v[i].side == side
  {
    assert forall i :: 0 <= i < |v| ==> Right(v[i], side, s, q);
  }

  /** A client with its snapshots loaded and the cursor set. */
  function Started(w: Wait, symbols: seq<uint32>): Client {
    LoadAll(Client(map[], map[], w.cursor, []), w, symbols)
  }

  /** Where a client stands after its snapshots are loaded and its buffered tail is worked off. */
  function Joined(w: Wait, symbols: seq<uint32>, buffer: seq<Numbered>): Client {
    DrainBuffer(Started(w, symbols), buffer, w.cursor)
  }

  /** What the client heard of a symbol, as evidence that it was delivered whole, and under which number. */
  datatype Hearing = Hearing(at: nat, number: uint32, bids: seq<Snap>, asks: seq<Snap>)

  ghost predicate DeliveredAs(heard: seq<SnapMsg>, s: uint32, h: Hearing, log: seq<MdMsg>) {
    Delivered(heard, s, h.number, h.at, h.bids, h.asks, log)
  }

  ghost predicate AllDelivered(heard: seq<SnapMsg>, symbols: seq<uint32>, hearings: map<uint32, Hearing>, log: seq<MdMsg>) {
    forall i :: 0 <= i < |symbols| ==> symbols[i] in hearings && DeliveredAs(heard, symbols[i], hearings[symbols[i]], log)
  }

  /** The symbol's orders were no different at that number than at the cursor. */
  ghost predicate Still(s: uint32, number: uint32, log: seq<MdMsg>, cursor: uint32) {
    number < |log| && cursor < |log| && Of(MarketAt(log, number + 1), s) == Of(MarketAt(log, cursor + 1), s)
  }

  /** No symbol moved between the number its snapshot carries and the cursor. */
  ghost predicate Unmoved(symbols: seq<uint32>, hearings: map<uint32, Hearing>, log: seq<MdMsg>, cursor: uint32) {
    forall i :: 0 <= i < |symbols| ==> symbols[i] in hearings && Still(symbols[i], hearings[symbols[i]].number, log, cursor)
  }

  /** Loading snapshots delivered whole is right at the cursor exactly when no symbol moved between its own number and the cursor. */
  lemma StartExact(covered: set<uint32>, heard: seq<SnapMsg>, symbols: seq<uint32>, hearings: map<uint32, Hearing>, log: seq<MdMsg>)
    requires DistinctSymbols(symbols) && AllDelivered(heard, symbols, hearings, log)
    requires TakeSnaps(Waiting(covered), heard).cursor < |log|
    ensures var w := TakeSnaps(Waiting(covered), heard);
      Aligned(Started(w, symbols), log, set i | 0 <= i < |symbols| :: symbols[i]) <==> Unmoved(symbols, hearings, log, w.cursor)
  {
    hide TakeSnaps, DeliveredAs, Delivered, LoadAll, Depicts, MarketAt, Follows, Of;
    var w := TakeSnaps(Waiting(covered), heard);
    var at := map s | s in hearings && hearings[s].number < |log| :: MarketAt(log, hearings[s].number + 1);
    forall i | 0 <= i < |symbols| ensures symbols[i] in at && Depicts(w, symbols[i], at[symbols[i]]) {
      var h := hearings[symbols[i]];
      DeliveredNumber(heard, symbols[i], h, log);
      DeliveredShows(Waiting(covered), heard, symbols[i], h.number, h.at, h.bids, h.asks, log);
    }
    var c0 := Client(map[], map[], w.cursor, []);
    LoadExact(c0, w, symbols, at, MarketAt(log, w.cursor + 1));
    LoadLast(c0, w, symbols);
  }

  lemma DeliveredNumber(heard: seq<SnapMsg>, s: uint32, h: Hearing, log: seq<MdMsg>)
    requires DeliveredAs(heard, s, h, log)
    ensures h.number < |log| && Delivered(heard, s, h.number, h.at, h.bids, h.asks, log)
  {}

  lemma {:induction false} LoadLast(c: Client, w: Wait, symbols: seq<uint32>)
    ensures LoadAll(c, w, symbols).last == c.last && LoadAll(c, w, symbols).taken == c.taken
  {
    if symbols != [] {
      LoadLast(c, w, symbols[..|symbols| - 1]);
      LoadedLast(LoadAll(c, w, symbols[..|symbols| - 1]), Buffer(w, symbols[|symbols| - 1]));
    }
  }

  lemma {:induction false} LoadedLast(c: Client, v: seq<Snap>)
    ensures Loaded(c, v).last == c.last && Loaded(c, v).taken == c.taken
    decreases |v|
  {
    if v != [] {
      LoadedLast(c, v[..|v| - 1]);
    }
  }

  // ----- what the refusal of old announcements is for -----

  /** No announcement heard is one that would be refused with this buffer. */
  ghost predicate OnlyNewer(heard: seq<SnapMsg>, buffer: seq<Numbered>) {
    forall i :: 0 <= i < |heard| ==> !Refuses(heard[i], FirstLive(buffer))
  }

  /** Neither more snapshot messages accepted nor more live ones buffered make an accepted announcement too old. */
  lemma NewerGrows(heard: seq<SnapMsg>, ms: seq<SnapMsg>, buffer: seq<Numbered>, more: seq<Numbered>)
    requires OnlyNewer(heard, buffer)
    ensures OnlyNewer(heard, buffer + more)
    ensures OnlyNewer(heard + ms[..Accepted(ms, FirstLive(buffer))], buffer)
  {
    var taken := ms[..Accepted(ms, FirstLive(buffer))];
    forall i | 0 <= i < |heard + taken| ensures !Refuses((heard + taken)[i], FirstLive(buffer)) {
      if i >= |heard| {
        assert (heard + taken)[i] == ms[i - |heard|];
      }
    }
  }

  /** The one cursor is the number of whichever announcement was heard last. */
  lemma {:induction false} CursorIsLast(w: Wait, heard: seq<SnapMsg>, i: nat)
    requires i < |heard| && heard[i].Info? && forall j :: i < j < |heard| ==> !heard[j].Info?
    ensures TakeSnaps(w, heard).cursor == heard[i].lastSeq
  {
    var n := |heard| - 1;
    if i < n {
      CursorIsLast(w, heard[..n], i);
    }
  }

  lemma {:induction false} LastInfo(heard: seq<SnapMsg>, i: nat) returns (k: nat)
    requires i < |heard| && heard[i].Info?
    ensures k < |heard| && heard[k].Info? && forall j :: k < j < |heard| ==> !heard[j].Info?
  {
    k := |heard| - 1;
    if !heard[k].Info? {
      k := LastInfo(heard[..k], i);
    }
  }

  /** With an announcement accepted there is a live message buffered, and the cursor lies beyond the first of them. */
  lemma CursorIsNewer(w: Wait, heard: seq<SnapMsg>, i: nat, buffer: seq<Numbered>)
    requires i < |heard| && heard[i].Info? && OnlyNewer(heard, buffer)
    ensures buffer != [] && buffer[0].seqNum < TakeSnaps(w, heard).cursor
  {
    hide TakeSnaps;
    var k := LastInfo(heard, i);
    CursorIsLast(w, heard, k);
  }

  /** Without an announcement no symbol that is waited for is flagged. */
  lemma {:induction false} NothingAnnounced(covered: set<uint32>, heard: seq<SnapMsg>, s: uint32)
    requires s in covered && forall i :: 0 <= i < |heard| ==> !heard[i].Info?
    ensures var w := TakeSnaps(Waiting(covered), heard);
      Due(w.bidsDue, s) < 0 && Due(w.asksDue, s) < 0 && !IsComplete(w, s)
  {
    if heard != [] {
      hide TakeSnap;
      NothingAnnounced(covered, heard[..|heard| - 1], s);
      CounterStep(TakeSnaps(Waiting(covered), heard[..|heard| - 1]), heard[|heard| - 1], s);
    }
  }

  /** A symbol flagged while only newer announcements are accepted puts the cursor beyond the first live message. */
  lemma FlaggedIsNewer(covered: set<uint32>, heard: seq<SnapMsg>, s: uint32, buffer: seq<Numbered>)
    requires s in covered && OnlyNewer(heard, buffer) && IsComplete(TakeSnaps(Waiting(covered), heard), s)
    ensures buffer != [] && buffer[0].seqNum < TakeSnaps(Waiting(covered), heard).cursor
  {
    hide TakeSnaps, Refuses;
    if i :| 0 <= i < |heard| && heard[i].Info? {
      CursorIsNewer(Waiting(covered), heard, i, buffer);
    } else {
      NothingAnnounced(covered, heard, s);
    }
  }

  /** A buffer that starts further on is lost: no part of it is ever taken. */
  lemma {:induction false} LateBufferIsLost(c: Client, buffer: seq<Numbered>, log: seq<MdMsg>, a: nat, cursor: uint32)
    requires IsFeed(buffer, log, a) && a > c.last + 1
    ensures DrainBuffer(c, buffer, cursor) == c
    decreases |buffer|
  {
    hide IsFeed;
    if buffer != [] {
      FeedTail(buffer, log, a);
      assert Stops(c, buffer[0]) && !Takes(c, buffer[0]) by { FeedNumbers(buffer, log, a); }
      LateBufferIsLost(c, buffer[1..], log, a + 1, cursor);
    }
  }

  lemma FeedNumbers(buffer: seq<Numbered>, log: seq<MdMsg>, a: nat)
    requires IsFeed(buffer, log, a) && buffer != []
    ensures buffer[0].seqNum == a && a + |buffer| <= |log| < TWO32
  {}

  // ----- joining late -----

  /**
   Snapshots of all symbols delivered whole, none of them announced under a number the client refuses, and no symbol
   moved between the number its own carries and the cursor: then the client's books, the buffered tail worked off, are
   those of the whole log up to the last message buffered.
   */
  lemma LateJoinExact(covered: set<uint32>, heard: seq<SnapMsg>, symbols: seq<uint32>, hearings: map<uint32, Hearing>,
                      buffer: seq<Numbered>, a: nat, log: seq<MdMsg>)
    requires AllFresh(map[], log) && IsFeed(buffer, log, a) && OnlyNewer(heard, buffer)
    requires symbols != [] && DistinctSymbols(symbols) && AllDelivered(heard, symbols, hearings, log)
    requires Unmoved(symbols, hearings, log, TakeSnaps(Waiting(covered), heard).cursor)
    ensures var w := TakeSnaps(Waiting(covered), heard);
      var c := Joined(w, symbols, buffer);
      Aligned(c, log, set i | 0 <= i < |symbols| :: symbols[i]) && c.last == Max(w.cursor, a + |buffer| - 1) && a < w.cursor < |log|
  {
    hide AllFresh, TakeSnaps, AllDelivered, LoadAll, DrainBuffer, Aligned, Unmoved, OnlyNewer, IsFeed;
    var w := TakeSnaps(Waiting(covered), heard);
    var at := SomeAnnouncement(heard, symbols, hearings, log);
    CursorIsNewer(Waiting(covered), heard, at, buffer);
    FeedNumbers(buffer, log, a);
    UnmovedCursor(symbols, hearings, log, w.cursor);
    StartExact(covered, heard, symbols, hearings, log);
    LoadLast(Client(map[], map[], w.cursor, []), w, symbols);
    DrainAligned(Started(w, symbols), buffer, w.cursor, log, a, set i | 0 <= i < |symbols| :: symbols[i]);
  }

  lemma SomeAnnouncement(heard: seq<SnapMsg>, symbols: seq<uint32>, hearings: map<uint32, Hearing>, log: seq<MdMsg>) returns (i: nat)
    requires symbols != [] && AllDelivered(heard, symbols, hearings, log)
    ensures i < |heard| && heard[i].Info?
  {
    assert DeliveredAs(heard, symbols[0], hearings[symbols[0]], log);
    i := hearings[symbols[0]].at;
  }

  lemma UnmovedCursor(symbols: seq<uint32>, hearings: map<uint32, Hearing>, log: seq<MdMsg>, cursor: uint32)
    requires symbols != [] && Unmoved(symbols, hearings, log, cursor)
    ensures cursor < |log|
  {
    assert Still(symbols[0], hearings[symbols[0]].number, log, cursor);
  }

  /** When all announcements heard carry one number, that is the cursor and no symbol has moved. */
  lemma OneNumberUnmoved(w: Wait, heard: seq<SnapMsg>, symbols: seq<uint32>, hearings: map<uint32, Hearing>, log: seq<MdMsg>, n: uint32)
    requires symbols != [] && AllDelivered(heard, symbols, hearings, log)
    requires forall i :: 0 <= i < |heard| && heard[i].Info? ==> heard[i].lastSeq == n
    ensures TakeSnaps(w, heard).cursor == n && Unmoved(symbols, hearings, log, n)
  {
    hide TakeSnaps, Of, MarketAt;
    var i := SomeAnnouncement(heard, symbols, hearings, log);
    var k := LastInfo(heard, i);
    CursorIsLast(w, heard, k);
    forall j | 0 <= j < |symbols| ensures Still(symbols[j], hearings[symbols[j]].number, log, n) {
      var h := hearings[symbols[j]];
      DeliveredNumber(heard, symbols[j], h, log);
      assert heard[h.at].lastSeq == h.number;
    }
  }
}
