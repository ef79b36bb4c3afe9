/** What the writer sends is what a late joiner needs, and two ways in which a joiner still goes wrong. */
module RecoveryGaps {
  import opened ExchangeTypes
  import opened MarketData
  import opened Markets
  import opened OrderBooks
  import opened SnapshotWriters
  import opened SnapshotAgreement
  import opened RecoverySpec
  import opened Recovery
  import opened LateJoin

  // ----- the writer's side -----

  /** Trade summaries are not passed on to the writer; they change no order. */
  lemma {:induction false} SummariesChangeNothing(g: Market, log: seq<MdMsg>)
    requires forall i :: 0 <= i < |log| ==> log[i].MdSummary?
    ensures Replay(g, log) == g
    decreases |log|
  {
    if log != [] {
      SummariesChangeNothing(ApplyMarket(g, log[0]), log[1..]);
    }
  }

  lemma OrdersPush(v: seq<Snap>, e: Snap)
    ensures Orders(v + [e]) == Orders(v) + [SnapOrder(e)]
  {}

  lemma {:induction false} OrdersForAll(pre: seq<SnapMsg>, v: seq<Snap>, s: uint32)
    requires forall i :: 0 <= i < |v| ==> v[i].symbol == s
    ensures OrdersFor(pre + Orders(v), s) == OrdersFor(pre, s) + v
  {
    hide OrdersFor;
    if v == [] {
      assert pre + Orders(v) == pre && OrdersFor(pre, s) + v == OrdersFor(pre, s);
    } else {
      var t, e := v[..|v| - 1], v[|v| - 1];
      assert v == t + [e];
      OrdersForAll(pre, t, s);
      OrdersPush(t, e);
      hide Orders;
      Associative(pre, Orders(t), [SnapOrder(e)]);
      PushFor(pre + Orders(t), SnapOrder(e), s);
      Associative(OrdersFor(pre, s), t, [e]);
    }
  }

  /**
   The writer has worked off the log up to and including number n and whatever summaries follow. Then the snapshot
   it sends of a symbol is one that, heard whole, delivers that symbol as of number n.
   */
  lemma WriterDelivers(writer: SnapshotWriter, s: uint32, log: seq<MdMsg>, n: uint32, m: nat)
    requires writer.Valid() && s in writer.bids && s in writer.asks && n < m <= |log| && writer.market == MarketAt(log, m)
    requires forall i :: n < i < m ==> log[i].MdSummary?
    ensures Delivered(SnapshotOf(s, writer.bids[s], writer.asks[s], n), s, n, 0, writer.bids[s], writer.asks[s], log)
  {
    var b, a := writer.bids[s], writer.asks[s];
    assert log[..m] == log[..n + 1] + log[n + 1..m];
    Markets.ReplayConcat(map[], log[..n + 1], log[n + 1..m]);
    SummariesChangeNothing(MarketAt(log, n + 1), log[n + 1..m]);
    var q := Of(writer.market, s);
    assert Lists(b, Buy, s, q) && Lists(a, Sell, s, q);
    hide Lists, Of, Replay, SnapshotWriter.Valid;
    SentInOrder(b, a, s, n, q);
  }

  /** The message that announces a snapshot is followed by its orders, bids first. */
  lemma SentInOrder(b: seq<Snap>, a: seq<Snap>, s: uint32, n: uint32, q: Quotes)
    requires Lists(b, Buy, s, q) && Lists(a, Sell, s, q)
    ensures var ms := SnapshotOf(s, b, a, n); ms[0] == Info(s, |b|, |a|, n) && NoInfo(ms[1..], s) && OrdersFor(ms[1..], s) == b + a
  {
    ListsSymbols(b, Buy, s, q);
    ListsSymbols(a, Sell, s, q);
    hide Lists, Of, OrdersFor;
    var ms := SnapshotOf(s, b, a, n);
    assert ms[1..] == Orders(b) + Orders(a) && NoInfo(ms[1..], s);
    hide Orders;
    NoOrders(b, s);
    OrdersForAll([], b, s);
    OrdersForAll(Orders(b), a, s);
  }

  lemma NoOrders(v: seq<Snap>, s: uint32)
    ensures OrdersFor([], s) + v == v && [] + Orders(v) == Orders(v)
  {}

  lemma ListsSymbols(v: seq<Snap>, side: Side, s: uint32, q: Quotes)
    requires Lists(v, side, s, q)
    ensures forall i :: 0 <= i < |v| ==> v[i].symbol == s
  {
    assert forall i :: 0 <= i < |v| ==> Right(v[i], side, s, q);
  }

  lemma {:induction false} OrdersForOther(pre: seq<SnapMsg>, ms: seq<SnapMsg>, s: uint32)
    requires forall i :: 0 <= i < |ms| && ms[i].SnapOrder? ==> ms[i].order.symbol != s
    ensures OrdersFor(pre + ms, s) == OrdersFor(pre, s)
  {
    if ms == [] {
      assert pre + ms == pre;
    } else {
      var t, m := ms[..|ms| - 1], ms[|ms| - 1];
      assert ms == t + [m];
      OrdersForOther(pre, t, s);
      Associative(pre, t, [m]);
      PushFor(pre + t, m, s);
    }
  }

  /** The snapshot of another symbol behind it takes nothing from a delivery. */
  lemma DeliveredFurther(heard: seq<SnapMsg>, more: seq<SnapMsg>, s: uint32, n: uint32, i: nat, b: seq<Snap>, a: seq<Snap>, log: seq<MdMsg>)
    requires Delivered(heard, s, n, i, b, a, log)
    requires forall j :: 0 <= j < |more| ==> if more[j].Info? then more[j].symbol != s else more[j].order.symbol != s
    ensures Delivered(heard + more, s, n, i, b, a, log)
  {
    hide OrdersFor, Lists, Of, MarketAt;
    var all := heard + more;
    assert all[i + 1..] == heard[i + 1..] + more;
    OrdersForOther(heard[i + 1..], more, s);
  }

  /** A snapshot at the end of what was heard delivers its symbol. */
  lemma DeliveredBehind(pre: seq<SnapMsg>, ms: seq<SnapMsg>, s: uint32, n: uint32, b: seq<Snap>, a: seq<Snap>, log: seq<MdMsg>)
    requires Delivered(ms, s, n, 0, b, a, log)
    ensures Delivered(pre + ms, s, n, |pre|, b, a, log)
  {
    hide OrdersFor, Lists, Of, MarketAt;
    assert (pre + ms)[|pre| + 1..] == ms[1..] && (pre + ms)[|pre|] == ms[0];
  }

  lemma SnapshotSymbols(b: seq<Snap>, a: seq<Snap>, s: uint32, n: uint32, q: Quotes)
    requires Lists(b, Buy, s, q) && Lists(a, Sell, s, q)
    ensures forall m :: m in SnapshotOf(s, b, a, n) ==> if m.Info? then m.symbol == s else m.order.symbol == s
  {
    ListsSymbols(b, Buy, s, q);
    ListsSymbols(a, Sell, s, q);
    hide Lists;
  }

  /** One round of the writer, heard whole, delivers every symbol it covers, as of the number the writer has reached. */
  lemma {:induction false} RoundDelivers(writer: SnapshotWriter, symbols: seq<uint32>, log: seq<MdMsg>, m: nat)
    requires writer.Valid() && DistinctSymbols(symbols) && forall s :: s in symbols ==> s in writer.bids && s in writer.asks
    requires writer.lastSeq < m <= |log| && writer.market == MarketAt(log, m) && forall i :: writer.lastSeq < i < m ==> log[i].MdSummary?
    ensures forall s :: s in symbols ==>
      exists i :: Delivered(writer.Snapshots(symbols), s, writer.lastSeq, i, writer.bids[s], writer.asks[s], log)
  {
    hide SnapshotWriter.Valid, Delivered, MarketAt;
    if symbols != [] {
      var k, n := |symbols| - 1, writer.lastSeq;
      var last, front := symbols[k], symbols[..k];
      assert symbols == front + [last];
      RoundDelivers(writer, front, log, m);
      var pre, ms := writer.Snapshots(front), SnapshotOf(last, writer.bids[last], writer.asks[last], n);
      assert writer.Snapshots(symbols) == pre + ms;
      WriterDelivers(writer, last, log, n, m);
      DeliveredBehind(pre, ms, last, n, writer.bids[last], writer.asks[last], log);
      WriterLists(writer, last);
      SnapshotSymbols(writer.bids[last], writer.asks[last], last, n, Of(writer.market, last));
      hide SnapshotOf, Of, SnapshotWriter.Snapshots;
      forall s | s in front ensures exists i :: Delivered(pre + ms, s, n, i, writer.bids[s], writer.asks[s], log) {
        var i :| Delivered(pre, s, n, i, writer.bids[s], writer.asks[s], log);
        assert s != last;
        assert forall j :: 0 <= j < |ms| ==> ms[j] in ms;
        DeliveredFurther(pre, ms, s, n, i, writer.bids[s], writer.asks[s], log);
      }
    }
  }

  lemma WriterLists(writer: SnapshotWriter, s: uint32)
    requires writer.Valid() && s in writer.bids && s in writer.asks
    ensures Lists(writer.bids[s], Buy, s, Of(writer.market, s)) && Lists(writer.asks[s], Sell, s, Of(writer.market, s))
  {}

  // ----- two announcements with different numbers -----

  function Bid(id: uint64, s: uint32): Snap {
    Snap(id, s, Buy, 10, 100, 0)
  }

  /** One order in each of two symbols; then the second is deleted. */
  function ShortLog(): seq<MdMsg> {
    [MdHeartbeat, EntryOf(Bid(11, 1)), EntryOf(Bid(12, 2)), MdDelete(12)]
  }

  /** Symbol 2 as of number 2, then symbol 1 as of number 3. */
  function MixedSnapshots(): seq<SnapMsg> {
    [Info(2, 1, 0, 2), SnapOrder(Bid(12, 2)), Info(1, 1, 0, 3), SnapOrder(Bid(11, 1))]
  }

  function Feed(log: seq<MdMsg>): seq<Numbered>
    requires |log| < TWO32
  {
    seq(|log|, i requires 0 <= i < |log| => Numbered(i, log[i]))
  }

  function AfterMixed(): Wait {
    Wait(map[1 := 0, 2 := 0], map[1 := 0, 2 := 0], map[1 := true, 2 := true], map[1 := [Bid(11, 1)], 2 := [Bid(12, 2)]], 3)
  }

  function AfterSecond(): Wait {
    Wait(map[1 := -1, 2 := 0], map[1 := -1, 2 := 0], map[1 := false, 2 := true], map[2 := [Bid(12, 2)]], 2)
  }

  lemma SecondHeard()
    ensures TakeSnap(TakeSnap(Waiting({1, 2}), Info(2, 1, 0, 2)), SnapOrder(Bid(12, 2))) == AfterSecond()
  {
    var w := TakeSnap(Waiting({1, 2}), Info(2, 1, 0, 2));
    assert w.bidsDue == map[1 := -1, 2 := 1] && w.asksDue == map[1 := -1, 2 := 0];
    assert w.complete == map[1 := false, 2 := false];
    assert [] + [Bid(12, 2)] == [Bid(12, 2)];
  }

  lemma FirstHeard()
    ensures TakeSnap(TakeSnap(AfterSecond(), Info(1, 1, 0, 3)), SnapOrder(Bid(11, 1))) == AfterMixed()
  {
    var w := TakeSnap(AfterSecond(), Info(1, 1, 0, 3));
    assert w.bidsDue == map[1 := 1, 2 := 0] && w.asksDue == map[1 := 0, 2 := 0];
    assert [] + [Bid(11, 1)] == [Bid(11, 1)];
  }

  lemma MixedHeard()
    ensures TakeSnaps(Waiting({1, 2}), MixedSnapshots()) == AfterMixed()
  {
    SecondHeard();
    FirstHeard();
    Four(Waiting({1, 2}), Info(2, 1, 0, 2), SnapOrder(Bid(12, 2)), Info(1, 1, 0, 3), SnapOrder(Bid(11, 1)));
  }

  lemma Four(w: Wait, a: SnapMsg, b: SnapMsg, c: SnapMsg, d: SnapMsg)
    ensures TakeSnaps(w, [a, b, c, d]) == TakeSnap(TakeSnap(TakeSnap(TakeSnap(w, a), b), c), d)
  {
    hide TakeSnap;
    assert [a, b, c, d][..3] == [a, b, c] && [a, b, c][..2] == [a, b];
    TakeOne(w, a);
    assert [a, b][..1] == [a];
    assert TakeSnaps(w, [a, b]) == TakeSnap(TakeSnap(w, a), b);
    assert TakeSnaps(w, [a, b, c]) == TakeSnap(TakeSnaps(w, [a, b]), c);
  }

  lemma MixedLoaded(c0: Client)
    requires c0.books == map[] && c0.index == map[]
    ensures 12 in BookOf(LoadAll(c0, AfterMixed(), [1, 2]), 2).orders
  {
    var w := AfterMixed();
    assert [1, 2][..1] == [1] && [1][..0] == [] && [Bid(11, 1)][..0] == [] && [Bid(12, 2)][..0] == [];
    var c1 := LoadAll(c0, w, [1]);
    assert LoadAll(c0, w, []) == c0 && Buffer(w, 1) == [Bid(11, 1)] && Buffer(w, 2) == [Bid(12, 2)];
    assert c1 == Loaded(c0, [Bid(11, 1)]);
    assert LoadAll(c0, w, [1, 2]) == Loaded(c1, [Bid(12, 2)]);
    LoadedBooks(c0, [Bid(11, 1)], 1);
    LoadedBooks(c1, [Bid(12, 2)], 2);
    DistinctAsQuotes([Bid(12, 2)], 0);
  }

  lemma ShortMarket()
    ensures AllFresh(map[], ShortLog()) && 12 !in MarketAt(ShortLog(), 4)
  {
    var log := ShortLog();
    var g1 := ApplyMarket(map[], log[0]);
    var g2 := ApplyMarket(g1, log[1]);
    var g3 := ApplyMarket(g2, log[2]);
    assert log[..4] == log && log[1..][1..] == log[2..] && log[2..][1..] == log[3..] && log[3..][1..] == [];
    assert 12 !in ApplyMarket(g3, log[3]);
    assert AllFresh(g3, log[3..]) && Replay(g3, log[3..]) == ApplyMarket(g3, log[3]);
    assert AllFresh(g2, log[2..]) && Replay(g2, log[2..]) == ApplyMarket(g3, log[3]);
    assert AllFresh(g1, log[1..]) && Replay(g1, log[1..]) == ApplyMarket(g3, log[3]);
  }

  /** Both symbols complete, the tail gapless, and the deleted order of symbol 2 is still in the book when the whole log has been taken. */
  lemma MixedNumbersGoWrong()
    ensures var w := TakeSnaps(Waiting({1, 2}), MixedSnapshots());
      var c := Joined(w, [1, 2], Feed(ShortLog()));
      && IsComplete(w, 1) && IsComplete(w, 2) && AllFresh(map[], ShortLog())
      && c.last == 3 && 12 in BookOf(c, 2).orders && 12 !in MarketAt(ShortLog(), 4)
  {
    hide TakeSnaps, LoadAll, DrainBuffer, AllFresh, MarketAt, MixedSnapshots;
    MixedHeard();
    ShortMarket();
    var w, c0 := AfterMixed(), Client(map[], map[], 3, []);
    MixedLoaded(c0);
    LoadLast(c0, w, [1, 2]);
    StaleDrain(LoadAll(c0, w, [1, 2]), Feed(ShortLog()));
  }

  /** A tail that ends at the cursor is skipped whole. */
  lemma {:induction false} StaleDrain(c: Client, buffer: seq<Numbered>)
    requires forall i :: 0 <= i < |buffer| ==> buffer[i].seqNum <= c.last
    ensures DrainBuffer(c, buffer, c.last) == c
    decreases |buffer|
  {
    if buffer != [] {
      StaleDrain(c, buffer[1..]);
    }
  }

  // ----- a second announcement after the flag -----

  /** A whole snapshot of symbol 1, then announcements of a second one and of symbol 2, which has no orders. */
  function HeardTwice(): seq<SnapMsg> {
    [Info(1, 1, 0, 2), SnapOrder(Bid(11, 1)), Info(1, 1, 0, 3), Info(2, 0, 0, 3)]
  }

  function AfterFirst(): Wait {
    Wait(map[1 := 0, 2 := -1], map[1 := 0, 2 := -1], map[1 := true, 2 := false], map[1 := [Bid(11, 1)]], 2)
  }

  lemma WholeHeard()
    ensures TakeSnap(TakeSnap(Waiting({1, 2}), Info(1, 1, 0, 2)), SnapOrder(Bid(11, 1))) == AfterFirst()
  {
    var w := TakeSnap(Waiting({1, 2}), Info(1, 1, 0, 2));
    assert w.bidsDue == map[1 := 1, 2 := -1] && w.asksDue == map[1 := 0, 2 := -1];
    assert w.complete == map[1 := false, 2 := false];
    assert [] + [Bid(11, 1)] == [Bid(11, 1)];
  }

  lemma AgainHeard()
    ensures TakeSnap(TakeSnap(AfterFirst(), Info(1, 1, 0, 3)), Info(2, 0, 0, 3)) ==
      Wait(map[1 := 1, 2 := 0], map[1 := 0, 2 := 0], map[1 := true, 2 := true], map[1 := [], 2 := []], 3)
  {
    var w := TakeSnap(AfterFirst(), Info(1, 1, 0, 3));
    assert w.bidsDue == map[1 := 1, 2 := -1] && w.asksDue == map[1 := 0, 2 := -1];
  }

  /** Both symbols are flagged and the wait is over, with symbol 1 announced as one order and none of it buffered. */
  lemma FlagOutlivesSnapshot()
    ensures var w := TakeSnaps(Waiting({1, 2}), HeardTwice());
      && IsComplete(w, 1) && IsComplete(w, 2) && !Settled(w, 1)
      && Due(w.bidsDue, 1) == 1 && Buffer(w, 1) == []
  {
    WholeHeard();
    AgainHeard();
    Four(Waiting({1, 2}), Info(1, 1, 0, 2), SnapOrder(Bid(11, 1)), Info(1, 1, 0, 3), Info(2, 0, 0, 3));
  }

  // ----- a trade in a symbol without a book -----

  /** A client that has just joined knows no book but those of the covered symbols. */
  lemma UncoveredTradeStalls(c: Client, s: uint32, id: uint64, aggressor: Side, quantity: uint32, price: int, later: seq<seq<Numbered>>)
    requires s !in c.books && c.last + 3 < TWO32
    requires forall i :: 0 <= i < |later| ==> later[i] != [] && later[i][0].seqNum > c.last + 2
    ensures var trade := [Numbered(c.last + 1, MdSummary(s, aggressor, quantity, price)), Numbered(c.last + 2, MdTrade(id, quantity, price))];
      StopsEarly(c, trade) && Packets(ProcessPacket(c, trade), later).last == c.last + 1
  {
    var trade := [Numbered(c.last + 1, MdSummary(s, aggressor, quantity, price)), Numbered(c.last + 2, MdTrade(id, quantity, price))];
    assert Stops(c, trade[0]);
    StalledForGood(ProcessPacket(c, trade), later);
  }
}
