/** A late joiner's aggregated levels: exact from the moment its snapshots are loaded. */
module RecoveryLevels {
  import opened ExchangeTypes
  import opened MarketData
  import opened Markets
  import opened OrderBooks
  import opened SnapshotWriters
  import opened SnapshotAgreement
  import opened RecoverySpec
  import opened Recovery
  import opened LateJoin

  // ----- logs whose totals can be held -----

  predicate PositiveMsg(msg: MdMsg) {
    (msg.MdNew? ==> msg.quantity > 0) && (msg.MdModify? ==> msg.quantity > 0)
  }

  /** Every order entered or amended has something to trade. */
  ghost predicate AllPositive(log: seq<MdMsg>) {
    forall k :: 0 <= k < |log| ==> PositiveMsg(log[k])
  }

  /** The totals of these symbols fit in 32 bits after the first k messages. */
  ghost predicate FitsAt(log: seq<MdMsg>, k: nat, symbols: set<uint32>) {
    k <= |log| && forall s :: s in symbols ==> Fits(Of(MarketAt(log, k), s))
  }

  ghost predicate FitsWithin(log: seq<MdMsg>, first: nat, last: nat, symbols: set<uint32>) {
    forall k :: first <= k <= last ==> FitsAt(log, k, symbols)
  }

  lemma PositiveStays(m: Quotes, msg: MdMsg)
    requires Positive(m) && Proper(m, msg)
    ensures Positive(ApplyQuote(m, msg)) && PositiveMsg(msg)
  {}

  lemma {:induction false} PositiveAt(log: seq<MdMsg>, k: nat, s: uint32)
    requires AllFresh(map[], log) && AllPositive(log) && k <= |log|
    ensures Positive(Of(MarketAt(log, k), s))
  {
    hide AllFresh, ApplyMarket, ApplyQuote, Positive;
    if k == 0 {
      NothingPositive(s);
      assert log[..0] == [];
    } else {
      var g := MarketAt(log, k - 1);
      PositiveAt(log, k - 1, s);
      MarketStep(log, k - 1);
      ApplyOf(g, log[k - 1], s);
      FreshIsProper(g, log[k - 1], s);
      PositiveStays(Of(g, s), log[k - 1]);
    }
  }

  lemma NothingPositive(s: uint32)
    ensures Positive(Of(Replay(map[], []), s))
  {}

  lemma FreshIsProper(g: Market, msg: MdMsg, s: uint32)
    requires Fresh(g, msg) && PositiveMsg(msg)
    ensures Proper(Of(g, s), msg)
  {
    OfKeys(g, s, if HasId(msg) then msg.id else 0);
  }

  // ----- the client's levels -----

  ghost predicate LevelsExact(c: Client, symbols: set<uint32>) {
    forall s :: s in symbols ==> Exact(BookOf(c, s))
  }

  lemma PerformedLevels(c: Client, log: seq<MdMsg>, k: nat, symbols: set<uint32>)
    requires AllFresh(map[], log) && AllPositive(log) && k < |log|
    requires Follows(c, MarketAt(log, k), symbols) && LevelsExact(c, symbols)
    requires FitsAt(log, k, symbols) && FitsAt(log, k + 1, symbols)
    ensures LevelsExact(Performed(c, log[k]), symbols)
  {
    hide Of, ApplyMarket, ApplyBook, Exact, Fits, Positive, Proper, MarketAt, AllFresh;
    var msg, g := log[k], MarketAt(log, k);
    MarketStep(log, k);
    PerformedFollows(c, g, msg, symbols);
    var c' := Performed(c, msg);
    forall s | s in symbols ensures Exact(BookOf(c', s)) {
      PositiveAt(log, k, s);
      FreshIsProper(g, msg, s);
      if Located(c, msg) == Some(s) && HasId(msg) {
        LevelsStayExact(BookOf(c, s), msg);
      }
    }
  }

  lemma DigestLevels(c: Client, m: Numbered, log: seq<MdMsg>, last: nat, symbols: set<uint32>)
    requires Aligned(c, log, symbols) && AllFresh(map[], log) && AllPositive(log) && m.seqNum < |log| && m.msg == log[m.seqNum]
    requires FitsWithin(log, c.last + 1, last, symbols) && m.seqNum < last && LevelsExact(c, symbols)
    ensures LevelsExact(Digest(c, m), symbols)
  {
    hide AllFresh, AllPositive, Performed, Follows, FitsAt, LevelsExact, MarketAt;
    if Takes(c, m) {
      assert m.seqNum == c.last + 1;
      PerformedLevels(c, log, m.seqNum, symbols);
      SameBooks(Performed(c, m.msg), Digest(c, m), symbols);
    }
  }

  lemma SameBooks(c: Client, c': Client, symbols: set<uint32>)
    requires c'.books == c.books && LevelsExact(c, symbols)
    ensures LevelsExact(c', symbols)
  {}

  lemma {:induction false} PacketLevels(c: Client, ms: seq<Numbered>, log: seq<MdMsg>, a: nat, first: nat, last: nat, symbols: set<uint32>)
    requires Aligned(c, log, symbols) && AllFresh(map[], log) && AllPositive(log) && IsFeed(ms, log, a) && a <= c.last + 1
    requires FitsWithin(log, first, last, symbols) && first <= c.last + 1 && a + |ms| <= last && LevelsExact(c, symbols)
    ensures LevelsExact(ProcessPacket(c, ms), symbols)
    decreases |ms|
  {
    hide AllFresh, AllPositive, Performed, Aligned, Located, Digest, Stops, IsFeed, FitsAt, LevelsExact;
    if ms != [] {
      FeedTail(ms, log, a);
      DigestAligned(c, ms[0], log, symbols);
      DigestLevels(c, ms[0], log, last, symbols);
      if !Stops(c, ms[0]) {
        PacketLevels(Digest(c, ms[0]), ms[1..], log, a + 1, first, last, symbols);
      }
    }
  }

  lemma {:induction false} DrainLevels(c: Client, buffer: seq<Numbered>, cursor: uint32, log: seq<MdMsg>, a: nat, first: nat, last: nat, symbols: set<uint32>)
    requires Aligned(c, log, symbols) && AllFresh(map[], log) && AllPositive(log) && IsFeed(buffer, log, a)
    requires a <= c.last + 1 && cursor <= c.last
    requires FitsWithin(log, first, last, symbols) && first <= c.last + 1 && a + |buffer| <= last && LevelsExact(c, symbols)
    ensures LevelsExact(DrainBuffer(c, buffer, cursor), symbols)
    decreases |buffer|
  {
    hide AllFresh, AllPositive, Aligned, ProcessPacket, StopsEarly, IsFeed, FitsWithin, LevelsExact;
    if buffer != [] {
      FeedTail(buffer, log, a);
      PacketAligned(c, buffer, log, a, symbols);
      PacketLevels(c, buffer, log, a, first, last, symbols);
      DrainLevels(if buffer[0].seqNum <= cursor then c else ProcessPacket(c, buffer), buffer[1..], cursor, log, a + 1, first, last, symbols);
    }
  }

  // ----- loading -----

  /** A shorter list has no larger totals. */
  lemma PrefixFits(v: seq<Snap>, e: Snap)
    requires Fits(AsQuotes(v + [e]))
    ensures Fits(AsQuotes(v))
  {
    hide Depth, AsQuotes;
    AsQuotesPush(v, e);
    forall side, p ensures Depth(AsQuotes(v), side, p) < TWO32 {
      assert Depth(AsQuotes(v + [e]), side, p) < TWO32;
      if e.id !in AsQuotes(v) {
        DepthUpdate(AsQuotes(v), e.id, SnapshotAgreement.QuoteOf(e), side, p);
        WithoutMissing(AsQuotes(v), e.id);
      }
    }
  }

  lemma {:induction false} LoadedLevels(c: Client, v: seq<Snap>, s: uint32)
    requires BookOf(c, s) == EMPTY_BOOK && Distinct(v) && Fits(AsQuotes(v))
    requires forall i :: 0 <= i < |v| ==> v[i].symbol == s && v[i].quantity > 0
    ensures Exact(BookOf(Loaded(c, v), s)) && Positive(BookOf(Loaded(c, v), s).orders)
    decreases |v|
  {
    hide ApplyBook, Exact, Fits, AsQuotes;
    if v == [] {
      EmptyBookExact();
    } else {
      var t, e := v[..|v| - 1], v[|v| - 1];
      assert v == t + [e];
      PrefixFits(t, e);
      LoadedLevels(c, t, s);
      LoadedBooks(c, t, s);
      LoadedBooks(c, v, s);
      AsQuotesKeys(t);
      assert !Holds(t, e.id);
      LevelsStayExact(BookOf(Loaded(c, t), s), EntryOf(e));
    }
  }

  lemma BufferPositive(w: Wait, s: uint32, g: Market)
    requires Depicts(w, s, g) && Positive(Of(g, s))
    ensures forall i :: 0 <= i < |Buffer(w, s)| ==> Buffer(w, s)[i].symbol == s && Buffer(w, s)[i].quantity > 0
  {
    forall i | 0 <= i < |Buffer(w, s)| ensures Buffer(w, s)[i].quantity > 0 {
      DistinctAsQuotes(Buffer(w, s), i);
    }
  }

  lemma {:induction false} LoadLevels(c: Client, w: Wait, symbols: seq<uint32>, at: map<uint32, Market>)
    requires c.books == map[] && DistinctSymbols(symbols)
    requires forall i :: 0 <= i < |symbols| ==> symbols[i] in at && Depicts(w, symbols[i], at[symbols[i]])
    requires forall i :: 0 <= i < |symbols| ==> Fits(Of(at[symbols[i]], symbols[i])) && Positive(Of(at[symbols[i]], symbols[i]))
    ensures LevelsExact(LoadAll(c, w, symbols), set i | 0 <= i < |symbols| :: symbols[i])
  {
    hide Loaded, AsQuotes, Of, Exact, Fits, Positive;
    if symbols != [] {
      var n := |symbols| - 1;
      var s, t := symbols[n], symbols[..n];
      assert symbols == t + [s];
      LoadLevels(c, w, t, at);
      LoadBooks(c, w, t, at);
      assert s !in t;
      var c1 := LoadAll(c, w, t);
      BufferPositive(w, s, at[s]);
      LoadedLevels(c1, Buffer(w, s), s);
      LoadedBooks(c1, Buffer(w, s), s);
      forall r | r in symbols ensures Exact(BookOf(LoadAll(c, w, symbols), r)) {
        if r != s { assert r in t; }
      }
    }
  }

  /** A client just loaded has exact levels if the totals fit at the cursor. */
  lemma StartLevels(covered: set<uint32>, heard: seq<SnapMsg>, symbols: seq<uint32>, hearings: map<uint32, Hearing>, log: seq<MdMsg>)
    requires AllFresh(map[], log) && AllPositive(log)
    requires symbols != [] && DistinctSymbols(symbols) && AllDelivered(heard, symbols, hearings, log)
    requires Unmoved(symbols, hearings, log, TakeSnaps(Waiting(covered), heard).cursor)
    requires FitsAt(log, TakeSnaps(Waiting(covered), heard).cursor + 1, set i | 0 <= i < |symbols| :: symbols[i])
    ensures LevelsExact(Started(TakeSnaps(Waiting(covered), heard), symbols), set i | 0 <= i < |symbols| :: symbols[i])
  {
    hide TakeSnaps, DeliveredAs, Delivered, LoadAll, Depicts, MarketAt, Of, AllFresh, AllPositive, LevelsExact, Fits, Positive;
    var w, all := TakeSnaps(Waiting(covered), heard), set i | 0 <= i < |symbols| :: symbols[i];
    var at := map s | s in hearings && hearings[s].number < |log| :: MarketAt(log, hearings[s].number + 1);
    forall i | 0 <= i < |symbols|
      ensures symbols[i] in at && Depicts(w, symbols[i], at[symbols[i]])
      ensures Fits(Of(at[symbols[i]], symbols[i])) && Positive(Of(at[symbols[i]], symbols[i]))
    {
      var h := hearings[symbols[i]];
      DeliveredNumber(heard, symbols[i], h, log);
      DeliveredShows(Waiting(covered), heard, symbols[i], h.number, h.at, h.bids, h.asks, log);
      assert symbols[i] in all;
      assert Still(symbols[i], h.number, log, w.cursor);
      PositiveAt(log, h.number + 1, symbols[i]);
    }
    LoadLevels(Client(map[], map[], w.cursor, []), w, symbols, at);
  }

  lemma JoinLevels(covered: set<uint32>, heard: seq<SnapMsg>, symbols: seq<uint32>, hearings: map<uint32, Hearing>,
                   buffer: seq<Numbered>, a: nat, last: nat, log: seq<MdMsg>)
    requires AllFresh(map[], log) && AllPositive(log) && IsFeed(buffer, log, a) && OnlyNewer(heard, buffer)
    requires symbols != [] && DistinctSymbols(symbols) && AllDelivered(heard, symbols, hearings, log)
    requires Unmoved(symbols, hearings, log, TakeSnaps(Waiting(covered), heard).cursor)
    requires a + |buffer| <= last && TakeSnaps(Waiting(covered), heard).cursor < last
    requires FitsWithin(log, TakeSnaps(Waiting(covered), heard).cursor + 1, last, set i | 0 <= i < |symbols| :: symbols[i])
    ensures LevelsExact(Joined(TakeSnaps(Waiting(covered), heard), symbols, buffer), set i | 0 <= i < |symbols| :: symbols[i])
  {
    hide AllFresh, AllPositive, TakeSnaps, AllDelivered, LoadAll, DrainBuffer, Aligned, Unmoved, OnlyNewer, IsFeed, LevelsExact, FitsAt;
    var w, all := TakeSnaps(Waiting(covered), heard), set i | 0 <= i < |symbols| :: symbols[i];
    LateJoinExact(covered, heard, symbols, hearings, buffer, a, log);
    StartLevels(covered, heard, symbols, hearings, log);
    StartExact(covered, heard, symbols, hearings, log);
    LoadLast(Client(map[], map[], w.cursor, []), w, symbols);
    DrainLevels(Started(w, symbols), buffer, w.cursor, log, a, w.cursor + 1, last, all);
  }

  /**
   The late joiner of `LateJoinExact` has exact levels too, however much of the live tail has been buffered, exactly if
   the totals of its symbols fit from the cursor on; what they were before does not matter.
   */
  lemma LateJoinLevels(covered: set<uint32>, heard: seq<SnapMsg>, symbols: seq<uint32>, hearings: map<uint32, Hearing>,
                       buffer: seq<Numbered>, a: nat, log: seq<MdMsg>)
    requires AllFresh(map[], log) && AllPositive(log) && IsFeed(buffer, log, a) && OnlyNewer(heard, buffer)
    requires symbols != [] && DistinctSymbols(symbols) && AllDelivered(heard, symbols, hearings, log)
    requires Unmoved(symbols, hearings, log, TakeSnaps(Waiting(covered), heard).cursor)
    ensures var w, all := TakeSnaps(Waiting(covered), heard), set i | 0 <= i < |symbols| :: symbols[i];
      (forall b :: 1 <= b <= |buffer| ==> LevelsExact(Joined(w, symbols, buffer[..b]), all)) <==>
        FitsWithin(log, w.cursor + 1, Max(w.cursor + 1, a + |buffer|), all)
  {
    hide AllFresh, AllPositive, TakeSnaps, AllDelivered, Joined, Aligned, Unmoved, OnlyNewer, IsFeed, LevelsExact, FitsAt;
    var w, all := TakeSnaps(Waiting(covered), heard), set i | 0 <= i < |symbols| :: symbols[i];
    var last := Max(w.cursor + 1, a + |buffer|);
    LateJoinExact(covered, heard, symbols, hearings, buffer, a, log);
    BufferedSome(covered, heard, symbols, hearings, buffer, log);
    if FitsWithin(log, w.cursor + 1, last, all) {
      forall b | 1 <= b <= |buffer| ensures LevelsExact(Joined(w, symbols, buffer[..b]), all) {
        BufferPrefix(heard, buffer, b, a, log);
        JoinLevels(covered, heard, symbols, hearings, buffer[..b], a, last, log);
      }
    }
    if forall b :: 1 <= b <= |buffer| ==> LevelsExact(Joined(w, symbols, buffer[..b]), all) {
      forall k | w.cursor + 1 <= k <= last ensures FitsAt(log, k, all) {
        var b := Min(|buffer|, k - a);
        BufferPrefix(heard, buffer, b, a, log);
        LateJoinExact(covered, heard, symbols, hearings, buffer[..b], a, log);
        ExactFitsAt(Joined(w, symbols, buffer[..b]), log, all);
      }
    }
  }

  lemma BufferedSome(covered: set<uint32>, heard: seq<SnapMsg>, symbols: seq<uint32>, hearings: map<uint32, Hearing>, buffer: seq<Numbered>, log: seq<MdMsg>)
    requires symbols != [] && AllDelivered(heard, symbols, hearings, log) && OnlyNewer(heard, buffer)
    ensures buffer != []
  {
    hide OnlyNewer, AllDelivered;
    var i := SomeAnnouncement(heard, symbols, hearings, log);
    CursorIsNewer(Waiting(covered), heard, i, buffer);
  }

  lemma BufferPrefix(heard: seq<SnapMsg>, buffer: seq<Numbered>, b: nat, a: nat, log: seq<MdMsg>)
    requires IsFeed(buffer, log, a) && OnlyNewer(heard, buffer) && 1 <= b <= |buffer|
    ensures IsFeed(buffer[..b], log, a) && OnlyNewer(heard, buffer[..b]) && a + |buffer| <= |log|
  {
    assert FirstLive(buffer[..b]) == FirstLive(buffer);
  }

  lemma ExactFitsAt(c: Client, log: seq<MdMsg>, symbols: set<uint32>)
    requires Aligned(c, log, symbols) && LevelsExact(c, symbols)
    ensures FitsAt(log, c.last + 1, symbols)
  {
    hide Exact, Fits, Of, MarketAt;
    forall s | s in symbols ensures Fits(Of(MarketAt(log, c.last + 1), s)) {
      ExactFits(BookOf(c, s));
    }
  }
}
