/** Late joining: a snapshot and a buffered live tail give the book the whole log gives. */
module Recovery {
  import opened ExchangeTypes
  import opened MarketData
  import opened Markets
  import opened OrderBooks
  import opened SnapshotWriters
  import opened SnapshotAgreement
  import opened RecoverySpec

  // ----- one contiguous run -----

  /** The numbers taken since the snapshot are start + 1, start + 2, and so on up to `last`. */
  ghost predicate Contiguous(c: Client, start: uint32) {
    && c.last == start + |c.taken|
    && forall i :: 0 <= i < |c.taken| ==> c.taken[i].seqNum == start + 1 + i
  }

  lemma DigestContiguous(c: Client, m: Numbered, start: uint32)
    requires Contiguous(c, start)
    ensures Contiguous(Digest(c, m), start) && c.last <= Digest(c, m).last && c.taken <= Digest(c, m).taken
    ensures Takes(c, m) <==> m.seqNum == c.last + 1
  {
    hide Performed;
    assert Digest(c, m).taken == if Takes(c, m) then c.taken + [m] else c.taken;
  }

  lemma {:induction false} PacketContiguous(c: Client, ms: seq<Numbered>, start: uint32)
    requires Contiguous(c, start)
    ensures Contiguous(ProcessPacket(c, ms), start) && c.last <= ProcessPacket(c, ms).last && c.taken <= ProcessPacket(c, ms).taken
    decreases |ms|
  {
    hide Digest, Contiguous, Stops;
    if ms != [] {
      DigestContiguous(c, ms[0], start);
      if !Stops(c, ms[0]) {
        PacketContiguous(Digest(c, ms[0]), ms[1..], start);
      }
    }
  }

  /** However often the buffer is offered again, and whatever it holds, no number is taken twice or out of turn. */
  lemma {:induction false} DrainContiguous(c: Client, buffer: seq<Numbered>, cursor: uint32, start: uint32)
    requires Contiguous(c, start)
    ensures Contiguous(DrainBuffer(c, buffer, cursor), start) && c.last <= DrainBuffer(c, buffer, cursor).last
    ensures c.taken <= DrainBuffer(c, buffer, cursor).taken
    decreases |buffer|
  {
    hide ProcessPacket, Contiguous;
    if buffer != [] {
      PacketContiguous(c, buffer, start);
      DrainContiguous(if buffer[0].seqNum <= cursor then c else ProcessPacket(c, buffer), buffer[1..], cursor, start);
    }
  }

  /** Any run of packets after the snapshot: duplicated, stale, reordered or with gaps. */
  function Packets(c: Client, ps: seq<seq<Numbered>>): Client {
    if ps == [] then c else ProcessPacket(Packets(c, ps[..|ps| - 1]), ps[|ps| - 1])
  }

  lemma {:induction false} RunContiguous(c: Client, buffer: seq<Numbered>, ps: seq<seq<Numbered>>)
    requires c.taken == []
    ensures Contiguous(Packets(DrainBuffer(c, buffer, c.last), ps), c.last)
    ensures forall i, j :: 0 <= i < j < |Packets(DrainBuffer(c, buffer, c.last), ps).taken| ==>
      Packets(DrainBuffer(c, buffer, c.last), ps).taken[i].seqNum < Packets(DrainBuffer(c, buffer, c.last), ps).taken[j].seqNum
  {
    hide DrainBuffer, ProcessPacket;
    if ps == [] {
      assert Contiguous(c, c.last);
      DrainContiguous(c, buffer, c.last, c.last);
    } else {
      RunContiguous(c, buffer, ps[..|ps| - 1]);
      PacketContiguous(Packets(DrainBuffer(c, buffer, c.last), ps[..|ps| - 1]), ps[|ps| - 1], c.last);
    }
  }

  // ----- what the books show -----

  /** The books of the covered symbols are the market's, and their live orders can be found. */
  ghost predicate Follows(c: Client, g: Market, covered: set<uint32>) {
    && (forall s :: s in covered ==> BookOf(c, s).orders == Of(g, s))
    && (forall x :: x in g && g[x].symbol in covered ==> x in c.index && c.index[x] == g[x].symbol)
  }

  lemma PerformedNew(c: Client, g: Market, msg: MdMsg, covered: set<uint32>)
    requires Follows(c, g, covered) && Fresh(g, msg) && msg.MdNew?
    ensures Follows(Performed(c, msg), ApplyMarket(g, msg), covered)
  {
    hide Of, ApplyMarket, ApplyBook;
    var c', g' := Performed(c, msg), ApplyMarket(g, msg);
    forall s | s in covered ensures BookOf(c', s).orders == Of(g', s) {
      ApplyOf(g, msg, s);
      OrdersAreQuotes(BookOf(c, s), msg);
    }
    NewKeys(g, msg);
  }

  lemma NewKeys(g: Market, msg: MdMsg)
    requires Fresh(g, msg) && msg.MdNew?
    ensures forall x :: x in ApplyMarket(g, msg) ==> if x == msg.id then ApplyMarket(g, msg)[x].symbol == msg.symbol else x in g && g[x].symbol == ApplyMarket(g, msg)[x].symbol
  {}

  lemma PerformedOther(c: Client, g: Market, msg: MdMsg, covered: set<uint32>)
    requires Follows(c, g, covered) && HasId(msg) && !msg.MdNew?
    ensures Follows(Performed(c, msg), ApplyMarket(g, msg), covered)
  {
    hide Of, ApplyMarket, ApplyBook;
    var c', g' := Performed(c, msg), ApplyMarket(g, msg);
    ChangedKeys(g, msg);
    forall s | s in covered ensures BookOf(c', s).orders == Of(g', s) {
      ChangedOf(g, msg, s);
      OfKeys(g, s, msg.id);
      OrdersAreQuotes(BookOf(c, s), msg);
      if msg.id in Of(g, s) {
        assert Located(c, msg) == Some(s) by {
          assert msg.id in BookOf(c, s).orders;
        }
      } else {
        Missing(Of(g, s), msg);
      }
    }
  }

  /** Whether or not a message can be placed, the covered books stay right. */
  lemma PerformedFollows(c: Client, g: Market, msg: MdMsg, covered: set<uint32>)
    requires Follows(c, g, covered) && Fresh(g, msg)
    ensures Follows(Performed(c, msg), ApplyMarket(g, msg), covered)
  {
    if msg.MdNew? {
      PerformedNew(c, g, msg, covered);
    } else if HasId(msg) {
      PerformedOther(c, g, msg, covered);
    }
  }

  /** A message about a live order of a covered symbol can always be placed, as can a summary of its trades. */
  lemma PlacedWhenLive(c: Client, g: Market, msg: MdMsg, covered: set<uint32>)
    requires Follows(c, g, covered)
    ensures msg.MdNew? || msg.MdHeartbeat? ==> Located(c, msg).Some?
    ensures HasId(msg) && !msg.MdNew? && msg.id in g && g[msg.id].symbol in covered ==> Located(c, msg) == Some(g[msg.id].symbol)
    ensures msg.MdSummary? && msg.symbol in covered && (exists x :: x in g && g[x].symbol == msg.symbol) ==> Located(c, msg) == Some(msg.symbol)
  {
    if HasId(msg) && !msg.MdNew? && msg.id in g && g[msg.id].symbol in covered {
      assert msg.id in BookOf(c, g[msg.id].symbol).orders;
    }
    if msg.MdSummary? && msg.symbol in covered && exists x :: x in g && g[x].symbol == msg.symbol {
      var x :| x in g && g[x].symbol == msg.symbol;
      assert x in BookOf(c, msg.symbol).orders;
    }
  }

  // ----- the feed -----

  /** Packets cut from the numbered log: message k carries number k. */
  ghost predicate IsFeed(ms: seq<Numbered>, log: seq<MdMsg>, a: nat) {
    a + |ms| <= |log| < TWO32 && forall i :: 0 <= i < |ms| ==> ms[i] == Numbered(a + i, log[a + i])
  }

  ghost function MarketAt(log: seq<MdMsg>, n: nat): Market
    requires n <= |log|
  {
    Replay(map[], log[..n])
  }

  /** The client is right about everything up to the last number it has taken. */
  ghost predicate Aligned(c: Client, log: seq<MdMsg>, covered: set<uint32>) {
    c.last < |log| && Follows(c, MarketAt(log, c.last + 1), covered)
  }

  lemma MarketStep(log: seq<MdMsg>, k: nat)
    requires AllFresh(map[], log) && k < |log|
    ensures MarketAt(log, k + 1) == ApplyMarket(MarketAt(log, k), log[k]) && Fresh(MarketAt(log, k), log[k])
  {
    var m := log[k];
    assert log[..k + 1] == log[..k] + [m];
    Markets.ReplayConcat(map[], log[..k], [m]);
    assert [m][1..] == [];
    assert log == log[..k] + log[k..];
    FreshConcat(map[], log[..k], log[k..]);
  }

  lemma TakenAligned(c: Client, m: Numbered, log: seq<MdMsg>, covered: set<uint32>)
    requires Aligned(c, log, covered) && AllFresh(map[], log) && m.seqNum < |log| && m.msg == log[m.seqNum]
    requires m.seqNum == c.last + 1
    ensures Aligned(Performed(c, m.msg).(last := m.seqNum, taken := c.taken + [m]), log, covered)
  {
    hide AllFresh, Performed, ApplyMarket, Fresh, Follows, MarketAt;
    MarketStep(log, m.seqNum);
    PerformedFollows(c, MarketAt(log, m.seqNum), m.msg, covered);
    var c1 := Performed(c, m.msg);
    SameFollows(c1, c1.(last := m.seqNum, taken := c.taken + [m]), MarketAt(log, m.seqNum + 1), covered);
  }

  lemma SameFollows(c: Client, c': Client, g: Market, covered: set<uint32>)
    requires Follows(c, g, covered) && c'.books == c.books && c'.index == c.index
    ensures Follows(c', g, covered)
  {}

  lemma DigestAligned(c: Client, m: Numbered, log: seq<MdMsg>, covered: set<uint32>)
    requires Aligned(c, log, covered) && AllFresh(map[], log) && m.seqNum < |log| && m.msg == log[m.seqNum]
    ensures Aligned(Digest(c, m), log, covered)
    ensures Digest(c, m).last == if m.seqNum == c.last + 1 then m.seqNum else c.last
  {
    hide AllFresh, Performed, Aligned;
    if Takes(c, m) {
      TakenAligned(c, m, log, covered);
    }
  }

  /** A message before the packet's last cannot be placed. */
  predicate StopsEarly(c: Client, ms: seq<Numbered>)
    decreases |ms|
  {
    |ms| >= 2 && (Stops(c, ms[0]) || StopsEarly(Digest(c, ms[0]), ms[1..]))
  }

  lemma FeedTail(ms: seq<Numbered>, log: seq<MdMsg>, a: nat)
    requires IsFeed(ms, log, a) && ms != []
    ensures IsFeed(ms[1..], log, a + 1) && ms[0] == Numbered(a, log[a]) && a < |log|
  {
    assert forall i :: 0 <= i < |ms[1..]| ==> ms[1..][i] == ms[i + 1];
  }

  lemma StopsWhen(c: Client, m: Numbered)
    requires m.seqNum <= c.last + 1 < TWO32
    ensures Stops(c, m) <==> m.seqNum == c.last + 1 && Located(c, m.msg).None?
  {}

  /**
   A packet of the feed that leaves no gap keeps the client right, and is taken to its end exactly when no message
   before its last is one that cannot be placed.
   */
  lemma {:induction false} PacketAligned(c: Client, ms: seq<Numbered>, log: seq<MdMsg>, a: nat, covered: set<uint32>)
    requires Aligned(c, log, covered) && AllFresh(map[], log) && IsFeed(ms, log, a) && a <= c.last + 1 && ms != []
    ensures var c' := ProcessPacket(c, ms);
      && Aligned(c', log, covered) && c.last <= c'.last && a <= c'.last <= Max(c.last, a + |ms| - 1)
      && (c'.last == Max(c.last, a + |ms| - 1) <==> !StopsEarly(c, ms))
    decreases |ms|
  {
    hide AllFresh, Performed, Aligned, Located, Digest, Stops, IsFeed;
    FeedTail(ms, log, a);
    var m, c1 := ms[0], Digest(c, ms[0]);
    DigestAligned(c, m, log, covered);
    AlignedLast(c, log, covered);
    FeedEnds(c, ms, log, a);
    if ms[1..] == [] {
    } else {
      if !Stops(c, m) {
        PacketAligned(c1, ms[1..], log, a + 1, covered);
      }
    }
  }

  lemma AlignedLast(c: Client, log: seq<MdMsg>, covered: set<uint32>)
    requires Aligned(c, log, covered)
    ensures c.last < |log|
  {}

  lemma FeedEnds(c: Client, ms: seq<Numbered>, log: seq<MdMsg>, a: nat)
    requires IsFeed(ms, log, a) && ms != [] && a <= c.last + 1
    requires c.last < |log|
    ensures a + |ms| <= |log| < TWO32
    ensures Stops(c, ms[0]) ==> a == c.last + 1
  {
    StopsWhen(c, ms[0]);
  }

  // ----- exactly where a packet stops -----

  /** The symbol an order goes under, by the index at the packet's start and the messages taken since: an unknown one that is deleted or amended is filed under 0. */
  function FiledUnder(c: Client, taken: seq<Numbered>, id: uint64): Option<uint32> {
    if taken == [] then (if id in c.index then Some(c.index[id]) else None)
    else
      var before := FiledUnder(c, taken[..|taken| - 1], id);
      match taken[|taken| - 1].msg
      case MdNew(x, s, _, _, _, _) => if x == id then Some(s) else before
      case MdDelete(x) => if x == id && before.None? then Some(0) else before
      case MdModify(x, _, _, _) => if x == id && before.None? then Some(0) else before
      case _ => before
  }

  /** A symbol has a book if it had one, or an order of it was entered since. */
  ghost predicate HasBook(c: Client, taken: seq<Numbered>, s: uint32) {
    s in c.books || exists i :: 0 <= i < |taken| && taken[i].msg.MdNew? && taken[i].msg.symbol == s
  }

  ghost predicate Unplaced(c: Client, taken: seq<Numbered>, msg: MdMsg) {
    match msg
    case MdNew(_, _, _, _, _, _) => false
    case MdHeartbeat => false
    case MdSummary(s, _, _, _) => !HasBook(c, taken, s)
    case MdTrade(id, _, _) => FiledUnder(c, taken, id).None? || !HasBook(c, taken, FiledUnder(c, taken, id).value)
    case MdDelete(id) => !HasBook(c, taken, Filed(c, taken, id))
    case MdModify(id, _, _, _) => !HasBook(c, taken, Filed(c, taken, id))
  }

  function Filed(c: Client, taken: seq<Numbered>, id: uint64): uint32 {
    var s := FiledUnder(c, taken, id);
    if s.Some? then s.value else 0
  }

  /** The client `now` is `c` after these messages, as far as finding books goes. */
  ghost predicate FindsAs(c: Client, taken: seq<Numbered>, now: Client) {
    && (forall id :: FiledUnder(c, taken, id) == if id in now.index then Some(now.index[id]) else None)
    && (forall s :: HasBook(c, taken, s) <==> s in now.books)
  }

  lemma FoundWhere(c: Client, taken: seq<Numbered>, now: Client, msg: MdMsg)
    requires FindsAs(c, taken, now)
    ensures Unplaced(c, taken, msg) <==> Located(now, msg).None?
  {
    if HasId(msg) {
      assert FiledUnder(c, taken, msg.id) == if msg.id in now.index then Some(now.index[msg.id]) else None;
    }
  }

  lemma FindsAfter(c: Client, taken: seq<Numbered>, now: Client, m: Numbered)
    requires FindsAs(c, taken, now) && Takes(now, m)
    ensures FindsAs(c, taken + [m], Digest(now, m))
  {
    hide ApplyBook;
    var t, c' := taken + [m], Digest(now, m);
    assert t[..|taken|] == taken;
    forall s ensures HasBook(c, t, s) <==> s in c'.books {
      HasBookPush(c, taken, m, s);
    }
  }

  lemma HasBookPush(c: Client, taken: seq<Numbered>, m: Numbered, s: uint32)
    ensures HasBook(c, taken + [m], s) <==> HasBook(c, taken, s) || (m.msg.MdNew? && m.msg.symbol == s)
  {
    var t := taken + [m];
    assert t[|taken|] == m && forall i :: 0 <= i < |taken| ==> t[i] == taken[i];
  }

  /** Message i of the packet, not taken before, finds no book after those of the packet from d on. */
  ghost predicate Blocks(c: Client, ms: seq<Numbered>, d: nat, i: nat)
    requires d <= i < |ms|
  {
    Unplaced(c, ms[d..i], ms[i].msg)
  }

  lemma {:induction false} StopsWhere(c: Client, now: Client, ms: seq<Numbered>, log: seq<MdMsg>, a: nat, j: nat)
    requires IsFeed(ms, log, a) && a <= c.last + 1 <= now.last + 1 < TWO32 && j <= |ms|
    requires var d := c.last + 1 - a; now.last == (if j <= d then c.last else a + j - 1) && FindsAs(c, if j <= d then [] else ms[d..j], now)
    ensures var d := c.last + 1 - a;
      StopsEarly(now, ms[j..]) <==> exists i :: j <= i < |ms| - 1 && d <= i && Blocks(c, ms, d, i)
    decreases |ms| - j
  {
    hide FindsAs, Unplaced, Digest, IsFeed;
    var d := c.last + 1 - a;
    if j < |ms| - 1 {
      var m, next := ms[j], Digest(now, ms[j]);
      FeedAt(ms, log, a, j);
      assert ms[j..][0] == m && ms[j..][1..] == ms[j + 1..];
      StopsWhen(now, m);
      if j < d {
        assert next == now by { Skipped(now, m); }
        StopsWhere(c, next, ms, log, a, j + 1);
      } else {
        var taken := ms[d..j];
        FoundWhere(c, taken, now, m.msg);
        assert Stops(now, m) <==> Blocks(c, ms, d, j);
        FindsAfter(c, taken, now, m);
        assert taken + [m] == ms[d..j + 1];
        TakenLast(now, m);
        StopsWhere(c, next, ms, log, a, j + 1);
      }
    }
  }

  lemma FeedAt(ms: seq<Numbered>, log: seq<MdMsg>, a: nat, j: nat)
    requires IsFeed(ms, log, a) && j < |ms|
    ensures ms[j].seqNum == a + j && a + |ms| <= |log| < TWO32
  {}

  lemma Skipped(c: Client, m: Numbered)
    requires m.seqNum <= c.last
    ensures Digest(c, m) == c && !Takes(c, m)
  {}

  lemma TakenLast(c: Client, m: Numbered)
    requires m.seqNum == c.last + 1
    ensures Takes(c, m) && Digest(c, m).last == m.seqNum
  {}

  /**
   A packet of the feed that leaves no gap is taken to its end exactly unless a message before its last finds no book, by
   the books and the index at the packet's start and the messages in front of it alone.
   */
  lemma PacketTakenWhole(c: Client, ms: seq<Numbered>, log: seq<MdMsg>, a: nat, covered: set<uint32>)
    requires Aligned(c, log, covered) && AllFresh(map[], log) && IsFeed(ms, log, a) && a <= c.last + 1 && ms != []
    ensures var d := c.last + 1 - a;
      ProcessPacket(c, ms).last == Max(c.last, a + |ms| - 1) <==> !exists i :: d <= i < |ms| - 1 && Blocks(c, ms, d, i)
  {
    AlignedLast(c, log, covered);
    FeedAt(ms, log, a, 0);
    assert FindsAs(c, [], c);
    hide *;
    PacketAligned(c, ms, log, a, covered);
    StopsWhere(c, c, ms, log, a, 0);
    assert ms[0..] == ms;
  }

  /** A message of the log about covered symbols alone: an entry or heartbeat, a live order's, or a summary of live orders' trades. */
  ghost predicate Refers(g: Market, msg: MdMsg, covered: set<uint32>) {
    || msg.MdNew? || msg.MdHeartbeat?
    || (HasId(msg) && !msg.MdNew? && msg.id in g && g[msg.id].symbol in covered)
    || (msg.MdSummary? && msg.symbol in covered && exists x :: x in g && g[x].symbol == msg.symbol)
  }

  /** Whether a packet of the feed is taken to its end, by the log alone: it is, when all it holds refers to covered symbols. */
  lemma {:induction false} CoveredFeedNeverStops(c: Client, ms: seq<Numbered>, log: seq<MdMsg>, a: nat, covered: set<uint32>)
    requires Aligned(c, log, covered) && AllFresh(map[], log) && IsFeed(ms, log, a) && a <= c.last + 1
    requires forall k :: a <= k < a + |ms| ==> Refers(MarketAt(log, k), log[k], covered)
    ensures !StopsEarly(c, ms)
    ensures ms != [] ==> ProcessPacket(c, ms).last == Max(c.last, a + |ms| - 1)
    decreases |ms|
  {
    hide AllFresh, Performed, Located, Digest, Stops, IsFeed, Refers, MarketAt, Follows;
    AlignedLast(c, log, covered);
    if ms != [] {
      FeedTail(ms, log, a);
      DigestAligned(c, ms[0], log, covered);
      FeedEnds(c, ms, log, a);
      if Stops(c, ms[0]) {
        ReferredIsPlaced(c, MarketAt(log, a), log[a], covered);
        StopsWhen(c, ms[0]);
      }
      CoveredFeedNeverStops(Digest(c, ms[0]), ms[1..], log, a + 1, covered);
      PacketAligned(c, ms, log, a, covered);
    }
  }

  lemma ReferredIsPlaced(c: Client, g: Market, msg: MdMsg, covered: set<uint32>)
    requires Follows(c, g, covered) && Refers(g, msg, covered)
    ensures Located(c, msg).Some?
  {
    PlacedWhenLive(c, g, msg, covered);
  }

  /** The buffered tail is taken to its end, past messages that cannot be placed: it is offered again from the next one. */
  lemma {:induction false} DrainAligned(c: Client, buffer: seq<Numbered>, cursor: uint32, log: seq<MdMsg>, a: nat, covered: set<uint32>)
    requires Aligned(c, log, covered) && AllFresh(map[], log) && IsFeed(buffer, log, a)
    requires a <= c.last + 1 && cursor <= c.last
    ensures var c' := DrainBuffer(c, buffer, cursor); Aligned(c', log, covered) && c'.last == Max(c.last, a + |buffer| - 1)
    decreases |buffer|
  {
    hide AllFresh, Aligned, ProcessPacket, StopsEarly, IsFeed;
    if buffer != [] {
      FeedTail(buffer, log, a);
      PacketAligned(c, buffer, log, a, covered);
      DrainAligned(if buffer[0].seqNum <= cursor then c else ProcessPacket(c, buffer), buffer[1..], cursor, log, a + 1, covered);
    }
  }

  /** A packet cut short is a gap for good: the rest of the feed only carries numbers beyond the next one. */
  lemma {:induction false} StalledForGood(c: Client, ps: seq<seq<Numbered>>)
    requires forall i :: 0 <= i < |ps| ==> ps[i] != [] && ps[i][0].seqNum > c.last + 1
    ensures Packets(c, ps) == c
  {
    if ps != [] {
      StalledForGood(c, ps[..|ps| - 1]);
      var p := ps[|ps| - 1];
      assert Stops(c, p[0]) && !Takes(c, p[0]);
    }
  }

  // ----- loading -----

  lemma {:induction false} LoadedBooks(c: Client, v: seq<Snap>, s: uint32)
    requires (forall i :: 0 <= i < |v| ==> v[i].symbol == s) && BookOf(c, s).orders == map[]
    ensures BookOf(Loaded(c, v), s).orders == AsQuotes(v)
    ensures forall t :: t != s ==> BookOf(Loaded(c, v), t) == BookOf(c, t)
    ensures forall x :: x in AsQuotes(v) ==> x in Loaded(c, v).index && Loaded(c, v).index[x] == s
    ensures forall x :: x in c.index && x !in AsQuotes(v) ==> x in Loaded(c, v).index && Loaded(c, v).index[x] == c.index[x]
    ensures Loaded(c, v).last == c.last && Loaded(c, v).taken == c.taken
    decreases |v|
  {
    hide ApplyBook;
    if v != [] {
      var n := |v| - 1;
      LoadedBooks(c, v[..n], s);
      OrdersAreQuotes(BookOf(Loaded(c, v[..n]), s), EntryOf(v[n]));
    }
  }

  /** Symbols loaded one after the other. */
  function LoadAll(c: Client, w: Wait, symbols: seq<uint32>): Client {
    if symbols == [] then c
    else Loaded(LoadAll(c, w, symbols[..|symbols| - 1]), Buffer(w, symbols[|symbols| - 1]))
  }

  /** The buffered orders of a symbol are its own, and are what the market had at the given point. */
  ghost predicate Depicts(w: Wait, s: uint32, g: Market) {
    && Distinct(Buffer(w, s)) && (forall i :: 0 <= i < |Buffer(w, s)| ==> Buffer(w, s)[i].symbol == s)
    && AsQuotes(Buffer(w, s)) == Of(g, s)
  }

  ghost predicate DistinctSymbols(symbols: seq<uint32>) {
    forall i, j :: 0 <= i < j < |symbols| ==> symbols[i] != symbols[j]
  }

  lemma {:induction false} LoadBooks(c: Client, w: Wait, symbols: seq<uint32>, at: map<uint32, Market>)
    requires c.books == map[] && DistinctSymbols(symbols)
    requires forall i :: 0 <= i < |symbols| ==> symbols[i] in at && Depicts(w, symbols[i], at[symbols[i]])
    ensures forall s :: s in symbols ==> s in at && BookOf(LoadAll(c, w, symbols), s).orders == Of(at[s], s)
    ensures forall t :: t !in symbols ==> BookOf(LoadAll(c, w, symbols), t) == EMPTY_BOOK
  {
    hide Loaded, AsQuotes, Of;
    if symbols != [] {
      var n := |symbols| - 1;
      var s, t := symbols[n], symbols[..n];
      assert symbols == t + [s];
      LoadBooks(c, w, t, at);
      assert s !in t;
      LoadedBooks(LoadAll(c, w, t), Buffer(w, s), s);
    }
  }

  /**
   Snapshots announced under different numbers load to the market of one of them exactly when no symbol was any
   different at its own number.
   */
  lemma LoadExact(c: Client, w: Wait, symbols: seq<uint32>, at: map<uint32, Market>, g: Market)
    requires c.books == map[] && DistinctSymbols(symbols)
    requires forall i :: 0 <= i < |symbols| ==> symbols[i] in at && Depicts(w, symbols[i], at[symbols[i]])
    ensures Follows(LoadAll(c, w, symbols), g, set i | 0 <= i < |symbols| :: symbols[i]) <==>
      forall i :: 0 <= i < |symbols| ==> Of(at[symbols[i]], symbols[i]) == Of(g, symbols[i])
  {
    hide LoadAll, Of, AsQuotes;
    LoadBooks(c, w, symbols, at);
    var covered := set i | 0 <= i < |symbols| :: symbols[i];
    if Follows(LoadAll(c, w, symbols), g, covered) {
      forall i | 0 <= i < |symbols| ensures Of(at[symbols[i]], symbols[i]) == Of(g, symbols[i]) {
        assert symbols[i] in covered && symbols[i] in symbols;
      }
    } else if forall i :: 0 <= i < |symbols| ==> Of(at[symbols[i]], symbols[i]) == Of(g, symbols[i]) {
      LoadFollows(c, w, symbols, g);
    }
  }

  /** Loading snapshots taken at one point gives the market of that point. */
  lemma {:induction false} LoadFollows(c: Client, w: Wait, symbols: seq<uint32>, g: Market)
    requires c.books == map[] && DistinctSymbols(symbols) && forall i :: 0 <= i < |symbols| ==> Depicts(w, symbols[i], g)
    ensures var c' := LoadAll(c, w, symbols);
      && Follows(c', g, set i | 0 <= i < |symbols| :: symbols[i]) && c'.last == c.last && c'.taken == c.taken
      && forall t :: t !in symbols ==> BookOf(c', t) == EMPTY_BOOK
  {
    hide Loaded, AsQuotes, Of;
    if symbols != [] {
      var n := |symbols| - 1;
      var s, t := symbols[n], symbols[..n];
      assert symbols == t + [s];
      LoadFollows(c, w, t, g);
      var c1 := LoadAll(c, w, t);
      assert s !in t;
      LoadedBooks(c1, Buffer(w, s), s);
      var c' := LoadAll(c, w, symbols);
      forall x | x in g && g[x].symbol in symbols ensures x in c'.index && c'.index[x] == g[x].symbol {
        OfKeys(g, s, x);
        if g[x].symbol != s {
          assert g[x].symbol in t;
        }
      }
      forall r | r in symbols ensures BookOf(c', r).orders == Of(g, r) {
        if r != s { assert r in t; }
      }
    }
  }
}
