/** The market data client as the program has it: order books it owns, buffers it fills and works off. */
module MDClients {
  import opened ExchangeTypes
  import opened MarketData
  import opened Markets
  import opened OrderBooks
  import opened SnapshotWriters
  import opened SnapshotAgreement
  import opened RecoverySpec
  import opened Recovery
  import opened LateJoin

  /** What one turn of the waiting loop receives: nothing, a live datagram, or a live and a snapshot datagram. */
  datatype Arrival = Nothing | Live(live: seq<Numbered>) | Both(live: seq<Numbered>, snapshot: seq<SnapMsg>)

  /** The live messages of the first k arrivals. */
  function LiveOf(arrivals: seq<Arrival>): seq<Numbered> {
    if arrivals == [] then []
    else
      var a := arrivals[|arrivals| - 1];
      LiveOf(arrivals[..|arrivals| - 1]) + (if a.Nothing? then [] else a.live)
  }

  lemma LivePush(arrivals: seq<Arrival>, a: Arrival)
    ensures LiveOf(arrivals + [a]) == LiveOf(arrivals) + (if a.Nothing? then [] else a.live)
  {
    assert (arrivals + [a])[..|arrivals|] == arrivals;
  }

  /** The snapshot messages an arrival brings. */
  function Offered(a: Arrival): seq<SnapMsg> {
    if a.Both? then a.snapshot else []
  }

  /**
   What is taken of an arrival when so much of the feed has been received: every snapshot message it brings, up to the first
   announcement numbered at or below the first live message.
   */
  ghost predicate TakenFrom(part: seq<SnapMsg>, a: Arrival, received: seq<Numbered>) {
    var offered := Offered(a);
    && part <= offered
    && (forall i :: 0 <= i < |part| ==> !(part[i].Info? && part[i].lastSeq <= FirstLive(received)))
    && (|part| < |offered| ==> offered[|part|].Info? && offered[|part|].lastSeq <= FirstLive(received))
  }

  /** Arrival by arrival. */
  ghost predicate AllTaken(parts: seq<seq<SnapMsg>>, arrivals: seq<Arrival>) {
    |parts| <= |arrivals| && forall j :: 0 <= j < |parts| ==> TakenFrom(parts[j], arrivals[j], LiveOf(arrivals[..j + 1]))
  }

  /** Every symbol is flagged after these snapshot messages. */
  ghost predicate AllFlagged(symbols: seq<uint32>, heard: seq<SnapMsg>) {
    forall i :: 0 <= i < |symbols| ==> IsComplete(TakeSnaps(Waiting(set j | 0 <= j < |symbols| :: symbols[j]), heard), symbols[i])
  }

  /** And was not after any fewer arrivals. */
  ghost predicate FirstFlagged(symbols: seq<uint32>, parts: seq<seq<SnapMsg>>) {
    forall j :: 0 <= j < |parts| ==> !AllFlagged(symbols, Flatten(parts[..j]))
  }

  lemma TakenPush(parts: seq<seq<SnapMsg>>, arrivals: seq<Arrival>, part: seq<SnapMsg>, symbols: seq<uint32>)
    requires AllTaken(parts, arrivals) && |parts| < |arrivals|
    requires TakenFrom(part, arrivals[|parts|], LiveOf(arrivals[..|parts| + 1]))
    requires FirstFlagged(symbols, parts) && !AllFlagged(symbols, Flatten(parts))
    ensures AllTaken(parts + [part], arrivals) && Flatten(parts + [part]) == Flatten(parts) + part
    ensures FirstFlagged(symbols, parts + [part])
  {
    hide TakenFrom, AllFlagged, LiveOf, Flatten;
    FlattenPush(parts, part);
    FirstPush(symbols, parts, part);
    hide FirstFlagged;
  }

  lemma FirstPush(symbols: seq<uint32>, parts: seq<seq<SnapMsg>>, part: seq<SnapMsg>)
    requires FirstFlagged(symbols, parts) && !AllFlagged(symbols, Flatten(parts))
    ensures FirstFlagged(symbols, parts + [part])
  {
    hide AllFlagged, Flatten;
    var p := parts + [part];
    forall j | 0 <= j < |p| ensures !AllFlagged(symbols, Flatten(p[..j])) {
      assert p[..j] == parts[..j];
      if j == |parts| { assert parts[..j] == parts; }
    }
  }

  lemma AcceptedIsTaken(a: Arrival, received: seq<Numbered>)
    requires a.Both?
    ensures TakenFrom(a.snapshot[..Accepted(a.snapshot, FirstLive(received))], a, received)
  {}

  lemma NothingTaken(a: Arrival, received: seq<Numbered>)
    requires !a.Both?
    ensures TakenFrom([], a, received)
  {}

  // ----- a whole snapshot ends the wait -----

  /** Every snapshot message sent, arrival by arrival. */
  function Stream(arrivals: seq<Arrival>): seq<SnapMsg> {
    if arrivals == [] then [] else Stream(arrivals[..|arrivals| - 1]) + Offered(arrivals[|arrivals| - 1])
  }

  /** No announcement of theirs is numbered at or below the first live message received by then. */
  ghost predicate NoneOld(arrivals: seq<Arrival>) {
    forall j :: 0 <= j < |arrivals| ==> AllNew(Offered(arrivals[j]), LiveOf(arrivals[..j + 1]))
  }

  ghost predicate AllNew(ms: seq<SnapMsg>, received: seq<Numbered>) {
    forall i :: 0 <= i < |ms| && ms[i].Info? ==> ms[i].lastSeq > FirstLive(received)
  }

  /** Somewhere in the stream a symbol is announced and all its orders follow, bids first, before it is announced again. */
  ghost predicate SentWhole(stream: seq<SnapMsg>, s: uint32) {
    exists i, k, b, a, n :: WholeAt(stream, s, i, k, b, a, n)
  }

  ghost predicate WholeAt(stream: seq<SnapMsg>, s: uint32, i: nat, k: nat, b: seq<Snap>, a: seq<Snap>, n: uint32) {
    && i < k <= |stream| && stream[i] == Info(s, |b|, |a|, n) && NoInfo(stream[i + 1..k], s) && OrdersFor(stream[i + 1..k], s) == b + a
    && (forall j :: 0 <= j < |b| ==> b[j].side.Buy?) && (forall j :: 0 <= j < |a| ==> a[j].side.Sell?)
  }

  lemma {:induction false} FlagStays(w: Wait, ms: seq<SnapMsg>, s: uint32)
    requires IsComplete(w, s)
    ensures IsComplete(TakeSnaps(w, ms), s)
  {
    if ms != [] {
      FlagStays(w, ms[..|ms| - 1], s);
    }
  }

  /** A snapshot sent whole and taken flags its symbol. */
  lemma WholeIsFlagged(w: Wait, stream: seq<SnapMsg>, s: uint32)
    requires SentWhole(stream, s)
    ensures IsComplete(TakeSnaps(w, stream), s)
  {
    hide WholeAt, TakeSnaps, IsComplete;
    var i, k, b, a, n :| WholeAt(stream, s, i, k, b, a, n);
    WholeAtIsFlagged(w, stream, s, i, k, b, a, n);
  }

  lemma WholeAtIsFlagged(w: Wait, stream: seq<SnapMsg>, s: uint32, i: nat, k: nat, b: seq<Snap>, a: seq<Snap>, n: uint32)
    requires WholeAt(stream, s, i, k, b, a, n)
    ensures IsComplete(TakeSnaps(w, stream), s)
  {
    var rest := stream[i + 1..k];
    assert stream == stream[..i] + [stream[i]] + rest + stream[k..];
    assert (b + a)[..|b + a|] == b + a;
    hide TakeSnaps, TakeSnap, NoInfo, OrdersFor, IsComplete;
    var w0 := TakeSnaps(w, stream[..i]);
    TakeSnapsConcat(w, stream[..i] + [stream[i]] + rest, stream[k..]);
    TakeSnapsConcat(w, stream[..i] + [stream[i]], rest);
    TakeSnapsConcat(w, stream[..i], [stream[i]]);
    TakeOne(w0, stream[i]);
    CompletesWhenAllArrived(w0, b, a, s, n, rest, |b + a|);
    FlagStays(TakeSnaps(w, stream[..i] + [stream[i]] + rest), stream[k..], s);
  }

  /** What is taken of arrivals none of whose announcements is old is everything. */
  lemma {:induction false} EverythingTaken(parts: seq<seq<SnapMsg>>, arrivals: seq<Arrival>)
    requires AllTaken(parts, arrivals) && |parts| == |arrivals| && NoneOld(arrivals)
    ensures Flatten(parts) == Stream(arrivals)
  {
    if arrivals != [] {
      var n := |arrivals| - 1;
      var p, a := parts[..n], arrivals[..n];
      forall j | 0 <= j < n ensures TakenFrom(p[j], a[j], LiveOf(a[..j + 1])) && AllNew(Offered(a[j]), LiveOf(a[..j + 1])) {
        assert a[..j + 1] == arrivals[..j + 1];
        assert TakenFrom(parts[j], arrivals[j], LiveOf(arrivals[..j + 1])) && AllNew(Offered(arrivals[j]), LiveOf(arrivals[..j + 1]));
      }
      EverythingTaken(p, a);
      assert AllNew(Offered(arrivals[n]), LiveOf(arrivals[..n + 1]));
      assert TakenFrom(parts[n], arrivals[n], LiveOf(arrivals[..n + 1]));
      assert parts[n] == Offered(arrivals[n]);
    }
  }

  /**
   Once every symbol's snapshot has been sent whole, no announcement having been old, the wait is over: a client that took
   all it should of these arrivals, and stopped only when done, is done.
   */
  lemma WholeSnapshotsEndTheWait(symbols: seq<uint32>, arrivals: seq<Arrival>, parts: seq<seq<SnapMsg>>, done: bool)
    requires AllTaken(parts, arrivals) && (!done ==> |parts| == |arrivals|) && (done <==> AllFlagged(symbols, Flatten(parts)))
    requires NoneOld(arrivals) && forall s :: s in symbols ==> SentWhole(Stream(arrivals), s)
    ensures done
  {
    hide AllTaken, NoneOld, SentWhole, TakeSnaps, Stream, Flatten;
    if !done {
      EverythingTaken(parts, arrivals);
      forall i | 0 <= i < |symbols| ensures IsComplete(TakeSnaps(Waiting(set j | 0 <= j < |symbols| :: symbols[j]), Stream(arrivals)), symbols[i]) {
        WholeIsFlagged(Waiting(set j | 0 <= j < |symbols| :: symbols[j]), Stream(arrivals), symbols[i]);
      }
    }
  }

  class MDClient {
    var books: map<uint32, OrderBook>
    var orderToSymbol: map<uint64, uint32>
    var lastMd: uint32
    var liveBuffer: seq<Numbered>
    var snapshotBuffer: map<uint32, seq<Snap>>
    var snapshotComplete: map<uint32, bool>
    var lastSnapshot: uint32
    /** Every message taken since the snapshot. */
    ghost var taken: seq<Numbered>

    /** No two symbols share a book. */
    ghost predicate Valid()
      reads this`books
    {
      forall s, t :: s in books && t in books && s != t ==> books[s] != books[t]
    }

    ghost function States(): map<uint32, BookState>
      reads this`books, books.Values
    {
      map s | s in books :: books[s].State()
    }

    ghost function Contents(): Client
      reads this, books.Values
    {
      Client(States(), orderToSymbol, lastMd, taken)
    }

    constructor ()
      ensures Valid() && Contents() == Client(map[], map[], 0, []) && books == map[]
      ensures liveBuffer == [] && snapshotBuffer == map[] && lastSnapshot == 0
    {
      books, orderToSymbol, lastMd, taken := map[], map[], 0, [];
      liveBuffer, snapshotBuffer, snapshotComplete, lastSnapshot := [], map[], map[], 0;
    }

    /** A symbol without a book gets an empty one. */
    method MakeBook(s: uint32)
      requires Valid()
      modifies this`books
      ensures Valid() && s in books && fresh(books.Values - old(books.Values))
      ensures States() == if s in old(books) then old(States()) else old(States())[s := EMPTY_BOOK]
    {
      if s !in books {
        var made := new OrderBook();
        books := books[s := made];
      }
    }

    /** A message given to the book of its symbol. */
    method ToBook(symbol: uint32, msg: MdMsg)
      requires Valid() && symbol in books && !msg.MdSummary? && !msg.MdHeartbeat?
      modifies books[symbol]
      ensures Valid() && symbol in old(States()) && States() == old(States())[symbol := ApplyBook(old(States()[symbol]), msg)]
    {
      hide ApplyBook, OrderBook.State;
      var book := books[symbol];
      ghost var before := book.State();
      match msg {
        case MdNew(id, s, side, quantity, price, flags) => book.NewOrder(id, side, quantity, price, s, flags);
        case MdDelete(id) => book.DeleteOrder(id);
        case MdModify(id, side, quantity, price) => book.ModifyOrder(id, side, quantity, price);
        case MdTrade(id, quantity, price) => book.OrderTrade(id, quantity, price);
      }
      assert book.State() == ApplyBook(before, msg);
    }

    /** An order entered in its symbol's book, from the feed or from a snapshot. */
    method Enter(id: uint64, symbol: uint32, side: Side, quantity: uint32, price: int, flags: uint8)
      requires Valid()
      modifies this`books, this`orderToSymbol, books.Values
      ensures Valid() && fresh(books.Values - old(books.Values))
      ensures Contents() == Performed(old(Contents()), MdNew(id, symbol, side, quantity, price, flags))
    {
      hide ApplyBook, MDClient.States, MDClient.Valid;
      Known(symbol);
      ghost var before := States();
      var msg := MdNew(id, symbol, side, quantity, price, flags);
      MakeBook(symbol);
      ToBook(symbol, msg);
      assert States() == before[symbol := ApplyBook(if symbol in before then before[symbol] else EMPTY_BOOK, msg)];
      orderToSymbol := orderToSymbol[id := symbol];
    }

    lemma Known(s: uint32)
      ensures s in States() <==> s in books
    {}

    /** One message taken in sequence; false means the rest of the packet is dropped. */
    method Perform(msg: MdMsg) returns (placed: bool)
      requires Valid()
      modifies this`books, this`orderToSymbol, books.Values
      ensures Valid() && fresh(books.Values - old(books.Values))
      ensures Contents() == Performed(old(Contents()), msg)
      ensures placed <==> Located(old(Contents()), msg).Some?
    {
      hide ApplyBook, MDClient.States, MDClient.Valid;
      placed := true;
      match msg
      case MdNew(id, symbol, side, quantity, price, flags) =>
        Enter(id, symbol, side, quantity, price, flags);
      case MdDelete(id) =>
        var symbol := SymbolOf(id);
        Known(symbol);
        if symbol !in books {
          return false;
        }
        ToBook(symbol, msg);
      case MdModify(id, side, quantity, price) =>
        var symbol := SymbolOf(id);
        Known(symbol);
        if symbol !in books {
          return false;
        }
        ToBook(symbol, msg);
      case MdTrade(id, quantity, price) =>
        if id !in orderToSymbol {
          return false;
        }
        var symbol := orderToSymbol[id];
        Known(symbol);
        if symbol !in books {
          return false;
        }
        ToBook(symbol, msg);
      case MdSummary(symbol, _, _, _) =>
        Known(symbol);
        placed := symbol in books;
      case MdHeartbeat =>
    }

    /** operator[] of the index: an unknown order is entered under symbol 0. */
    method SymbolOf(id: uint64) returns (symbol: uint32)
      modifies this`orderToSymbol
      ensures orderToSymbol == if id in old(orderToSymbol) then old(orderToSymbol) else old(orderToSymbol)[id := 0]
      ensures symbol == orderToSymbol[id]
    {
      if id !in orderToSymbol {
        orderToSymbol := orderToSymbol[id := 0];
      }
      symbol := orderToSymbol[id];
    }

    /** One datagram, or what is left of the buffer. */
    method ProcessMessage(ms: seq<Numbered>)
      requires Valid()
      modifies this`books, this`orderToSymbol, this`lastMd, this`taken, books.Values
      ensures Valid() && fresh(books.Values - old(books.Values))
      ensures Contents() == ProcessPacket(old(Contents()), ms)
    {
      hide Performed, Located, MDClient.Valid, MDClient.States;
      ghost var start := Contents();
      var n := 0;
      assert ms[0..] == ms;
      while n < |ms|
        invariant 0 <= n <= |ms| && Valid() && fresh(books.Values - old(books.Values))
        invariant ProcessPacket(start, ms) == ProcessPacket(Contents(), ms[n..])
      {
        var m := ms[n];
        ghost var before := Contents();
        assert ms[n..][0] == m && ms[n..][1..] == ms[n + 1..];
        if m.seqNum > Wrap32(lastMd + 1) {
          return;
        }
        if m.seqNum > lastMd {
          var placed := Perform(m.msg);
          lastMd := m.seqNum;
          taken := taken + [m];
          assert Contents() == Digest(before, m);
          if !placed {
            return;
          }
        }
        n := n + 1;
      }
    }
  
    // ----- waiting for snapshots -----

    ghost function Waits(bidsDue: map<uint32, int>, asksDue: map<uint32, int>): Wait
      reads this`snapshotComplete, this`snapshotBuffer, this`lastSnapshot
    {
      Wait(bidsDue, asksDue, snapshotComplete, snapshotBuffer, lastSnapshot)
    }

    method TakeSnapshotMessage(m: SnapMsg, bids: map<uint32, int>, asks: map<uint32, int>)
      returns (bidsDue: map<uint32, int>, asksDue: map<uint32, int>)
      modifies this`snapshotComplete, this`snapshotBuffer, this`lastSnapshot
      ensures Waits(bidsDue, asksDue) == TakeSnap(old(Waits(bids, asks)), m)
    {
      bidsDue, asksDue := bids, asks;
      match m
      case Info(s, b, a, lastSeq) =>
        lastSnapshot := lastSeq;
        bidsDue, asksDue := bidsDue[s := b], asksDue[s := a];
        snapshotBuffer := snapshotBuffer[s := []];
        if bidsDue[s] == 0 && asksDue[s] == 0 {
          snapshotComplete := snapshotComplete[s := true];
        }
      case SnapOrder(e) =>
        var s := e.symbol;
        if e.side.Buy? {
          bidsDue := bidsDue[s := Due(bidsDue, s) - 1];
        } else {
          asksDue := asksDue[s := Due(asksDue, s) - 1];
        }
        var held := if s in snapshotBuffer then snapshotBuffer[s] else [];
        snapshotBuffer := snapshotBuffer[s := held + [e]];
        if Due(bidsDue, s) == 0 && Due(asksDue, s) == 0 {
          snapshotComplete := snapshotComplete[s := true];
        }
    }

    /** One snapshot datagram; `k` messages of it are accepted. */
    method TakeSnapshotPacket(ms: seq<SnapMsg>, bids: map<uint32, int>, asks: map<uint32, int>)
      returns (bidsDue: map<uint32, int>, asksDue: map<uint32, int>, k: nat)
      modifies this`snapshotComplete, this`snapshotBuffer, this`lastSnapshot
      ensures k == Accepted(ms, FirstLive(liveBuffer))
      ensures Waits(bidsDue, asksDue) == TakeSnapPacket(old(Waits(bids, asks)), ms, FirstLive(liveBuffer))
      ensures Waits(bidsDue, asksDue) == TakeSnaps(old(Waits(bids, asks)), ms[..k])
    {
      hide TakeSnap, Refuses, MDClient.Waits;
      var first := FirstLive(liveBuffer);
      ghost var start := Waits(bids, asks);
      bidsDue, asksDue, k := bids, asks, 0;
      assert ms[0..] == ms;
      while k < |ms|
        invariant 0 <= k <= |ms| && Accepted(ms, first) == k + Accepted(ms[k..], first)
        invariant TakeSnapPacket(start, ms, first) == TakeSnapPacket(Waits(bidsDue, asksDue), ms[k..], first)
      {
        assert ms[k..][0] == ms[k] && ms[k..][1..] == ms[k + 1..];
        if ms[k].Info? && ms[k].lastSeq <= first {
          assert Refuses(ms[k], first) by { Refused(ms[k], first); }
          break;
        }
        assert !Refuses(ms[k], first) by { Refused(ms[k], first); }
        bidsDue, asksDue := TakeSnapshotMessage(ms[k], bidsDue, asksDue);
        k := k + 1;
      }
      PacketIsAccepted(start, ms, first);
    }

    lemma Refused(m: SnapMsg, first: uint32)
      ensures Refuses(m, first) <==> m.Info? && m.lastSeq <= first
    {}

    /** The orders of the buffered snapshots, symbol by symbol. */
    method Load(symbols: seq<uint32>, ghost w: Wait)
      requires Valid() && w.buffers == snapshotBuffer
      modifies this`books, this`orderToSymbol, books.Values
      ensures Valid() && fresh(books.Values - old(books.Values))
      ensures Contents() == LoadAll(old(Contents()), w, symbols)
    {
      hide Loaded, MDClient.Valid, MDClient.Contents;
      var n := 0;
      while n < |symbols|
        invariant 0 <= n <= |symbols| && Valid() && fresh(books.Values - old(books.Values))
        invariant Contents() == LoadAll(old(Contents()), w, symbols[..n])
      {
        var s := symbols[n];
        LoadOne(if s in snapshotBuffer then snapshotBuffer[s] else []);
        assert symbols[..n + 1] == symbols[..n] + [s] && symbols[..n + 1][..n] == symbols[..n];
        n := n + 1;
      }
      assert symbols[..n] == symbols;
    }

    method LoadOne(v: seq<Snap>)
      requires Valid()
      modifies this`books, this`orderToSymbol, books.Values
      ensures Valid() && fresh(books.Values - old(books.Values))
      ensures Contents() == Loaded(old(Contents()), v)
    {
      hide ApplyBook, MDClient.Valid, MDClient.Contents;
      var n := 0;
      while n < |v|
        invariant 0 <= n <= |v| && Valid() && fresh(books.Values - old(books.Values))
        invariant Contents() == Loaded(old(Contents()), v[..n])
      {
        Enter(v[n].id, v[n].symbol, v[n].side, v[n].quantity, v[n].price, v[n].flags);
        assert v[..n + 1][..n] == v[..n];
        n := n + 1;
      }
      assert v[..n] == v;
    }

    /** The live buffer, offered from every offset beyond the snapshot. */
    method Drain()
      requires Valid()
      modifies this`books, this`orderToSymbol, this`lastMd, this`taken, this`liveBuffer, books.Values
      ensures Valid() && fresh(books.Values - old(books.Values)) && liveBuffer == []
      ensures Contents() == DrainBuffer(old(Contents()), old(liveBuffer), lastSnapshot)
    {
      hide ProcessPacket, MDClient.Valid, MDClient.States;
      ghost var start, buffer := Contents(), liveBuffer;
      while liveBuffer != []
        invariant Valid() && fresh(books.Values - old(books.Values))
        invariant DrainBuffer(start, buffer, lastSnapshot) == DrainBuffer(Contents(), liveBuffer, lastSnapshot)
        decreases |liveBuffer|
      {
        if liveBuffer[0].seqNum > lastSnapshot {
          ProcessMessage(liveBuffer);
        }
        liveBuffer := liveBuffer[1..];
      }
    }
  
    ghost predicate AllComplete(symbols: seq<uint32>)
      reads this`snapshotComplete
    {
      forall i :: 0 <= i < |symbols| ==> symbols[i] in snapshotComplete && snapshotComplete[symbols[i]]
    }

    method CheckComplete(symbols: seq<uint32>) returns (all: bool)
      ensures all <==> AllComplete(symbols)
    {
      var n := 0;
      while n < |symbols|
        invariant 0 <= n <= |symbols| && AllComplete(symbols[..n])
      {
        if symbols[n] !in snapshotComplete || !snapshotComplete[symbols[n]] {
          assert !AllComplete(symbols);
          return false;
        }
        n := n + 1;
      }
      assert symbols[..n] == symbols;
      return true;
    }

    /** The second half of the wait: the snapshots loaded, the cursor set, the live buffer worked off. */
    method Join(symbols: seq<uint32>, ghost w: Wait)
      requires Valid() && books == map[] && orderToSymbol == map[] && taken == [] && w.buffers == snapshotBuffer && w.cursor == lastSnapshot
      modifies this
      ensures Valid() && Contents() == Joined(w, symbols, old(liveBuffer))
    {
      hide LoadAll, DrainBuffer, MDClient.Valid, MDClient.States;
      Empty();
      lastMd := lastSnapshot;
      Load(symbols, w);
      Drain();
    }

    /**
     Buffer live data until every symbol's snapshot is complete, then load the snapshots and work off the buffer.
     `parts` is what was taken from the snapshot channel, arrival by arrival, `used` how many arrivals it took; without
     enough arrivals the client is still waiting.
     */
    method WaitForSnapshot(symbols: seq<uint32>, arrivals: seq<Arrival>) returns (done: bool, used: nat, ghost parts: seq<seq<SnapMsg>>)
      requires Valid() && books == map[] && orderToSymbol == map[] && taken == [] && liveBuffer == [] && snapshotBuffer == map[] && lastSnapshot == 0
      modifies this
      ensures Valid() && |parts| == used <= |arrivals| && AllTaken(parts, arrivals)
      ensures (done <==> AllFlagged(symbols, Flatten(parts))) && FirstFlagged(symbols, parts) && (!done ==> used == |arrivals|)
      ensures var w := TakeSnaps(Waiting(set i | 0 <= i < |symbols| :: symbols[i]), Flatten(parts));
        && (done ==> Contents() == Joined(w, symbols, LiveOf(arrivals[..used])))
        && OnlyNewer(Flatten(parts), LiveOf(arrivals[..used]))
        && (done && symbols != [] ==> LiveOf(arrivals[..used]) != [] && LiveOf(arrivals[..used])[0].seqNum < w.cursor)
    {
      ghost var heard: seq<SnapMsg>;
      hide AllTaken, TakenFrom, FirstFlagged, AllFlagged, Flatten, OnlyNewer, FirstLive, TakeSnaps, MDClient.Valid, MDClient.States, MDClient.AllComplete, LiveOf, TakeSnapPacket, Accepted, LoadAll, DrainBuffer;
      ghost var start := Waiting(set i | 0 <= i < |symbols| :: symbols[i]);
      var covered := set i | 0 <= i < |symbols| :: symbols[i];
      var bidsDue, asksDue := map s | s in covered :: -1, map s | s in covered :: -1;
      snapshotComplete := map s | s in covered :: false;
      heard, parts, used := [], [], 0;
      assert Waits(bidsDue, asksDue) == start;
      Unheard(start);
      UntakenYet(symbols, arrivals);
      FlaggedIs(symbols, [], bidsDue, asksDue);
      done := CheckComplete(symbols);
      while !done && used < |arrivals|
        invariant Valid() && books == map[] && orderToSymbol == map[] && taken == [] && 0 <= used <= |arrivals|
        invariant liveBuffer == LiveOf(arrivals[..used])
        invariant Waits(bidsDue, asksDue) == TakeSnaps(start, heard) && OnlyNewer(heard, liveBuffer)
        invariant |parts| == used && heard == Flatten(parts) && AllTaken(parts, arrivals) && FirstFlagged(symbols, parts)
        invariant (done <==> AllComplete(symbols)) && (done <==> AllFlagged(symbols, heard))
        decreases |arrivals| - used
      {
        var a := arrivals[used];
        assert arrivals[..used + 1] == arrivals[..used] + [a];
        LivePush(arrivals[..used], a);
        used := used + 1;
        if a.Nothing? {
          assert liveBuffer + [] == liveBuffer && heard + [] == heard;
          NothingTaken(a, liveBuffer);
          TakenPush(parts, arrivals, [], symbols);
          parts := parts + [[]];
          continue;
        }
        NewerGrows(heard, [], liveBuffer, a.live);
        liveBuffer := liveBuffer + a.live;
        if a.Live? {
          assert heard + [] == heard;
          NothingTaken(a, liveBuffer);
          TakenPush(parts, arrivals, [], symbols);
          parts := parts + [[]];
          continue;
        }
        var k;
        bidsDue, asksDue, k := TakeSnapshotPacket(a.snapshot, bidsDue, asksDue);
        TakeSnapsConcat(start, heard, a.snapshot[..k]);
        NewerGrows(heard, a.snapshot, liveBuffer, []);
        AcceptedIsTaken(a, liveBuffer);
        TakenPush(parts, arrivals, a.snapshot[..k], symbols);
        parts := parts + [a.snapshot[..k]];
        heard := heard + a.snapshot[..k];
        FlaggedIs(symbols, heard, bidsDue, asksDue);
        done := CheckComplete(symbols);
      }
      CompleteIs(symbols, bidsDue, asksDue);
      if done {
        ghost var w := Waits(bidsDue, asksDue);
        if symbols != [] {
          FlaggedIsNewer(covered, heard, symbols[0], liveBuffer);
        }
        Join(symbols, w);
      }
    }

    /**
     The wait over, the books are those of the whole log up to the last message received, if what was accepted is the
     whole snapshot of every symbol and none moved behind its own. That the buffer reaches back far enough needs no
     assumption: the refusal of old announcements has seen to it.
     */
    lemma WaitEndsRight(symbols: seq<uint32>, received: seq<Numbered>, heard: seq<SnapMsg>, hearings: map<uint32, Hearing>, a: nat, log: seq<MdMsg>)
      requires var w := TakeSnaps(Waiting(set i | 0 <= i < |symbols| :: symbols[i]), heard);
        && Contents() == Joined(w, symbols, received) && OnlyNewer(heard, received)
        && Unmoved(symbols, hearings, log, w.cursor)
      requires AllFresh(map[], log) && IsFeed(received, log, a)
      requires symbols != [] && DistinctSymbols(symbols) && AllDelivered(heard, symbols, hearings, log)
      ensures Aligned(Contents(), log, set i | 0 <= i < |symbols| :: symbols[i])
    {
      hide *;
      LateJoinExact(set i | 0 <= i < |symbols| :: symbols[i], heard, symbols, hearings, received, a, log);
    }

    /** The flags as the client has them. */
    lemma FlaggedIs(symbols: seq<uint32>, heard: seq<SnapMsg>, bidsDue: map<uint32, int>, asksDue: map<uint32, int>)
      requires Waits(bidsDue, asksDue) == TakeSnaps(Waiting(set i | 0 <= i < |symbols| :: symbols[i]), heard)
      ensures AllFlagged(symbols, heard) <==> AllComplete(symbols)
    {}

    lemma UntakenYet(symbols: seq<uint32>, arrivals: seq<Arrival>)
      ensures AllTaken([], arrivals) && FirstFlagged(symbols, []) && Flatten<SnapMsg>([]) == []
    {}

    lemma Unheard(w: Wait)
      ensures TakeSnaps(w, []) == w && LiveOf([]) == [] && OnlyNewer([], [])
    {}

    lemma Empty()
      requires books == map[]
      ensures States() == map[]
    {}

    lemma CompleteIs(symbols: seq<uint32>, bidsDue: map<uint32, int>, asksDue: map<uint32, int>)
      ensures AllComplete(symbols) <==> forall i :: 0 <= i < |symbols| ==> IsComplete(Waits(bidsDue, asksDue), symbols[i])
    {}
  }
}
