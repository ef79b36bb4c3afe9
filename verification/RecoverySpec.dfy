/** The market data client as a value: following the live feed, waiting for snapshots, joining the two. */
module RecoverySpec {
  import opened ExchangeTypes
  import opened MarketData
  import opened OrderBooks
  import opened SnapshotWriters
  import opened SnapshotAgreement

  /** Books by symbol, the symbol of every order ever seen, the last number taken and all messages taken. */
  datatype Client = Client(books: map<uint32, BookState>, index: map<uint64, uint32>, last: uint32, taken: seq<Numbered>)

  function BookOf(c: Client, s: uint32): BookState {
    if s in c.books then c.books[s] else EMPTY_BOOK
  }

  // ----- following the feed -----

  /** The symbol whose book a message goes to; without one the rest of the packet is dropped. */
  function Located(c: Client, msg: MdMsg): Option<uint32> {
    match msg
    case MdNew(_, symbol, _, _, _, _) => Some(symbol)
    case MdDelete(id) => InIndex(c, if id in c.index then c.index[id] else 0)
    case MdModify(id, _, _, _) => InIndex(c, if id in c.index then c.index[id] else 0)
    case MdTrade(id, _, _) => if id in c.index then InIndex(c, c.index[id]) else None
    case MdSummary(symbol, _, _, _) => InIndex(c, symbol)
    case MdHeartbeat => Some(0)
  }

  function InIndex(c: Client, s: uint32): Option<uint32> {
    if s in c.books then Some(s) else None
  }

  /** Looking an unknown order up for a delete or an amend enters it under symbol 0. */
  function Indexed(c: Client, msg: MdMsg): map<uint64, uint32> {
    match msg
    case MdNew(id, symbol, _, _, _, _) => c.index[id := symbol]
    case MdDelete(id) => if id in c.index then c.index else c.index[id := 0]
    case MdModify(id, _, _, _) => if id in c.index then c.index else c.index[id := 0]
    case _ => c.index
  }

  function Performed(c: Client, msg: MdMsg): Client {
    var books := if Located(c, msg).None? || msg.MdSummary? || msg.MdHeartbeat? then c.books
                 else c.books[Located(c, msg).value := ApplyBook(BookOf(c, Located(c, msg).value), msg)];
    c.(books := books, index := Indexed(c, msg))
  }

  /** A message in sequence is taken whether or not it can be placed. */
  predicate Takes(c: Client, m: Numbered) {
    c.last < m.seqNum <= Wrap32(c.last + 1)
  }

  /** After this message the rest of the packet is not looked at. */
  predicate Stops(c: Client, m: Numbered) {
    m.seqNum > Wrap32(c.last + 1) || (Takes(c, m) && Located(c, m.msg).None?)
  }

  function Digest(c: Client, m: Numbered): Client {
    if Takes(c, m) then Performed(c, m.msg).(last := m.seqNum, taken := c.taken + [m]) else c
  }

  /** One datagram. */
  function ProcessPacket(c: Client, ms: seq<Numbered>): Client
    decreases |ms|
  {
    if ms == [] then c
    else if Stops(c, ms[0]) then Digest(c, ms[0])
    else ProcessPacket(Digest(c, ms[0]), ms[1..])
  }

  /** The buffered tail, offered again from every offset beyond the snapshot. */
  function DrainBuffer(c: Client, buffer: seq<Numbered>, cursor: uint32): Client
    decreases |buffer|
  {
    if buffer == [] then c
    else DrainBuffer(if buffer[0].seqNum <= cursor then c else ProcessPacket(c, buffer), buffer[1..], cursor)
  }

  // ----- waiting for snapshots -----

  /** Orders still due by side, whether a symbol is complete, its orders so far, and the one sequence cursor. */
  datatype Wait = Wait(bidsDue: map<uint32, int>, asksDue: map<uint32, int>, complete: map<uint32, bool>,
                       buffers: map<uint32, seq<Snap>>, cursor: uint32)

  function Due(m: map<uint32, int>, s: uint32): int {
    if s in m then m[s] else 0
  }

  function Buffer(w: Wait, s: uint32): seq<Snap> {
    if s in w.buffers then w.buffers[s] else []
  }

  predicate IsComplete(w: Wait, s: uint32) {
    s in w.complete && w.complete[s]
  }

  predicate Settled(w: Wait, s: uint32) {
    Due(w.bidsDue, s) == 0 && Due(w.asksDue, s) == 0
  }

  function Flagged(w: Wait, s: uint32): Wait {
    if Settled(w, s) then w.(complete := w.complete[s := true]) else w
  }

  /** The number of the first live message buffered; with none buffered, the largest there is. */
  function FirstLive(buffer: seq<Numbered>): uint32 {
    if buffer == [] then TWO32 - 1 else buffer[0].seqNum
  }

  /** A snapshot not newer than the first buffered live message is refused, with the rest of its packet. */
  predicate Refuses(m: SnapMsg, first: uint32) {
    m.Info? && m.lastSeq <= first
  }

  function TakeSnap(w: Wait, m: SnapMsg): Wait {
    match m
    case Info(s, bids, asks, lastSeq) =>
      Flagged(w.(cursor := lastSeq, bidsDue := w.bidsDue[s := bids], asksDue := w.asksDue[s := asks], buffers := w.buffers[s := []]), s)
    case SnapOrder(e) =>
      var s := e.symbol;
      var w1 := if e.side.Buy? then w.(bidsDue := w.bidsDue[s := Due(w.bidsDue, s) - 1])
                else w.(asksDue := w.asksDue[s := Due(w.asksDue, s) - 1]);
      Flagged(w1.(buffers := w1.buffers[s := Buffer(w1, s) + [e]]), s)
  }

  function TakeSnapPacket(w: Wait, ms: seq<SnapMsg>, first: uint32): Wait
    decreases |ms|
  {
    if ms == [] || Refuses(ms[0], first) then w else TakeSnapPacket(TakeSnap(w, ms[0]), ms[1..], first)
  }

  function Waiting(covered: set<uint32>): Wait {
    Wait(map s | s in covered :: -1, map s | s in covered :: -1, map s | s in covered :: false, map[], 0)
  }

  // ----- loading -----

  function Loaded(c: Client, v: seq<Snap>): Client
    decreases |v|
  {
    if v == [] then c
    else
      var n := |v| - 1;
      var c1 := Loaded(c, v[..n]);
      c1.(books := c1.books[v[n].symbol := ApplyBook(BookOf(c1, v[n].symbol), EntryOf(v[n]))], index := c1.index[v[n].id := v[n].symbol])
  }
}
