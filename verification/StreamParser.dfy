/** Reassembly of order entry messages from a byte stream that arrives in arbitrary pieces. */
module StreamParsers {
  import opened ExchangeTypes
  import opened Codec

  type Sock = int

  const VERSION: uint8 := 1
  const HEADER_BYTES: nat := 20
  const MAX_MESSAGE: nat := 52
  const MAX_PER_SECOND: nat := 1000
  const ONE_SECOND: nat := 1_000_000_000

  const NEW_ORDER: uint8 := 1
  const DELETE_ORDER: uint8 := 2
  const MODIFY_ORDER: uint8 := 3
  const LOGIN: uint8 := 99

  /** Bytes of the record a handler is given for each kind of request. */
  function RecordSize(kind: uint8): nat {
    if kind == NEW_ORDER then 42 else if kind == DELETE_ORDER then 28 else if kind == MODIFY_ORDER then 37 else 52
  }

  /** A handler call: the record is read from the front of the buffer, whatever length the header claims. */
  datatype Call = Call(kind: uint8, record: Bytes)

  datatype Status = Waiting | BadVersion | TooLarge | UnknownType | Stuck

  datatype Parsed = Parsed(calls: seq<Call>, left: Bytes, status: Status)

  function LengthOf(b: Bytes): nat
    requires |b| >= HEADER_BYTES
  {
    var high: int := b[1];
    b[0] + 0x100 * high
  }

  function KindOf(b: Bytes): uint8
    requires |b| >= HEADER_BYTES
  {
    b[2]
  }

  /** What the front of the buffer amounts to: `None` when a whole message of a known kind is there. */
  function Verdict(b: Bytes): (v: Option<Status>)
    ensures v != Some(Stuck) && (v.None? ==> |b| >= HEADER_BYTES && LengthOf(b) <= |b|)
  {
    if |b| < HEADER_BYTES then Some(Waiting)
    else if b[3] != VERSION then Some(BadVersion)
    else if LengthOf(b) > MAX_MESSAGE then Some(TooLarge)
    else if |b| < LengthOf(b) then Some(Waiting)
    else if KindOf(b) !in {NEW_ORDER, DELETE_ORDER, MODIFY_ORDER, LOGIN} then Some(UnknownType)
    else None
  }

  function CallAt(b: Bytes): Call
    requires |b| >= HEADER_BYTES
  {
    Call(KindOf(b), if RecordSize(KindOf(b)) <= |b| then b[..RecordSize(KindOf(b))] else b)
  }

  /** The reassembly loop. A claimed length of zero never leaves the buffer: the program would loop for ever. */
  function Reassemble(b: Bytes): Parsed
    decreases |b|
  {
    match Verdict(b)
    case Some(status) => Parsed([], b, status)
    case None =>
      if LengthOf(b) == 0 then Parsed([CallAt(b)], b, Stuck)
      else
        var r := Reassemble(b[LengthOf(b)..]);
        r.(calls := [CallAt(b)] + r.calls)
  }

  /**
   Every message the loop reaches claims at least the bytes its handler reads, except that the last may be short
   when nothing has come behind the bytes that make the loop look at it.
   */
  predicate SizedButLast(b: Bytes)
    decreases |b|
  {
    Verdict(b).None? ==>
      if RecordSize(KindOf(b)) <= LengthOf(b) then SizedButLast(b[LengthOf(b)..])
      else |b| == Max(HEADER_BYTES, LengthOf(b))
  }

  lemma VerdictGrows(a: Bytes, b: Bytes)
    ensures Verdict(a) != Some(Waiting) ==> Verdict(a + b) == Verdict(a)
    ensures Verdict(a).None? ==> LengthOf(a + b) == LengthOf(a) <= |a| && KindOf(a + b) == KindOf(a)
    ensures Verdict(a).None? ==> (a + b)[LengthOf(a)..] == a[LengthOf(a)..] + b
  {}

  /** What has been handled, then what is still to come. */
  function Behind(done: seq<Call>, r: Parsed): Parsed {
    r.(calls := done + r.calls)
  }

  lemma BehindMore(done: seq<Call>, call: Call, r: Parsed)
    ensures Behind(done, Behind([call], r)) == Behind(done + [call], r)
  {
    assert done + ([call] + r.calls) == (done + [call]) + r.calls;
  }

  /** The loop by its verdict on the front of the buffer. */
  lemma ByVerdict(b: Bytes)
    ensures Verdict(b).Some? ==> Reassemble(b) == Parsed([], b, Verdict(b).value) && SizedButLast(b)
    ensures Verdict(b).None? && RecordSize(KindOf(b)) <= LengthOf(b) ==>
      && SizedButLast(b) == SizedButLast(b[LengthOf(b)..])
      && Reassemble(b) == Behind([CallAt(b)], Reassemble(b[LengthOf(b)..]))
    ensures Verdict(b).None? && LengthOf(b) < RecordSize(KindOf(b)) ==>
      && (SizedButLast(b) <==> |b| == Max(HEADER_BYTES, LengthOf(b)))
      && Reassemble(b).calls != [] && Reassemble(b).calls[0] == CallAt(b)
    ensures Verdict(b).None? ==> |b| >= Max(HEADER_BYTES, LengthOf(b))
  {
    hide Verdict, CallAt;
  }

  lemma CallGrows(a: Bytes, b: Bytes)
    requires Verdict(a).None? && RecordSize(KindOf(a)) <= LengthOf(a)
    ensures CallAt(a + b) == CallAt(a)
  {
    hide Verdict;
    VerdictGrows(a, b);
  }

  /** What is parsed of a + b, given what is parsed of a. */
  function Then(r: Parsed, b: Bytes): Parsed {
    if r.status.Waiting? then Behind(r.calls, Reassemble(r.left + b)) else r.(left := r.left + b)
  }

  lemma BehindNothing(r: Parsed)
    ensures Behind([], r) == r
  {}

  /** What is left over is waiting: parsing it again adds nothing. */
  lemma {:induction false} LeftWaits(b: Bytes)
    requires Reassemble(b).status.Waiting?
    ensures Reassemble(Reassemble(b).left) == Parsed([], Reassemble(b).left, Waiting) && SizedButLast(Reassemble(b).left)
    decreases |b|
  {
    hide Verdict, CallAt, SizedButLast;
    ByVerdict(b);
    if Verdict(b).None? {
      LeftWaits(b[LengthOf(b)..]);
    }
  }

  lemma ThenNothing(b: Bytes)
    ensures Then(Reassemble(b), []) == Reassemble(b)
    ensures Reassemble(b).status.Waiting? ==> SizedButLast(Reassemble(b).left + [])
  {
    hide Reassemble, SizedButLast;
    var r := Reassemble(b);
    assert r.left + [] == r.left;
    if r.status.Waiting? {
      LeftWaits(b);
    }
  }

  /** More bytes behind what has been parsed change nothing of it; they are parsed behind what was left. */
  lemma {:induction false} Splits(a: Bytes, b: Bytes)
    requires SizedButLast(a + b)
    ensures SizedButLast(a) && (Reassemble(a).status.Waiting? ==> SizedButLast(Reassemble(a).left + b))
    ensures Reassemble(a + b) == Then(Reassemble(a), b)
    decreases |a|
  {
    hide Verdict, CallAt, SizedButLast, Reassemble;
    VerdictGrows(a, b);
    ByVerdict(a);
    ByVerdict(a + b);
    if Verdict(a).None? {
      if RecordSize(KindOf(a)) <= LengthOf(a) {
        Splits(a[LengthOf(a)..], b);
        CallGrows(a, b);
        var r := Reassemble(a[LengthOf(a)..]);
        if r.status.Waiting? {
          Associative([CallAt(a)], r.calls, Reassemble(r.left + b).calls);
        }
      } else {
        assert b == [] && a + b == a;
        ThenNothing(a);
      }
    } else if Verdict(a) == Some(Waiting) {
      BehindNothing(Reassemble(a + b));
    }
  }

  /** The loop always ends, waiting or at a fault, unless it reaches a whole message that claims no bytes. */
  lemma {:induction false} LoopEnds(b: Bytes)
    ensures var r := Reassemble(b);
      if r.status.Stuck? then Verdict(r.left).None? && LengthOf(r.left) == 0 else Verdict(r.left) == Some(r.status)
    decreases |b|
  {
    hide Verdict;
    if Verdict(b).None? && LengthOf(b) > 0 {
      LoopEnds(b[LengthOf(b)..]);
    }
  }

  // ----- deliveries -----

  /** One delivery; a socket that has been closed for a fault gets no more. */
  function Deliver(st: Parsed, chunk: Bytes): Parsed {
    if !st.status.Waiting? then st
    else Behind(st.calls, Reassemble(st.left + chunk))
  }

  function DeliverAll(chunks: seq<Bytes>): Parsed {
    if chunks == [] then Parsed([], [], Waiting) else Deliver(DeliverAll(chunks[..|chunks| - 1]), chunks[|chunks| - 1])
  }

  /**
   However the stream is cut up, the handler sees the same calls and the stream ends in the same state, with the same
   bytes left over, as if it had come in one piece.
   */
  lemma {:induction false} ChunkingIsInvisible(chunks: seq<Bytes>)
    requires SizedButLast(Flatten(chunks))
    ensures var r, whole := DeliverAll(chunks), Reassemble(Flatten(chunks));
      && r.calls == whole.calls && r.status == whole.status
      && (r.status.Waiting? ==> r.left == whole.left)
  {
    if chunks == [] {
      assert Verdict([]) == Some(Waiting);
    } else {
      hide SizedButLast, Reassemble;
      var n := |chunks| - 1;
      Splits(Flatten(chunks[..n]), chunks[n]);
      ChunkingIsInvisible(chunks[..n]);
    }
  }

  // ----- exactly when chunking is invisible -----

  lemma TwoDeliveries(a: Bytes, b: Bytes)
    ensures DeliverAll([a, b]) == Deliver(Reassemble(a), b)
  {
    hide Reassemble;
    assert [a, b][..1] == [a] && [a][..0] == [] && [] + a == a;
    BehindNothing(Reassemble(a));
    assert DeliverAll([a]) == Deliver(Parsed([], [], Waiting), a) == Reassemble(a);
  }

  /** A first call made by one delivery is the first of both. */
  lemma FirstCallStays(a: Bytes, b: Bytes)
    requires Reassemble(a).calls != []
    ensures Deliver(Reassemble(a), b).calls != [] && Deliver(Reassemble(a), b).calls[0] == Reassemble(a).calls[0]
  {
    hide Reassemble;
  }

  lemma DeliverBehind(call: Call, r: Parsed, b: Bytes)
    ensures Deliver(Behind([call], r), b) == Behind([call], Deliver(r, b))
  {
    if r.status.Waiting? {
      BehindMore([], call, r);
      Associative([call], r.calls, Reassemble(r.left + b).calls);
    }
  }

  /** Where the size condition fails there is a place to cut the stream that the handler can see. */
  lemma {:induction false} CutThatShows(s: Bytes) returns (a: Bytes, b: Bytes)
    requires !SizedButLast(s)
    ensures a + b == s && Deliver(Reassemble(a), b).calls != Reassemble(s).calls
    decreases |s|
  {
    hide Verdict, CallAt, SizedButLast, Reassemble, Deliver;
    ByVerdict(s);
    var n := LengthOf(s);
    if RecordSize(KindOf(s)) <= n {
      var a', b' := CutThatShows(s[n..]);
      a, b := s[..n] + a', b';
      assert a + b == s && a[n..] == a';
      SameFront(s, a);
      ByVerdict(a);
      DeliverBehind(CallAt(s), Reassemble(a'), b);
      assert Deliver(Reassemble(a), b).calls[1..] == Deliver(Reassemble(a'), b).calls;
      assert Reassemble(s).calls[1..] == Reassemble(s[n..]).calls;
    } else {
      var k := Max(HEADER_BYTES, n);
      a, b := s[..k], s[k..];
      SameFront(s, a);
      ByVerdict(a);
      FirstCallStays(a, b);
      ShorterRecord(s, k);
    }
  }

  /** A front long enough for its first message reads like the whole. */
  lemma SameFront(s: Bytes, a: Bytes)
    requires Verdict(s).None? && Max(HEADER_BYTES, LengthOf(s)) <= |a| <= |s| && a == s[..|a|]
    ensures Verdict(a).None? && LengthOf(a) == LengthOf(s) && KindOf(a) == KindOf(s)
    ensures RecordSize(KindOf(s)) <= |a| ==> CallAt(a) == CallAt(s)
  {}

  lemma ShorterRecord(s: Bytes, k: nat)
    requires |s| >= HEADER_BYTES && HEADER_BYTES <= k < |s| && k < RecordSize(KindOf(s))
    ensures CallAt(s[..k]) != CallAt(s)
  {
    assert |CallAt(s[..k]).record| == k;
  }

  /** Two deliveries show the handler what one does, wherever the stream is cut, exactly when the sizes are right. */
  lemma ChunkingExact(s: Bytes)
    ensures SizedButLast(s) <==> forall a, b :: a + b == s ==> DeliverAll([a, b]).calls == Reassemble(s).calls
  {
    hide SizedButLast, Reassemble, Deliver, DeliverAll;
    if SizedButLast(s) {
      forall a, b | a + b == s ensures DeliverAll([a, b]).calls == Reassemble(s).calls {
        JoinedTwo(a, b);
        ChunkingIsInvisible([a, b]);
      }
    } else {
      var a, b := CutThatShows(s);
      TwoDeliveries(a, b);
    }
  }

  lemma JoinedTwo(a: Bytes, b: Bytes)
    ensures Flatten([a, b]) == a + b
  {
    assert [a, b][..1] == [a] && [a][..0] == [] && [] + a == a;
    assert Flatten([a]) == a;
  }

  /** A delete that claims 20 bytes with more behind it: its handler is shown whatever has arrived. */
  lemma ShortMessageShows(s: Bytes)
    requires |s| > HEADER_BYTES && LengthOf(s) == HEADER_BYTES && KindOf(s) == DELETE_ORDER && s[3] == VERSION
    ensures exists a, b :: a + b == s && DeliverAll([a, b]).calls != Reassemble(s).calls
  {
    ChunkingExact(s);
    hide DeliverAll, Reassemble;
    assert !SizedButLast(s);
  }

  // ----- what the handler is called with -----

  /** The first four bytes of every message: its length in two bytes, low one first, its type and the version. */
  predicate Whole(m: Bytes) {
    && |m| >= 4 && m[0] + 0x100 * (m[1] as int) == |m| && m[3] == 1
    && (m[2] == 1 ==> |m| == 42) && (m[2] == 2 ==> |m| == 28) && (m[2] == 3 ==> |m| == 37) && (m[2] == 99 ==> |m| == 52)
    && m[2] in {1, 2, 3, 99}
  }

  ghost predicate AllWhole(ms: seq<Bytes>) {
    forall i :: 0 <= i < |ms| ==> Whole(ms[i])
  }

  /** One call for each message, of the kind its third byte says, with exactly its bytes. */
  ghost predicate CallsAre(calls: seq<Call>, ms: seq<Bytes>) {
    |calls| == |ms| && forall i :: 0 <= i < |ms| ==> |ms[i]| >= 4 && calls[i].kind == ms[i][2] && calls[i].record == ms[i]
  }

  lemma WholeIsCalled(m: Bytes, rest: Bytes)
    requires Whole(m)
    ensures Reassemble(m + rest) == Behind([Call(m[2], m)], Reassemble(rest))
    ensures SizedButLast(m + rest) == SizedButLast(rest)
  {
    var b := m + rest;
    assert Verdict(b).None? && LengthOf(b) == |m| == RecordSize(KindOf(b));
    assert b[|m|..] == rest && b[..|m|] == m;
    hide Verdict, Reassemble, SizedButLast;
    ByVerdict(b);
  }

  /** Whole messages in front of anything are handled one by one, and the rest as if they had not been there. */
  lemma {:induction false} WholeMessages(ms: seq<Bytes>, rest: Bytes) returns (calls: seq<Call>)
    requires AllWhole(ms)
    ensures CallsAre(calls, ms)
    ensures Reassemble(Flatten(ms) + rest) == Behind(calls, Reassemble(rest))
    ensures SizedButLast(Flatten(ms) + rest) == SizedButLast(rest)
  {
    hide Reassemble, SizedButLast, Whole;
    if ms == [] {
      calls := [];
      BehindNothing(Reassemble(rest));
      assert Flatten(ms) + rest == rest;
    } else {
      var n := |ms| - 1;
      var done := WholeMessages(ms[..n], ms[n] + rest);
      WholeIsCalled(ms[n], rest);
      WholeKind(ms[n]);
      var call := Call(ms[n][2], ms[n]);
      BehindMore(done, call, Reassemble(rest));
      Associative(Flatten(ms[..n]), ms[n], rest);
      calls := done + [call];
    }
  }

  lemma WholeKind(m: Bytes)
    requires Whole(m)
    ensures |m| >= 4
  {}

  /**
   A stream that is a sequence of whole messages, however it is cut up: the handler is called once for each, in order, of
   the kind its third byte says, with exactly its bytes, and nothing is left over.
   */
  lemma StreamIsHandled(chunks: seq<Bytes>, ms: seq<Bytes>)
    requires AllWhole(ms) && Flatten(chunks) == Flatten(ms)
    ensures var r := DeliverAll(chunks); CallsAre(r.calls, ms) && r.left == [] && r.status.Waiting?
  {
    assert Verdict([]) == Some(Waiting);
    assert Reassemble([]) == Parsed([], [], Waiting) && SizedButLast([]);
    hide Reassemble, DeliverAll, SizedButLast, AllWhole;
    var calls := WholeMessages(ms, []);
    assert Flatten(ms) + [] == Flatten(ms);
    assert calls + [] == calls;
    ChunkingIsInvisible(chunks);
  }

  /** Behind whole messages, what ends the stream: too few bytes to tell, a wrong version, too large a claim, too few bytes of it, or an unknown type. */
  lemma StreamEnds(ms: seq<Bytes>, rest: Bytes)
    requires AllWhole(ms)
    ensures var r := Reassemble(Flatten(ms) + rest);
      var length := if |rest| >= 20 then rest[0] + 0x100 * (rest[1] as int) else 0;
      && (|rest| < 20 || (rest[3] == 1 && |rest| < length <= 52) ==> r.status.Waiting? && CallsAre(r.calls, ms) && r.left == rest)
      && (|rest| >= 20 && rest[3] != 1 ==> r.status.BadVersion? && CallsAre(r.calls, ms))
      && (|rest| >= 20 && rest[3] == 1 && length > 52 ==> r.status.TooLarge? && CallsAre(r.calls, ms))
      && (|rest| >= 20 && rest[3] == 1 && length <= Min(52, |rest|) && rest[2] !in {1, 2, 3, 99} ==> r.status.UnknownType? && CallsAre(r.calls, ms))
  {
    var calls := WholeMessages(ms, rest);
    Turn(rest);
    assert calls + [] == calls;
    hide Reassemble, AllWhole, CallsAre;
  }

  // ----- the message window -----

  /** Time since a stamp, in unsigned 64-bit arithmetic. */
  predicate Old(stamp: uint64, now: uint64) {
    (now - stamp as int) % 0x1_0000_0000_0000_0000 > ONE_SECOND
  }

  function Prune(stamps: seq<uint64>, now: uint64): (r: seq<uint64>)
    ensures |r| <= |stamps|
    ensures r != [] ==> !Old(r[0], now)
    decreases |stamps|
  {
    if stamps != [] && Old(stamps[0], now) then Prune(stamps[1..], now) else stamps
  }

  /** A stream with the times of its recent messages; `flooded` once the window has tripped. */
  datatype Timed = Timed(parsed: Parsed, stamps: seq<uint64>, flooded: bool)

  function DeliverAt(st: Timed, chunk: Bytes, now: uint64): Timed {
    var stamps := Prune(st.stamps, now);
    if st.flooded || !st.parsed.status.Waiting? then st
    else if |stamps| > MAX_PER_SECOND then st.(stamps := stamps, flooded := true)
    else
      var parsed := Deliver(st.parsed, chunk);
      Timed(parsed, stamps + seq(|parsed.calls| - |st.parsed.calls|, _ => now), false)
  }

  function DeliverAllAt(chunks: seq<Bytes>, times: seq<uint64>): Timed
    requires |times| == |chunks|
  {
    if chunks == [] then Timed(Parsed([], [], Waiting), [], false)
    else
      var n := |chunks| - 1;
      DeliverAt(DeliverAllAt(chunks[..n], times[..n]), chunks[n], times[n])
  }

  /** As long as the window has not tripped the clock makes no difference. */
  lemma {:induction false} UnfloodedIsUntimed(chunks: seq<Bytes>, times: seq<uint64>)
    requires |times| == |chunks| && !DeliverAllAt(chunks, times).flooded
    ensures DeliverAllAt(chunks, times).parsed == DeliverAll(chunks)
  {
    hide Reassemble, Old;
    if chunks != [] {
      var n := |chunks| - 1;
      UnfloodedIsUntimed(chunks[..n], times[..n]);
    }
  }

  /** A stream of at most a thousand messages never trips the window, whatever the clock says. */
  lemma {:induction false} FewMessagesNeverFlood(chunks: seq<Bytes>, times: seq<uint64>)
    requires |times| == |chunks| && |DeliverAll(chunks).calls| <= MAX_PER_SECOND
    ensures var t := DeliverAllAt(chunks, times); !t.flooded && |t.stamps| <= |DeliverAll(chunks).calls|
  {
    hide Reassemble, Old;
    if chunks != [] {
      var n := |chunks| - 1;
      assert |DeliverAll(chunks[..n]).calls| <= |DeliverAll(chunks).calls|;
      FewMessagesNeverFlood(chunks[..n], times[..n]);
      UnfloodedIsUntimed(chunks[..n], times[..n]);
    }
  }

  // ----- when the window trips -----

  /** How many of these calls were made at most a second ago. */
  function Recent(stamps: seq<uint64>, now: uint64): nat {
    if stamps == [] then 0 else (if now - stamps[0] <= ONE_SECOND then 1 else 0) + Recent(stamps[1..], now)
  }

  /** A clock that does not run backwards. */
  ghost predicate Ticks(stamps: seq<uint64>, now: uint64) {
    && (forall i, j :: 0 <= i < j < |stamps| ==> stamps[i] <= stamps[j])
    && (forall i :: 0 <= i < |stamps| ==> stamps[i] <= now)
  }

  /** Pruning drops a front of stamps, all more than a second old, and what stays is all the recent ones. */
  lemma {:induction false} PruneKeepsRecent(stamps: seq<uint64>, now: uint64)
    requires Ticks(stamps, now)
    ensures |Prune(stamps, now)| == Recent(stamps, now) && Prune(stamps, now) == stamps[|stamps| - Recent(stamps, now)..]
    ensures forall i :: 0 <= i < |stamps| - Recent(stamps, now) ==> now - stamps[i] > ONE_SECOND
  {
    if stamps != [] {
      var t := stamps[1..];
      assert forall i {:trigger t[i]} :: 0 <= i < |t| ==> t[i] == stamps[i + 1];
      OldIs(stamps[0], now);
      if Old(stamps[0], now) {
        PruneKeepsRecent(t, now);
        assert forall i :: 0 < i < |stamps| ==> stamps[i] == t[i - 1];
      } else {
        AllRecent(stamps, now);
      }
    }
  }

  lemma OldIs(stamp: uint64, now: uint64)
    requires stamp <= now
    ensures Old(stamp, now) <==> now - stamp > ONE_SECOND
  {}

  lemma {:induction false} AllRecent(stamps: seq<uint64>, now: uint64)
    requires forall i :: 0 <= i < |stamps| ==> now - stamps[i] <= ONE_SECOND
    ensures Recent(stamps, now) == |stamps|
  {
    if stamps != [] {
      AllRecent(stamps[1..], now);
    }
  }

  lemma {:induction false} NoneRecent(stamps: seq<uint64>, more: seq<uint64>, now: uint64)
    requires forall i :: 0 <= i < |stamps| ==> now - stamps[i] > ONE_SECOND
    ensures Recent(stamps + more, now) == Recent(more, now)
  {
    if stamps != [] {
      assert (stamps + more)[1..] == stamps[1..] + more;
      NoneRecent(stamps[1..], more, now);
    } else {
      assert stamps + more == more;
    }
  }

  /** The time of every call made for a stream, delivery by delivery. */
  function CallTimes(chunks: seq<Bytes>, times: seq<uint64>): seq<uint64>
    requires |times| == |chunks|
  {
    if chunks == [] then []
    else
      var n := |chunks| - 1;
      CallTimes(chunks[..n], times[..n]) + seq(|DeliverAll(chunks).calls| - |DeliverAll(chunks[..n]).calls|, _ => times[n])
  }

  /** The stamps kept are the last of all the calls made, those dropped all more than a second old. */
  ghost predicate KeepsLast(stamps: seq<uint64>, all: seq<uint64>, now: uint64) {
    |stamps| <= |all| && stamps == all[|all| - |stamps|..] && forall i :: 0 <= i < |all| - |stamps| ==> now - all[i] > ONE_SECOND
  }

  lemma {:induction false} StampsKept(chunks: seq<Bytes>, times: seq<uint64>, now: uint64)
    requires |times| == |chunks| && Ticks(times, now) && !DeliverAllAt(chunks, times).flooded && DeliverAll(chunks).status.Waiting?
    ensures var all := CallTimes(chunks, times); Ticks(all, now) && KeepsLast(DeliverAllAt(chunks, times).stamps, all, now)
  {
    hide Reassemble, Old;
    if chunks != [] {
      var n := |chunks| - 1;
      var t, all := times[n], CallTimes(chunks[..n], times[..n]);
      var before := DeliverAllAt(chunks[..n], times[..n]);
      StampsKept(chunks[..n], times[..n], t);
      UnfloodedIsUntimed(chunks[..n], times[..n]);
      UnfloodedIsUntimed(chunks, times);
      PruneKept(before.stamps, all, t);
      KeptPush(Prune(before.stamps, t), all, |DeliverAll(chunks).calls| - |DeliverAll(chunks[..n]).calls|, t, now);
    }
  }

  lemma PruneKept(stamps: seq<uint64>, all: seq<uint64>, now: uint64)
    requires Ticks(all, now) && KeepsLast(stamps, all, now)
    ensures KeepsLast(Prune(stamps, now), all, now) && |Prune(stamps, now)| == Recent(all, now)
  {
    hide Prune, Recent;
    LastTicks(stamps, all, now);
    PruneKeepsRecent(stamps, now);
    NoneRecent(all[..|all| - |stamps|], stamps, now);
    LastOfLast(stamps, all, |stamps| - Recent(stamps, now), now);
  }

  lemma LastTicks(stamps: seq<uint64>, all: seq<uint64>, now: uint64)
    requires Ticks(all, now) && KeepsLast(stamps, all, now)
    ensures Ticks(stamps, now) && all == all[..|all| - |stamps|] + stamps
  {}

  lemma LastOfLast(stamps: seq<uint64>, all: seq<uint64>, k: nat, now: uint64)
    requires KeepsLast(stamps, all, now) && k <= |stamps| && forall i :: 0 <= i < k ==> now - stamps[i] > ONE_SECOND
    ensures KeepsLast(stamps[k..], all, now)
  {
    var d := |all| - |stamps|;
    assert stamps[k..] == all[d + k..];
    forall i | 0 <= i < d + k ensures now - all[i] > ONE_SECOND {
      if i >= d { assert all[i] == stamps[i - d]; }
    }
  }

  lemma KeptPush(stamps: seq<uint64>, all: seq<uint64>, n: nat, t: uint64, now: uint64)
    requires Ticks(all, t) && KeepsLast(stamps, all, t) && t <= now
    ensures var more := seq(n, _ => t); Ticks(all + more, now) && KeepsLast(stamps + more, all + more, now)
  {}

  /**
   With a clock that does not run backwards, a delivery is refused exactly when more than a thousand calls were made for
   its socket in the second before it.
   */
  lemma WindowTrips(chunks: seq<Bytes>, times: seq<uint64>, chunk: Bytes, now: uint64)
    requires |times| == |chunks| && Ticks(times, now) && !DeliverAllAt(chunks, times).flooded && DeliverAll(chunks).status.Waiting?
    ensures DeliverAllAt(chunks + [chunk], times + [now]).flooded <==> Recent(CallTimes(chunks, times), now) > 1000
  {
    hide Reassemble, Old, Prune, Recent;
    assert (chunks + [chunk])[..|chunks|] == chunks && (times + [now])[..|times|] == times;
    StampsKept(chunks, times, now);
    UnfloodedIsUntimed(chunks, times);
    PruneKept(DeliverAllAt(chunks, times).stamps, CallTimes(chunks, times), now);
  }

  // ----- the parser -----

  datatype Handled = Handled(sock: Sock, call: Call)

  function Tagged(sock: Sock, calls: seq<Call>): seq<Handled> {
    seq(|calls|, i requires 0 <= i < |calls| => Handled(sock, calls[i]))
  }

  class StreamParser {
    var partials: map<Sock, Bytes>
    var stamps: map<Sock, seq<uint64>>
    /** Calls made to the handler and sockets sent an error and closed, in order. */
    var handled: seq<Handled>
    var faults: seq<Sock>

    function Partial(sock: Sock): Bytes
      reads this`partials
    {
      if sock in partials then partials[sock] else []
    }

    function Stamps(sock: Sock): seq<uint64>
      reads this`stamps
    {
      if sock in stamps then stamps[sock] else []
    }

    constructor ()
      ensures partials == map[] && stamps == map[] && handled == [] && faults == []
    {
      partials, stamps, handled, faults := map[], map[], [], [];
    }

    method NewSocket(sock: Sock)
      modifies this`partials, this`stamps
      ensures partials == old(partials)[sock := []] && stamps == old(stamps)[sock := []]
    {
      partials := partials[sock := []];
      stamps := stamps[sock := []];
    }

    /** The handler is told as well. The message window survives the socket. */
    method SocketClosed(sock: Sock)
      modifies this`partials
      ensures partials == old(partials) - {sock}
    {
      partials := partials - {sock};
    }

    /**
     One delivery for a socket. `stuck` reports a message that claims no bytes at all, on which the program would
     loop for ever calling its handler.
     */
    method Parse(sock: Sock, chunk: Bytes, now: uint64) returns (stuck: bool)
      modifies this
      ensures forall other :: other != sock ==> Partial(other) == old(Partial(other)) && Stamps(other) == old(Stamps(other))
      ensures var recent := Prune(old(Stamps(sock)), now);
        if |recent| > MAX_PER_SECOND then
          && Partial(sock) == old(Partial(sock)) && Stamps(sock) == recent && !stuck
          && handled == old(handled) && faults == old(faults) + [sock]
        else
          var r := Reassemble(old(Partial(sock)) + chunk);
          && Partial(sock) == r.left && Stamps(sock) == recent + seq(|r.calls|, _ => now)
          && handled == old(handled) + Tagged(sock, r.calls) && (stuck <==> r.status.Stuck?)
          && faults == old(faults) + if r.status in {BadVersion, TooLarge, UnknownType} then [sock] else []
    {
      stuck := false;
      PruneStamps(sock, now);
      if |stamps[sock]| > MAX_PER_SECOND {
        faults := faults + [sock];
        return;
      }
      var partial, recent := (if sock in partials then partials[sock] else []) + chunk, stamps[sock];
      partial, recent, stuck := Loop(sock, partial, recent, now);
      partials, stamps := partials[sock := partial], stamps[sock := recent];
    }

    method PruneStamps(sock: Sock, now: uint64)
      modifies this`stamps
      ensures stamps == old(stamps)[sock := Prune(old(Stamps(sock)), now)]
    {
      hide Old;
      var recent := if sock in stamps then stamps[sock] else [];
      ghost var start := recent;
      while recent != [] && Old(recent[0], now)
        invariant Prune(start, now) == Prune(recent, now)
        decreases |recent|
      {
        recent := recent[1..];
      }
      stamps := stamps[sock := recent];
    }

    /** The loop over the socket's buffer and recent stamps. */
    method Loop(sock: Sock, buffer: Bytes, stamped: seq<uint64>, now: uint64) returns (partial: Bytes, recent: seq<uint64>, stuck: bool)
      modifies this`handled, this`faults
      ensures var r := Reassemble(buffer);
        && partial == r.left && recent == stamped + seq(|r.calls|, _ => now)
        && handled == old(handled) + Tagged(sock, r.calls) && (stuck <==> r.status.Stuck?)
        && faults == old(faults) + if r.status in {BadVersion, TooLarge, UnknownType} then [sock] else []
    {
      hide Reassemble, Verdict, CallAt;
      partial, recent, stuck := buffer, stamped, false;
      ghost var start := Reassemble(buffer);
      ghost var done: seq<Call> := [];
      assert stamped + seq(0, _ => now) == stamped;
      while |partial| >= HEADER_BYTES
        invariant faults == old(faults) && !stuck && recent == stamped + seq(|done|, _ => now)
        invariant handled == old(handled) + Tagged(sock, done)
        invariant start == Behind(done, Reassemble(partial))
        decreases |partial|
      {
        Turn(partial);
        if partial[3] != VERSION || LengthOf(partial) > MAX_MESSAGE {
          faults := faults + [sock];
          return;
        }
        if |partial| < LengthOf(partial) {
          return;
        }
        if KindOf(partial) !in {NEW_ORDER, DELETE_ORDER, MODIFY_ORDER, LOGIN} {
          faults := faults + [sock];
          return;
        }
        var call := CallAt(partial);
        handled := handled + [Handled(sock, call)];
        recent := recent + [now];
        assert Tagged(sock, done + [call]) == Tagged(sock, done) + [Handled(sock, call)];
        assert seq(|done| + 1, _ => now) == seq(|done|, _ => now) + [now];
        if LengthOf(partial) == 0 {
          return partial, recent, true;
        }
        BehindMore(done, call, Reassemble(partial[LengthOf(partial)..]));
        done := done + [call];
        partial := partial[LengthOf(partial)..];
      }
      Turn(partial);
    }
  }

  /** One turn of the loop, test by test. */
  lemma Turn(b: Bytes)
    ensures |b| < HEADER_BYTES ==> Reassemble(b) == Parsed([], b, Waiting)
    ensures |b| >= HEADER_BYTES && b[3] != VERSION ==> Reassemble(b) == Parsed([], b, BadVersion)
    ensures |b| >= HEADER_BYTES && b[3] == VERSION && LengthOf(b) > MAX_MESSAGE ==> Reassemble(b) == Parsed([], b, TooLarge)
    ensures |b| >= HEADER_BYTES && b[3] == VERSION && |b| < LengthOf(b) <= MAX_MESSAGE ==> Reassemble(b) == Parsed([], b, Waiting)
    ensures |b| >= HEADER_BYTES && b[3] == VERSION && LengthOf(b) <= MAX_MESSAGE && LengthOf(b) <= |b| ==>
      if KindOf(b) !in {NEW_ORDER, DELETE_ORDER, MODIFY_ORDER, LOGIN} then Reassemble(b) == Parsed([], b, UnknownType)
      else if LengthOf(b) == 0 then Reassemble(b) == Parsed([CallAt(b)], b, Stuck)
      else Reassemble(b) == Behind([CallAt(b)], Reassemble(b[LengthOf(b)..]))
  {
    hide CallAt;
  }
}
