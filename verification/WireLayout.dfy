/** The market data records byte by byte, as any reader of the wire finds them. */
module WireLayout {
  import opened ExchangeTypes
  import opened MarketData
  import opened Codec
  import SnapshotWriters
  import SnapshotAgreement

  // ----- little-endian numbers -----

  function Two(b: Bytes, at: nat): nat
    requires at + 2 <= |b|
  {
    b[at] + 0x100 * (b[at + 1] as int)
  }

  function Four(b: Bytes, at: nat): nat
    requires at + 4 <= |b|
  {
    Two(b, at) + 0x1_0000 * Two(b, at + 2)
  }

  function Eight(b: Bytes, at: nat): nat
    requires at + 8 <= |b|
  {
    Four(b, at) + 0x1_0000_0000 * Four(b, at + 4)
  }

  /** The number in the next so many bytes. */
  function Number(b: Bytes, at: nat, width: nat): nat
    requires at + width <= |b| && width in {1, 2, 4, 8}
  {
    if width == 1 then b[at] else if width == 2 then Two(b, at) else if width == 4 then Four(b, at) else Eight(b, at)
  }

  lemma {:induction false} GetSplits(a: Bytes, b: Bytes)
    ensures Get(a + b) == Get(a) + Range(|a|) * Get(b)
  {
    if a == [] {
      assert a + b == b;
    } else {
      assert (a + b)[1..] == a[1..] + b;
      GetSplits(a[1..], b);
      Distributes(a[0], Get(a[1..]), Range(|a| - 1), Get(b));
    }
  }

  lemma Distributes(x: int, y: int, r: int, z: int)
    ensures x + 0x100 * (y + r * z) == x + 0x100 * y + (0x100 * r) * z
  {}

  lemma GetTwo(b: Bytes, at: nat)
    requires at + 2 <= |b|
    ensures Get(b[at..at + 2]) == Two(b, at)
  {
    var c := b[at..at + 2];
    assert c[1..][1..] == [] && c[1..][0] == b[at + 1];
    assert Get(c[1..]) == b[at + 1] + 0x100 * Get([]);
  }

  lemma GetFour(b: Bytes, at: nat)
    requires at + 4 <= |b|
    ensures Get(b[at..at + 4]) == Four(b, at)
  {
    GetTwo(b, at);
    GetTwo(b, at + 2);
    Ranges();
    assert b[at..at + 4] == b[at..at + 2] + b[at + 2..at + 4];
    GetSplits(b[at..at + 2], b[at + 2..at + 4]);
  }

  lemma GetEight(b: Bytes, at: nat)
    requires at + 8 <= |b|
    ensures Get(b[at..at + 8]) == Eight(b, at)
  {
    GetFour(b, at);
    GetFour(b, at + 4);
    Ranges();
    assert b[at..at + 8] == b[at..at + 4] + b[at + 4..at + 8];
    GetSplits(b[at..at + 4], b[at + 4..at + 8]);
  }

  lemma GetNumber(b: Bytes, at: nat, width: nat)
    requires at + width <= |b| && width in {1, 2, 4, 8}
    ensures Get(b[at..at + width]) == Number(b, at, width)
  {
    if width == 1 {
      assert b[at..at + 1][1..] == [];
    } else if width == 2 {
      GetTwo(b, at);
    } else if width == 4 {
      GetFour(b, at);
    } else {
      GetEight(b, at);
    }
  }

  // ----- fields -----

  /** The fields of a record stand one behind the other, each a little-endian number of its width. */
  ghost predicate Fields(b: Bytes, at: nat, values: seq<nat>, widths: seq<nat>)
    decreases |widths|
  {
    && |values| == |widths|
    && (widths != [] ==>
        && widths[0] in {1, 2, 4, 8} && at + widths[0] <= |b| && Number(b, at, widths[0]) == values[0]
        && Fields(b, at + widths[0], values[1..], widths[1..]))
  }

  lemma FieldAt(pre: Bytes, x: nat, w: nat, behind: Bytes)
    requires w in {1, 2, 4, 8} && x < Range(w)
    ensures |pre| + w <= |pre + (Put(x, w) + behind)| && Number(pre + (Put(x, w) + behind), |pre|, w) == x
  {
    hide Range, Number;
    var b := pre + (Put(x, w) + behind);
    assert b[|pre|..] == Put(x, w) + behind;
    assert b[|pre|..|pre| + w] == b[|pre|..][..w] == Put(x, w);
    GetPut(x, w);
    GetNumber(b, |pre|, w);
  }

  lemma {:induction false} PackedFields(pre: Bytes, values: seq<nat>, widths: seq<nat>, rest: Bytes)
    requires InFields(values, widths) && forall i :: 0 <= i < |widths| ==> widths[i] in {1, 2, 4, 8}
    ensures Fields(pre + (Pack(values, widths) + rest), |pre|, values, widths)
    decreases |widths|
  {
    hide Range, Put, Number;
    if widths != [] {
      var w := widths[0];
      var first, more := Put(values[0], w), Pack(values[1..], widths[1..]);
      FieldAt(pre, values[0], w, more + rest);
      PackedFields(pre + first, values[1..], widths[1..], rest);
      assert Pack(values, widths) == first + more;
      hide Pack;
      Associative(first, more, rest);
      Associative(pre, first, more + rest);
    }
  }

  lemma HeaderWidths()
    ensures forall i :: 0 <= i < |HEADER| ==> HEADER[i] in {1, 2, 4, 8}
  {}

  lemma BodyWidthsKnown(kind: uint8)
    ensures forall i :: 0 <= i < |BodyWidths(kind)| ==> BodyWidths(kind)[i] in {1, 2, 4, 8}
  {}

  // ----- messages -----

  /** Every message: "GOIRISH!", its length, its number, the time, its type; then its own fields from byte 23 on. */
  lemma HeaderLayout(s: Stamped)
    ensures var b, m := Encode(s), s.message;
      && |b| >= 23 && b[..8] == [71, 79, 73, 82, 73, 83, 72, 33]
      && Two(b, 8) == |b| && Four(b, 10) == m.seqNum && Eight(b, 14) == s.timestamp
      && match m.msg
         case MdHeartbeat => b[22] == 0 && |b| == 23
         case MdNew(_, _, _, _, _, _) => b[22] == 1 && |b| == 45
         case MdDelete(_) => b[22] == 2 && |b| == 31
         case MdModify(_, _, _, _) => b[22] == 3 && |b| == 40
         case MdTrade(_, _, _) => b[22] == 4 && |b| == 39
         case MdSummary(_, _, _, _) => b[22] == 5 && |b| == 36
  {
    var m := s.message;
    Sizes();
    HeaderFits(s);
    HeaderWidths();
    var values, body := [SizeOf(TypeOf(m.msg)), m.seqNum, s.timestamp, TypeOf(m.msg)], Pack(Body(m.msg), BodyWidths(TypeOf(m.msg)));
    assert Encode(s) == MAGIC + Pack(values, HEADER) + body;
    Associative(MAGIC, Pack(values, HEADER), body);
    PackedFields(MAGIC, values, HEADER, body);
    hide Pack, Body, BodyWidths, SizeOf, Two, Four, Eight;
    FourFields(Encode(s), 8, values);
  }

  lemma FourFields(b: Bytes, at: nat, v: seq<nat>)
    requires |v| == 4 && Fields(b, at, v, [2, 4, 8, 1])
    ensures at + 15 <= |b| && Two(b, at) == v[0] && Four(b, at + 2) == v[1] && Eight(b, at + 6) == v[2] && b[at + 14] == v[3]
  {
    hide Two, Four, Eight;
    var w: seq<nat> := [2, 4, 8, 1];
    assert w[1..] == [4, 8, 1] && w[1..][1..] == [8, 1] && w[1..][1..][1..] == [1];
    assert Fields(b, at + 2, v[1..], w[1..]);
    assert Fields(b, at + 6, v[1..][1..], w[1..][1..]);
    assert Fields(b, at + 14, v[1..][1..][1..], w[1..][1..][1..]);
  }

  /** Buy is 1 and sell is 2. */
  function Code(side: Side): nat {
    if side.Buy? then 1 else 2
  }

  /** The fields of each kind of message, one behind the other from byte 23 on. */
  lemma BodyLayout(s: Stamped)
    ensures var b := Encode(s);
      match s.message.msg
      case MdHeartbeat => true
      case MdNew(id, symbol, side, quantity, price, flags) =>
        Fields(b, 23, [id, symbol, Code(side), quantity, Wrap32(price), flags], [8, 4, 1, 4, 4, 1])
      case MdDelete(id) => Fields(b, 23, [id], [8])
      case MdModify(id, side, quantity, price) => Fields(b, 23, [id, Code(side), quantity, Wrap32(price)], [8, 1, 4, 4])
      case MdTrade(id, quantity, price) => Fields(b, 23, [id, quantity, Wrap32(price)], [8, 4, 4])
      case MdSummary(symbol, aggressor, total, lastPrice) => Fields(b, 23, [symbol, Code(aggressor), total, Wrap32(lastPrice)], [4, 1, 4, 4])
  {
    BodyPacked(s);
    hide Encode, Fields, Wrap32;
  }

  lemma BodyPacked(s: Stamped)
    ensures Fields(Encode(s), 23, Body(s.message.msg), BodyWidths(TypeOf(s.message.msg)))
  {
    var m := s.message;
    Sizes();
    BodyFits(m.msg);
    BodyWidthsKnown(TypeOf(m.msg));
    var values := [SizeOf(TypeOf(m.msg)), m.seqNum, s.timestamp, TypeOf(m.msg)];
    var head, body := MAGIC + Pack(values, HEADER), Pack(Body(m.msg), BodyWidths(TypeOf(m.msg)));
    assert Encode(s) == head + body && |head| == 23;
    assert body + [] == body;
    hide *;
    PackedFields(head, Body(m.msg), BodyWidths(TypeOf(m.msg)), []);
  }

  /** What the snapshot writer counts for its messages: an order goes out as a new order message, an announcement as four more numbers of four bytes. */
  lemma SnapshotSizes(e: SnapshotWriters.Snap, s: uint32, bids: nat, asks: nat, lastSeq: uint32, at: uint64)
    ensures SnapshotWriters.Size(SnapshotWriters.SnapOrder(e)) == |Encode(Stamped(Numbered(0, SnapshotAgreement.EntryOf(e)), at))|
    ensures SnapshotWriters.Size(SnapshotWriters.Info(s, bids, asks, lastSeq)) == |Encode(Stamped(Numbered(0, MdHeartbeat), at))| + 4 * 4
  {
    Sizes();
    hide Encode;
  }
}
