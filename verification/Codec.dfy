/** Little-endian packed records, and the market data messages laid out in them. */
module Codec {
  import opened ExchangeTypes
  import opened MarketData

  type Bytes = seq<uint8>

  // ----- fields -----

  function Range(width: nat): nat {
    if width == 0 then 1 else 0x100 * Range(width - 1)
  }

  function Put(x: nat, width: nat): (b: Bytes)
    ensures |b| == width
  {
    if width == 0 then [] else [x % 0x100] + Put(x / 0x100, width - 1)
  }

  function Get(b: Bytes): nat {
    if b == [] then 0 else b[0] + 0x100 * Get(b[1..])
  }

  lemma {:induction false} GetPut(x: nat, width: nat)
    requires x < Range(width)
    ensures Get(Put(x, width)) == x
  {
    if width > 0 {
      assert x / 0x100 < Range(width - 1);
      GetPut(x / 0x100, width - 1);
      assert Put(x, width)[1..] == Put(x / 0x100, width - 1);
    }
  }

  // ----- records -----

  function Total(widths: seq<nat>): nat {
    if widths == [] then 0 else widths[0] + Total(widths[1..])
  }

  /** Every value fits its field. */
  predicate InFields(values: seq<nat>, widths: seq<nat>) {
    |values| == |widths| && forall i :: 0 <= i < |values| ==> values[i] < Range(widths[i])
  }

  function Pack(values: seq<nat>, widths: seq<nat>): (b: Bytes)
    requires |values| == |widths|
    ensures |b| == Total(widths)
    decreases |widths|
  {
    if widths == [] then [] else Put(values[0], widths[0]) + Pack(values[1..], widths[1..])
  }

  function Unpack(b: Bytes, widths: seq<nat>): (values: seq<nat>)
    requires Total(widths) <= |b|
    ensures |values| == |widths|
    decreases |widths|
  {
    if widths == [] then [] else [Get(b[..widths[0]])] + Unpack(b[widths[0]..], widths[1..])
  }

  /** A packed record is read back whatever follows it. */
  lemma {:induction false} UnpackPack(values: seq<nat>, widths: seq<nat>, rest: Bytes)
    requires InFields(values, widths)
    ensures Unpack(Pack(values, widths) + rest, widths) == values
    decreases |widths|
  {
    if widths != [] {
      var b, w := Pack(values, widths) + rest, widths[0];
      assert b[..w] == Put(values[0], w);
      assert b[w..] == Pack(values[1..], widths[1..]) + rest;
      GetPut(values[0], w);
      UnpackPack(values[1..], widths[1..], rest);
    }
  }

  lemma {:induction false} TotalConcat(a: seq<nat>, b: seq<nat>)
    ensures Total(a + b) == Total(a) + Total(b)
    decreases |a|
  {
    if a == [] {
      assert a + b == b;
    } else {
      assert (a + b)[1..] == a[1..] + b;
      TotalConcat(a[1..], b);
    }
  }

  // ----- market data messages -----

  /** "GOIRISH!" read as a number. */
  const MAGIC: Bytes := [71, 79, 73, 82, 73, 83, 72, 33]

  /** length, seq_num, timestamp and msg_type, behind the eight bytes of the magic number. */
  const HEADER: seq<nat> := [2, 4, 8, 1]

  const HEADER_SIZE: nat := 23

  /** A numbered message with the time it was written. */
  datatype Stamped = Stamped(message: Numbered, timestamp: uint64)

  function TypeOf(m: MdMsg): uint8 {
    match m
    case MdHeartbeat => 0
    case MdNew(_, _, _, _, _, _) => 1
    case MdDelete(_) => 2
    case MdModify(_, _, _, _) => 3
    case MdTrade(_, _, _) => 4
    case MdSummary(_, _, _, _) => 5
  }

  function BodyWidths(kind: uint8): seq<nat> {
    if kind == 1 then [8, 4, 1, 4, 4, 1]
    else if kind == 2 then [8]
    else if kind == 3 then [8, 1, 4, 4]
    else if kind == 4 then [8, 4, 4]
    else if kind == 5 then [4, 1, 4, 4]
    else []
  }

  function SizeOf(kind: uint8): nat {
    HEADER_SIZE + Total(BodyWidths(kind))
  }

  lemma Sizes()
    ensures SizeOf(0) == 23 && SizeOf(1) == 45 && SizeOf(2) == 31 && SizeOf(3) == 40 && SizeOf(4) == 39 && SizeOf(5) == 36
    ensures Total(HEADER) == 15 == HEADER_SIZE - 8
  {}

  function SideByte(s: Side): nat {
    if s.Buy? then 1 else 2
  }

  function SideFrom(b: nat): Side {
    if b == 1 then Buy else Sell
  }

  function Body(m: MdMsg): (values: seq<nat>)
    ensures |values| == |BodyWidths(TypeOf(m))|
  {
    match m
    case MdHeartbeat => []
    case MdNew(id, symbol, side, quantity, price, flags) => [id, symbol, SideByte(side), quantity, Wrap32(price), flags]
    case MdDelete(id) => [id]
    case MdModify(id, side, quantity, price) => [id, SideByte(side), quantity, Wrap32(price)]
    case MdTrade(id, quantity, price) => [id, quantity, Wrap32(price)]
    case MdSummary(symbol, aggressor, total, lastPrice) => [symbol, SideByte(aggressor), total, Wrap32(lastPrice)]
  }

  function FromBody(kind: uint8, v: seq<nat>): Option<MdMsg>
    requires |v| == |BodyWidths(kind)|
  {
    if kind == 0 then Some(MdHeartbeat)
    else if kind == 1 then Some(MdNew(Id(v[0]), Wrap32(v[1]), SideFrom(v[2]), Wrap32(v[3]), Signed32(v[4]), v[5] % 0x100))
    else if kind == 2 then Some(MdDelete(Id(v[0])))
    else if kind == 3 then Some(MdModify(Id(v[0]), SideFrom(v[1]), Wrap32(v[2]), Signed32(v[3])))
    else if kind == 4 then Some(MdTrade(Id(v[0]), Wrap32(v[1]), Signed32(v[2])))
    else if kind == 5 then Some(MdSummary(Wrap32(v[0]), SideFrom(v[1]), Wrap32(v[2]), Signed32(v[3])))
    else None
  }

  function Id(x: nat): uint64 {
    x % 0x1_0000_0000_0000_0000
  }

  /** Prices that are 32-bit signed numbers. */
  predicate Sendable(m: MdMsg) {
    match m
    case MdNew(_, _, _, _, price, _) => Signed32(price) == price
    case MdModify(_, _, _, price) => Signed32(price) == price
    case MdTrade(_, _, price) => Signed32(price) == price
    case MdSummary(_, _, _, price) => Signed32(price) == price
    case _ => true
  }

  lemma Ranges()
    ensures Range(1) == 0x100 && Range(2) == 0x1_0000 && Range(4) == TWO32 && Range(8) == 0x1_0000_0000_0000_0000
  {
    assert Range(1) == 0x100 * Range(0);
    assert Range(2) == 0x100 * Range(1);
    assert Range(3) == 0x100 * Range(2);
    assert Range(4) == 0x100 * Range(3);
    assert Range(5) == 0x100 * Range(4);
    assert Range(6) == 0x100 * Range(5);
    assert Range(7) == 0x100 * Range(6);
  }

  lemma BodyFits(m: MdMsg)
    ensures InFields(Body(m), BodyWidths(TypeOf(m)))
  {
    Ranges();
    hide Range, Wrap32;
  }

  lemma BodyRoundTrip(m: MdMsg)
    requires Sendable(m)
    ensures FromBody(TypeOf(m), Body(m)) == Some(m)
  {
    hide Range;
    forall x ensures Signed32(Wrap32(x)) == Signed32(x) {
      ConversionsCongruent(x);
      CongruentConvert(Wrap32(x), x);
    }
  }

  /** A message on the wire. */
  function Encode(s: Stamped): (b: Bytes)
    ensures |b| == SizeOf(TypeOf(s.message.msg))
  {
    var m := s.message;
    Sizes();
    MAGIC + Pack([SizeOf(TypeOf(m.msg)), m.seqNum, s.timestamp, TypeOf(m.msg)], HEADER) + Pack(Body(m.msg), BodyWidths(TypeOf(m.msg)))
  }

  /** What a reader makes of the front of a packet: a message and how far it says it reaches. */
  datatype Decoded = Decoded(message: Numbered, length: nat)

  function Decode(b: Bytes): Option<Decoded> {
    Sizes();
    if |b| < HEADER_SIZE || b[..8] != MAGIC then None
    else
      var h := Unpack(b[8..], HEADER);
      var kind := h[3] % 0x100;
      if |b| < SizeOf(kind) then None
      else
        match FromBody(kind, Unpack(b[HEADER_SIZE..], BodyWidths(kind)))
        case None => None
        case Some(m) => Some(Decoded(Numbered(Wrap32(h[1]), m), h[0]))
  }

  lemma HeaderFits(s: Stamped)
    ensures InFields([SizeOf(TypeOf(s.message.msg)), s.message.seqNum, s.timestamp, TypeOf(s.message.msg)], HEADER)
  {
    Ranges();
    Sizes();
    hide Range, SizeOf;
  }

  /** What decoding looks at. */
  lemma DecodeWhen(b: Bytes, length: nat, seqNum: uint32, timestamp: nat, kind: uint8, m: MdMsg)
    requires HEADER_SIZE <= SizeOf(kind) <= |b| && b[..8] == MAGIC
    requires Total(HEADER) == 15 && Unpack(b[8..], HEADER) == [length, seqNum, timestamp, kind]
    requires Total(BodyWidths(kind)) <= |b| - HEADER_SIZE && FromBody(kind, Unpack(b[HEADER_SIZE..], BodyWidths(kind))) == Some(m)
    ensures Decode(b) == Some(Decoded(Numbered(seqNum, m), length))
  {
    hide Unpack, FromBody, BodyWidths;
  }

  lemma Encoded(s: Stamped, rest: Bytes)
    ensures var m := s.message; var kind := TypeOf(m.msg);
      var header := [SizeOf(kind), m.seqNum, s.timestamp, kind];
      var b := Encode(s) + rest;
      && Total(HEADER) == 15 && |b| >= SizeOf(kind) >= HEADER_SIZE && b[..8] == MAGIC
      && b[8..] == Pack(header, HEADER) + (Pack(Body(m.msg), BodyWidths(kind)) + rest)
      && b[HEADER_SIZE..] == Pack(Body(m.msg), BodyWidths(kind)) + rest
  {
    Sizes();
    hide Pack, Body, BodyWidths, TypeOf;
    assert Total(HEADER) == 15;
  }

  /** An encoded message is decoded exactly, with its length, whatever follows it. */
  lemma DecodeEncode(s: Stamped, rest: Bytes)
    requires Sendable(s.message.msg)
    ensures Decode(Encode(s) + rest) == Some(Decoded(s.message, SizeOf(TypeOf(s.message.msg))))
  {
    hide *;
    var m := s.message;
    var kind := TypeOf(m.msg);
    Encoded(s, rest);
    HeaderFits(s);
    BodyFits(m.msg);
    BodyRoundTrip(m.msg);
    UnpackPack([SizeOf(kind), m.seqNum, s.timestamp, kind], HEADER, Pack(Body(m.msg), BodyWidths(kind)) + rest);
    UnpackPack(Body(m.msg), BodyWidths(kind), rest);
    DecodeWhen(Encode(s) + rest, SizeOf(kind), m.seqNum, s.timestamp, kind, m.msg);
  }

  // ----- packets -----

  function EncodeAll(ms: seq<Stamped>): Bytes {
    if ms == [] then [] else EncodeAll(ms[..|ms| - 1]) + Encode(ms[|ms| - 1])
  }

  function Plain(ms: seq<Stamped>): seq<Numbered> {
    seq(|ms|, i requires 0 <= i < |ms| => ms[i].message)
  }

  /** Messages of a packet, each found where the one before says it ends. */
  function Parse(b: Bytes): seq<Numbered>
    decreases |b|
  {
    var d := Decode(b);
    if d.None? || d.value.length == 0 || d.value.length > |b| then []
    else [d.value.message] + Parse(b[d.value.length..])
  }

  predicate AllSendable(ms: seq<Stamped>) {
    forall i :: 0 <= i < |ms| ==> Sendable(ms[i].message.msg)
  }

  lemma EncodePush(ms: seq<Stamped>, s: Stamped)
    ensures EncodeAll(ms + [s]) == EncodeAll(ms) + Encode(s)
  {
    hide Encode;
    assert (ms + [s])[..|ms|] == ms;
  }

  lemma EncodeNone()
    ensures EncodeAll([]) == []
  {}

  lemma {:induction false} EncodeConcat(a: seq<Stamped>, b: seq<Stamped>)
    ensures EncodeAll(a + b) == EncodeAll(a) + EncodeAll(b)
  {
    hide *;
    if b == [] {
      EncodeNone();
      assert a + b == a && EncodeAll(a) + [] == EncodeAll(a);
    } else {
      var t, s := b[..|b| - 1], b[|b| - 1];
      EncodeConcat(a, t);
      EncodePush(t, s);
      EncodePush(a + t, s);
      Associative(EncodeAll(a), EncodeAll(t), Encode(s));
      Associative(a, t, [s]);
      assert b == t + [s];
    }
  }

  lemma ParseStep(b: Bytes, d: Decoded)
    requires Decode(b) == Some(d) && 0 < d.length <= |b|
    ensures Parse(b) == [d.message] + Parse(b[d.length..])
  {
    hide Decode;
  }

  /** A packet read by header length gives back its messages in order. */
  lemma {:induction false} ParseEncode(ms: seq<Stamped>)
    requires AllSendable(ms)
    ensures Parse(EncodeAll(ms)) == Plain(ms)
    decreases |ms|
  {
    if ms == [] {
      assert Decode([]).None?;
    } else {
      var s, t := ms[0], ms[1..];
      assert ms == [s] + t && Plain(ms) == [s.message] + Plain(t);
      assert Sendable(s.message.msg) && AllSendable(t);
      EncodePush([], s);
      assert EncodeAll([]) == [] && [] + [s] == [s] && [] + Encode(s) == Encode(s);
      assert SizeOf(TypeOf(s.message.msg)) > 0;
      hide *;
      EncodeConcat([s], t);
      DecodeEncode(s, EncodeAll(t));
      ParseEncode(t);
      var b := Encode(s) + EncodeAll(t);
      ParseStep(b, Decoded(s.message, SizeOf(TypeOf(s.message.msg))));
      assert b[SizeOf(TypeOf(s.message.msg))..] == EncodeAll(t);
    }
  }
}
