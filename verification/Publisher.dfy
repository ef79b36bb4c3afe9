/** The market data publisher: messages packed into a fixed buffer, numbered and sent as packets. */
module Publishers {
  import opened ExchangeTypes
  import opened MarketData
  import opened Codec

  function Messages(ms: seq<Stamped>): seq<MdMsg> {
    seq(|ms|, i requires 0 <= i < |ms| => ms[i].message.msg)
  }

  /** Consecutive numbers from zero, as a 32-bit counter gives them. */
  ghost predicate InSequence(ms: seq<Stamped>) {
    forall i :: 0 <= i < |ms| ==> ms[i].message.seqNum == Wrap32(i)
  }

  /** Every packet is its messages, one after the other. */
  ghost predicate Carries(sent: seq<Bytes>, packets: seq<seq<Stamped>>) {
    |sent| == |packets| && forall i :: 0 <= i < |sent| ==> sent[i] == EncodeAll(packets[i]) && packets[i] != [] && |sent[i]| <= PACKET_SIZE
  }

  lemma MessagesPush(ms: seq<Stamped>, s: Stamped)
    ensures Messages(ms + [s]) == Messages(ms) + [s.message.msg]
  {}

  class MarketDataPublisher {
    const buffer: array<uint8>
    var bufferSize: nat
    var seqNum: uint32
    var queuedTrades: seq<MdMsg>
    /** Datagrams handed to the network. */
    var sent: seq<Bytes>
    /** The messages of every packet sent, and of the one being filled. */
    ghost var packets: seq<seq<Stamped>>
    ghost var filling: seq<Stamped>

    ghost function Written(): seq<Stamped>
      reads this`packets, this`filling
    {
      Flatten(packets) + filling
    }

    /** The buffer holds the messages being filled, the packets those before, numbered without a gap. */
    ghost predicate Valid()
      reads this, buffer
    {
      && buffer.Length == PACKET_SIZE && bufferSize <= PACKET_SIZE
      && buffer[..bufferSize] == EncodeAll(filling)
      && Carries(sent, packets)
      && InSequence(Written()) && seqNum == Wrap32(|Written()|)
      && AllTrades(queuedTrades)
    }

    ghost predicate AllTrades(ms: seq<MdMsg>) {
      forall i :: 0 <= i < |ms| ==> ms[i].MdTrade?
    }

    constructor ()
      ensures Valid() && fresh(buffer) && Written() == [] && filling == [] && queuedTrades == [] && sent == []
    {
      buffer := new uint8[PACKET_SIZE](_ => 0);
      bufferSize, seqNum, queuedTrades, sent := 0, 0, [], [];
      packets, filling := [], [];
    }

    /** Hand the buffer over; an empty one is not sent. */
    method Send()
      requires Valid()
      modifies this`sent, this`bufferSize, this`packets, this`filling
      ensures Valid() && filling == [] && bufferSize == 0 && Written() == old(Written())
      ensures sent == if old(filling) == [] then old(sent) else old(sent) + [EncodeAll(old(filling))]
    {
      hide EncodeAll;
      EncodeSize(filling);
      if bufferSize == 0 {
        return;
      }
      FlattenPush(packets, filling);
      EncodeNone();
      assert Flatten(packets + [filling]) + [] == Flatten(packets) + filling;
      sent := sent + [buffer[..bufferSize]];
      packets := packets + [filling];
      bufferSize, filling := 0, [];
    }

    lemma EncodeSize(ms: seq<Stamped>)
      ensures EncodeAll(ms) == [] <==> ms == []
    {
      hide Encode;
      if ms != [] {
        Sizes();
        assert |Encode(ms[|ms| - 1])| >= HEADER_SIZE;
      }
    }

    /** Append one message under the next number, sending the buffer first when it would not fit. */
    method WriteMsg(m: MdMsg) returns (ghost timestamp: uint64)
      requires Valid()
      modifies this`sent, this`bufferSize, this`packets, this`filling, this`seqNum, buffer
      ensures Valid() && filling != []
      ensures Written() == old(Written()) + [Stamped(Numbered(old(seqNum), m), timestamp)]
      ensures old(sent) <= sent
    {
      hide Encode, EncodeAll, InSequence, Carries, Flatten, SizeOf, TypeOf;
      var size := SizeOf(TypeOf(m));
      SizeBounds(m);
      if bufferSize + size > PACKET_SIZE {
        Send();
      }
      var now: uint64 := *;
      timestamp := now;
      var s := Stamped(Numbered(seqNum, m), now);
      Copy(Encode(s));
      EncodePush(filling, s);
      Associative(Flatten(packets), filling, [s]);
      SequencePush(Written(), s);
      bufferSize := bufferSize + size;
      seqNum := Wrap32(seqNum + 1);
      filling := filling + [s];
    }

    /** memcpy to the end of what the buffer holds. */
    method Copy(bytes: Bytes)
      requires bufferSize + |bytes| <= buffer.Length
      modifies buffer
      ensures buffer[..bufferSize + |bytes|] == old(buffer[..bufferSize]) + bytes
    {
      forall i | 0 <= i < |bytes| {
        buffer[bufferSize + i] := bytes[i];
      }
    }

    lemma SizeBounds(m: MdMsg)
      ensures HEADER_SIZE <= SizeOf(TypeOf(m)) <= 45
    {
      Sizes();
    }

    lemma SequencePush(ms: seq<Stamped>, s: Stamped)
      requires InSequence(ms) && s.message.seqNum == Wrap32(|ms|)
      ensures InSequence(ms + [s]) && Wrap32(s.message.seqNum + 1) == Wrap32(|ms + [s]|)
    {
      Successor(|ms|);
    }

    lemma Successor(n: nat)
      ensures Wrap32(Wrap32(n) + 1) == Wrap32(n + 1)
    {
      var k := n / TWO32;
      assert n == TWO32 * k + n % TWO32;
      assert n + 1 == TWO32 * k + (n % TWO32 + 1);
    }

    /** New, delete and modify messages and heartbeats go out at once. */
    method Publish(m: MdMsg)
      requires Valid() && filling == []
      modifies this`sent, this`bufferSize, this`packets, this`filling, this`seqNum, buffer
      ensures Valid() && filling == [] && old(sent) <= sent
      ensures Messages(Written()) == Messages(old(Written())) + [m]
    {
      hide MarketDataPublisher.Valid, MarketDataPublisher.Written;
      ghost var now := WriteMsg(m);
      MessagesPush(old(Written()), Stamped(Numbered(old(seqNum), m), now));
      Send();
    }

    method QueueTrade(id: uint64, quantity: uint32, price: int)
      requires Valid()
      modifies this`queuedTrades
      ensures Valid() && queuedTrades == old(queuedTrades) + [MdTrade(id, quantity, price)]
    {
      queuedTrades := queuedTrades + [MdTrade(id, quantity, price)];
    }
  
    /** The held-back trades behind their summary: the total they come to and the price of the last. */
    method PublishQueuedTrades(symbol: uint32, aggressor: Side)
      requires Valid() && filling == []
      modifies this`sent, this`bufferSize, this`packets, this`filling, this`seqNum, this`queuedTrades, buffer
      ensures Valid() && filling == [] && queuedTrades == [] && old(sent) <= sent
      ensures old(AllTrades(queuedTrades)) && Messages(Written()) == Messages(old(Written())) + WithSummary(symbol, aggressor, old(queuedTrades))
    {
      hide EncodeAll, Carries, InSequence, Encode, MarketDataPublisher.Written;
      var ms := Summarise(symbol, aggressor, queuedTrades);
      if ms == [] {
        assert Messages(Written()) + [] == Messages(Written());
        return;
      }
      WriteTrades(ms);
      queuedTrades := [];
      Send();
    }

    /** Several messages in a row. */
    method WriteTrades(ms: seq<MdMsg>)
      requires Valid()
      modifies this`sent, this`bufferSize, this`packets, this`filling, this`seqNum, buffer
      ensures Valid() && old(sent) <= sent && Messages(Written()) == Messages(old(Written())) + ms
    {
      hide MarketDataPublisher.Valid, MarketDataPublisher.Written, Messages;
      ghost var start := Messages(Written());
      var n := 0;
      assert start + [] == start;
      while n < |ms|
        invariant 0 <= n <= |ms| && Valid() && old(sent) <= sent
        invariant Messages(Written()) == start + ms[..n]
      {
        ghost var before, number := Written(), seqNum;
        ghost var now := WriteMsg(ms[n]);
        MessagesPush(before, Stamped(Numbered(number, ms[n]), now));
        assert ms[..n + 1] == ms[..n] + [ms[n]];
        Associative(start, ms[..n], [ms[n]]);
        n := n + 1;
      }
      assert ms[..n] == ms;
    }

    // ----- what readers see -----

    /** Reading every packet sent by its header lengths gives all published messages, in order and numbered from zero. */
    lemma ReadersSeeEverything()
      requires Valid() && filling == [] && AllSendable(Written())
      ensures ParseAll(sent) == Plain(Written())
      ensures forall i :: 0 <= i < |ParseAll(sent)| ==> ParseAll(sent)[i] == Numbered(Wrap32(i), Messages(Written())[i])
      ensures forall i :: 0 <= i < |sent| ==> 0 < |sent[i]| <= PACKET_SIZE
    {
      hide EncodeAll, Parse, Sendable;
      assert Written() == Flatten(packets);
      ParsePackets(sent, packets);
      forall i | 0 <= i < |sent| ensures 0 < |sent[i]| <= PACKET_SIZE {
        EncodeSize(packets[i]);
      }
    }
  }

  /** Packets read one after the other. */
  function ParseAll(sent: seq<Bytes>): seq<Numbered> {
    if sent == [] then [] else ParseAll(sent[..|sent| - 1]) + Parse(sent[|sent| - 1])
  }

  lemma {:induction false} ParsePackets(sent: seq<Bytes>, packets: seq<seq<Stamped>>)
    requires Carries(sent, packets) && AllSendable(Flatten(packets))
    ensures ParseAll(sent) == Plain(Flatten(packets))
  {
    hide EncodeAll, Parse, Sendable;
    if sent != [] {
      var n := |sent| - 1;
      var front, last := Flatten(packets[..n]), packets[n];
      assert Flatten(packets) == front + last;
      assert AllSendable(front) && AllSendable(last) by { SendableParts(front, last); }
      ParsePackets(sent[..n], packets[..n]);
      ParseEncode(last);
      assert Plain(front + last) == Plain(front) + Plain(last);
    }
  }

  lemma SendableParts(a: seq<Stamped>, b: seq<Stamped>)
    requires AllSendable(a + b)
    ensures AllSendable(a) && AllSendable(b)
  {
    assert forall i :: 0 <= i < |a| ==> a[i] == (a + b)[i];
    assert forall i :: 0 <= i < |b| ==> b[i] == (a + b)[|a| + i];
  }
}
