/** What the handler lets through to the broker, in which words, and what it answers to the rest. */
module Admission {
  import opened ExchangeTypes
  import opened BookSpec
  import opened BrokerSpec
  import opened HandlerSpec

  /** A quantity and a price that may be traded under these rules. */
  predicate Tradable(r: SymbolRules, quantity: uint32, price: int)
    requires r.tick > 0 && r.minLot > 0
  {
    && 0 < quantity <= r.maxLot && quantity % r.minLot == 0
    && r.minPrice <= price <= r.maxPrice && Wrap32(price) % r.tick == 0
  }

  /**
   The validator accepts exactly what is tradable. Of the rest an unknown symbol is reason 1; quantity, reason 6, is
   blamed before price, reason 5, for a broken lot, and for too large a lot if the price is on the tick.
   */
  lemma ValidExactly(rules: Rules, symbol: uint32, quantity: uint32, price: int)
    ensures var reason := Validate(rules, symbol, quantity, price);
      && (reason == 0 <==> symbol in rules && Tradable(rules[symbol], quantity, price))
      && (reason == 1 <==> symbol !in rules)
      && (reason == 6 <==> symbol in rules && var r := rules[symbol];
          quantity % r.minLot != 0 || (Wrap32(price) % r.tick == 0 && (quantity > r.maxLot || (r.minPrice <= price <= r.maxPrice && quantity == 0))))
      && reason in {0, 1, 5, 6}
  {
    hide Wrap32;
    if symbol in rules && quantity == 0 {
      assert quantity % rules[symbol].minLot == 0;
    }
  }

  /** The socket has a session, and it is this session, of this client. */
  predicate Authentic(h: Handler, sock: Sock, session: uint64, client: uint32) {
    sock in h.sessions && h.sessions[sock].id == session && h.sessions[sock].client == client
  }

  /** Nothing but one payload for the broker has changed. */
  ghost predicate OnlyAsks(h: Handler, h': Handler) {
    && h' == h.(toEngine := h'.toEngine) && |h'.toEngine| == |h.toEngine| + 1 && h.toEngine <= h'.toEngine
  }

  ghost predicate OnlyRefuses(h: Handler, h': Handler, seqNum: uint32, client: uint32, order: uint64, reason: uint8) {
    && OnlyAsks(h, h')
    && var p := h'.toEngine[|h.toEngine|];
    p.kind.RejectKind? && p.id == order && p.client == client && p.clientSeq == seqNum && p.flags == reason
  }

  /**
   A new order is passed on exactly when it comes from an authentic session, is tradable and its number is not in use by
   its client; then the broker is asked for just that order, under the new exchange id, and the handler knows it under both
   ids. Otherwise the client's refusal is all there is, for the first of these that fails.
   */
  lemma NewOrderAdmitted(h: Handler, rules: Rules, sock: Sock, m: NewRequest, id: uint64)
    ensures var h' := HandlerSpec.NewOrder(h, rules, sock, m, id);
      var valid := m.symbol in rules && Tradable(rules[m.symbol], m.quantity, m.price);
      if !Authentic(h, sock, m.session, m.client) then OnlyRefuses(h, h', m.seqNum, m.client, m.order, 8)
      else if !valid then OnlyRefuses(h, h', m.seqNum, m.client, m.order, Validate(rules, m.symbol, m.quantity, m.price))
      else if Tracks(h, m.client, m.order) then OnlyRefuses(h, h', m.seqNum, m.client, m.order, 3)
      else
        && |h'.toEngine| == |h.toEngine| + 1 && h.toEngine <= h'.toEngine
        && (var p := h'.toEngine[|h.toEngine|];
            p.kind.NewOrderKind? && RequestOf(p) == New(id, m.side, m.quantity, m.price, m.flags)
            && p.symbol == m.symbol && p.client == m.client && p.clientSeq == m.seqNum)
        && h'.known == h.known[id := ClientOrder(m.client, m.order)]
        && Tracks(h', m.client, m.order) && h'.open[m.client][m.order] == OpenOrder(id, m.symbol)
        && (forall c, o :: (c != m.client || o != m.order) ==>
            Tracks(h', c, o) == Tracks(h, c, o) && (Tracks(h, c, o) ==> h'.open[c][o] == h.open[c][o]))
        && h'.sessions == h.sessions && h'.socks == h.socks && h'.sent == h.sent
  {
    hide Tradable, Validate;
    ValidExactly(rules, m.symbol, m.quantity, m.price);
  }

  /** A delete is passed on, for the exchange id and symbol on record, exactly from an authentic session and for an order its client has open. */
  lemma DeleteAdmitted(h: Handler, sock: Sock, m: OrderRequest)
    ensures var h' := HandlerSpec.DeleteOrder(h, sock, m);
      if !Authentic(h, sock, m.session, m.client) then OnlyRefuses(h, h', m.seqNum, m.client, m.order, 8)
      else if !Tracks(h, m.client, m.order) then OnlyRefuses(h, h', m.seqNum, m.client, m.order, 4)
      else
        && OnlyAsks(h, h')
        && var p := h'.toEngine[|h.toEngine|];
        && p.kind.DeleteOrderKind? && RequestOf(p) == Delete(h.open[m.client][m.order].id)
        && p.symbol == h.open[m.client][m.order].symbol && p.client == m.client && p.clientSeq == m.seqNum
  {}

  /** An amend likewise, if its quantity and price are tradable in the symbol on record. */
  lemma ModifyAdmitted(h: Handler, rules: Rules, sock: Sock, m: OrderRequest, side: Side, quantity: uint32, price: int)
    ensures var h' := HandlerSpec.ModifyOrder(h, rules, sock, m, side, quantity, price);
      if !Authentic(h, sock, m.session, m.client) then OnlyRefuses(h, h', m.seqNum, m.client, m.order, 8)
      else if !Tracks(h, m.client, m.order) then OnlyRefuses(h, h', m.seqNum, m.client, m.order, 4)
      else
        var o := h.open[m.client][m.order];
        if !(o.symbol in rules && Tradable(rules[o.symbol], quantity, price))
        then OnlyRefuses(h, h', m.seqNum, m.client, m.order, Validate(rules, o.symbol, quantity, price))
        else
          && OnlyAsks(h, h')
          && var p := h'.toEngine[|h.toEngine|];
          && p.kind.ModifyOrderKind? && RequestOf(p) == Modify(o.id, side, quantity, price)
          && p.symbol == o.symbol && p.client == m.client && p.clientSeq == m.seqNum
  {
    hide Tradable, Validate;
    if Tracks(h, m.client, m.order) {
      ValidExactly(rules, h.open[m.client][m.order].symbol, quantity, price);
    }
  }

  /**
   A valid login of a client without a session opens one on its socket, through which it is reached, if the answer can be
   sent; one of a client that has a session elsewhere costs it that session; every other login changes nothing.
   */
  lemma LoginOpens(h: Handler, sock: Sock, client: uint32, valid: bool, session: uint64, fails: bool, keys: seq<uint64>)
    requires CanLogin(h, sock, client, valid, session, fails, keys)
    ensures var h' := Login(h, sock, client, valid, session, fails, keys);
      && (valid && client !in h.socks && !fails ==>
          Authentic(h', sock, session, client) && client in h'.socks && h'.socks[client] == sock
          && h' == h.(sessions := h'.sessions, socks := h'.socks))
      && (valid && client in h.socks && h.socks[client] != sock && h.socks[client] in h.sessions ==>
          h.socks[client] !in h'.sessions && h.sessions[h.socks[client]].client !in h'.socks && h'.open == h.open - {h.sessions[h.socks[client]].client})
      && (!valid || (client in h.socks && (h.socks[client] == sock || h.socks[client] !in h.sessions)) ==> h' == h)
      && h'.sent == h.sent && h'.known == h.known
  {}
}
