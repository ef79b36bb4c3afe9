/** The client-side replica of one symbol: live orders and aggregated price levels. */
module OrderBooks {
  import opened ExchangeTypes
  import opened MarketData

  type Levels = map<int, uint32>

  datatype BookState = BookState(orders: Quotes, buys: Levels, sells: Levels)

  const EMPTY_BOOK: BookState := BookState(map[], map[], map[])

  function LevelsOf(st: BookState, side: Side): Levels {
    if side.Buy? then st.buys else st.sells
  }

  function WithLevels(st: BookState, side: Side, levels: Levels): BookState {
    if side.Buy? then st.(buys := levels) else st.(sells := levels)
  }

  /** `levels[price] += quantity`, a missing level counting as zero. */
  function AddTo(levels: Levels, price: int, quantity: uint32): Levels {
    levels[price := Wrap32((if price in levels then levels[price] else 0) + quantity)]
  }

  /** `levels[price] -= quantity`, a missing level counting as zero. */
  function SubtractFrom(levels: Levels, price: int, quantity: uint32): Levels {
    levels[price := Wrap32((if price in levels then levels[price] else 0) - quantity)]
  }

  function DropEmpty(levels: Levels, price: int): Levels {
    if price in levels && levels[price] == 0 then levels - {price} else levels
  }

  /** delete_order_from_levels: refuses a level that is missing or too small. */
  function DeleteFromLevels(levels: Levels, q: Quote): Levels {
    if q.price !in levels || levels[q.price] < q.quantity then levels
    else DropEmpty(SubtractFrom(levels, q.price, q.quantity), q.price)
  }

  function ApplyBook(st: BookState, msg: MdMsg): BookState {
    match msg
    case MdNew(id, _, side, quantity, price, _) =>
      WithLevels(st.(orders := ApplyQuote(st.orders, msg)), side, AddTo(LevelsOf(st, side), price, quantity))
    case MdDelete(id) =>
      if id !in st.orders then st
      else
        var q := st.orders[id];
        var st' := st.(orders := st.orders - {id});
        if q.quantity == 0 then st' else WithLevels(st', q.side, DeleteFromLevels(LevelsOf(st, q.side), q))
    case MdModify(id, side, quantity, price) =>
      if id !in st.orders then st
      else
        var q := st.orders[id];
        var st' := WithLevels(st, q.side, DeleteFromLevels(LevelsOf(st, q.side), q));
        WithLevels(st', side, AddTo(LevelsOf(st', side), price, quantity))
          .(orders := st.orders[id := Quote(side, price, quantity)])
    case MdTrade(id, quantity, _) =>
      if id !in st.orders || st.orders[id].quantity < quantity then st
      else
        var q := st.orders[id];
        var levels := SubtractFrom(LevelsOf(st, q.side), q.price, quantity);
        if q.quantity == quantity then
          WithLevels(st.(orders := st.orders - {id}), q.side, DropEmpty(levels, q.price))
        else
          WithLevels(st.(orders := st.orders[id := q.(quantity := q.quantity - quantity)]), q.side, levels)
    case MdSummary(_, _, _, _) => st
    case MdHeartbeat => st
  }

  /** The order map of a replica is the plain map of quotes. */
  lemma OrdersAreQuotes(st: BookState, msg: MdMsg)
    ensures ApplyBook(st, msg).orders == ApplyQuote(st.orders, msg)
  {}

  // ----- depth -----

  function Weight(q: Quote, side: Side, price: int): nat {
    if q.side == side && q.price == price then q.quantity else 0
  }

  /** Live quantity at one side and price. */
  ghost function Depth(m: Quotes, side: Side, price: int): nat
    decreases |m|
  {
    if m == map[] then 0 else
      var x := AnyKey(m);
      Weight(m[x], side, price) + Depth(m - {x}, side, price)
  }

  ghost function AnyKey(m: Quotes): (x: uint64)
    requires m != map[]
    ensures x in m
  {
    NonEmpty(m);
    var x :| x in m;
    x
  }

  lemma NonEmpty(m: Quotes)
    ensures m == map[] || exists x :: x in m
  {
    if forall x :: x !in m {
      assert m == map[];
    }
  }

  /** Any order can be counted first. */
  lemma {:induction false} DepthWithout(m: Quotes, x: uint64, side: Side, price: int)
    requires x in m
    ensures Depth(m, side, price) == Weight(m[x], side, price) + Depth(m - {x}, side, price)
    decreases |m|
  {
    var y := AnyKey(m);
    if y != x {
      assert (m - {y}) - {x} == (m - {x}) - {y};
      DepthWithout(m - {y}, x, side, price);
      DepthWithout(m - {x}, y, side, price);
    }
  }

  lemma DepthUpdate(m: Quotes, x: uint64, q: Quote, side: Side, price: int)
    ensures Depth(m[x := q], side, price) == Weight(q, side, price) + Depth(m - {x}, side, price)
  {
    DepthWithout(m[x := q], x, side, price);
    assert m[x := q] - {x} == m - {x};
  }

  lemma {:induction false} DepthPositive(m: Quotes, side: Side, price: int)
    requires Positive(m)
    ensures Depth(m, side, price) > 0 <==> exists x :: x in m && m[x].side == side && m[x].price == price
  {
    if exists x :: x in m && m[x].side == side && m[x].price == price {
      var x :| x in m && m[x].side == side && m[x].price == price;
      DepthWithout(m, x, side, price);
    } else {
      DepthZero(m, side, price);
    }
  }

  lemma {:induction false} DepthZero(m: Quotes, side: Side, price: int)
    requires forall x :: x in m ==> !(m[x].side == side && m[x].price == price)
    ensures Depth(m, side, price) == 0
    decreases |m|
  {
    if m != map[] {
      var x := AnyKey(m);
      DepthZero(m - {x}, side, price);
    }
  }

  ghost predicate Positive(m: Quotes) {
    forall x :: x in m ==> m[x].quantity > 0
  }

  /** Every level's true total can be held in 32 bits. */
  ghost predicate Fits(m: Quotes) {
    forall side, price :: Depth(m, side, price) < TWO32
  }

  /** Levels are an exact index: a level for each price with live orders, holding their sum. */
  ghost predicate Exact(st: BookState) {
    && (forall p :: LevelExact(st, Buy, p))
    && (forall p :: LevelExact(st, Sell, p))
  }

  ghost predicate LevelExact(st: BookState, side: Side, p: int) {
    Entry(LevelsOf(st, side), p, Depth(st.orders, side, p))
  }

  ghost predicate Entry(levels: Levels, p: int, depth: nat) {
    if depth == 0 then p !in levels else p in levels && levels[p] == depth
  }

  lemma DeleteEntry(levels: Levels, q: Quote, p: int, depth: nat)
    requires Entry(levels, p, depth) && q.quantity > 0 && (p == q.price ==> q.quantity <= depth)
    ensures Entry(DeleteFromLevels(levels, q), p, if p == q.price then depth - q.quantity else depth)
  {}

  lemma AddEntry(levels: Levels, price: int, quantity: uint32, p: int, depth: nat)
    requires Entry(levels, p, depth) && quantity > 0 && (p == price ==> depth + quantity < TWO32)
    ensures Entry(AddTo(levels, price, quantity), p, if p == price then depth + quantity else depth)
  {}

  lemma SubtractEntry(levels: Levels, price: int, quantity: uint32, p: int, depth: nat)
    requires Entry(levels, p, depth) && (p == price ==> quantity <= depth && depth > 0)
    ensures p == price && quantity < depth ==> Entry(SubtractFrom(levels, price, quantity), p, depth - quantity)
    ensures p != price ==> Entry(SubtractFrom(levels, price, quantity), p, depth)
    ensures Entry(DropEmpty(SubtractFrom(levels, price, quantity), price), p, if p == price then depth - quantity else depth)
  {}

  /** Ids are fresh and quantities positive. */
  predicate Proper(m: Quotes, msg: MdMsg) {
    match msg
    case MdNew(id, _, _, quantity, _, _) => id !in m && quantity > 0
    case MdModify(_, _, quantity, _) => quantity > 0
    case _ => true
  }

  /** The aggregated levels stay exact under every proper message whose totals fit in 32 bits. */
  lemma LevelsStayExact(st: BookState, msg: MdMsg)
    requires Exact(st) && Positive(st.orders) && Fits(st.orders)
    requires Proper(st.orders, msg) && Fits(ApplyBook(st, msg).orders)
    ensures Exact(ApplyBook(st, msg)) && Positive(ApplyBook(st, msg).orders)
  {
    forall side, p ensures LevelExact(ApplyBook(st, msg), side, p) {
      LevelStaysExact(st, msg, side, p);
    }
  }

  lemma LevelStaysExact(st: BookState, msg: MdMsg, side: Side, p: int)
    requires Exact(st) && Positive(st.orders) && Fits(st.orders)
    requires Proper(st.orders, msg) && Fits(ApplyBook(st, msg).orders)
    ensures LevelExact(ApplyBook(st, msg), side, p)
  {
    hide Depth, Positive, Entry, AddTo, SubtractFrom, DropEmpty, DeleteFromLevels;
    var m := st.orders;
    assert Depth(ApplyBook(st, msg).orders, side, p) < TWO32;
    assert LevelExact(st, side, p);
    var levels, depth := LevelsOf(st, side), Depth(m, side, p);
    match msg
    case MdNew(id, _, s, quantity, price, _) =>
      WithoutMissing(m, id);
      DepthUpdate(m, id, Quote(s, price, quantity), side, p);
      if s == side {
        AddEntry(levels, price, quantity, p, depth);
      }
    case MdDelete(id) =>
      if id in m {
        LiveQuantity(m, id);
        DepthWithout(m, id, side, p);
        if m[id].side == side {
          DeleteEntry(levels, m[id], p, depth);
        }
      }
    case MdModify(id, s, quantity, price) =>
      ModifyStaysExact(st, id, s, quantity, price, side, p);
    case MdTrade(id, quantity, _) =>
      if id in m && m[id].quantity >= quantity {
        LiveQuantity(m, id);
        DepthWithout(m, id, side, p);
        DepthUpdate(m, id, m[id].(quantity := m[id].quantity - quantity), side, p);
        if m[id].side == side {
          SubtractEntry(levels, m[id].price, quantity, p, depth);
        }
      }
    case MdSummary(_, _, _, _) =>
    case MdHeartbeat =>
  }

  lemma ModifyStaysExact(st: BookState, id: uint64, s: Side, quantity: uint32, price: int, side: Side, p: int)
    requires Exact(st) && Positive(st.orders) && quantity > 0
    requires Fits(ApplyBook(st, MdModify(id, s, quantity, price)).orders)
    ensures LevelExact(ApplyBook(st, MdModify(id, s, quantity, price)), side, p)
  {
    hide Depth, Positive, Entry, AddTo, DeleteFromLevels;
    var m := st.orders;
    assert LevelExact(st, side, p);
    assert Depth(ApplyBook(st, MdModify(id, s, quantity, price)).orders, side, p) < TWO32;
    if id in m {
      LiveQuantity(m, id);
      DepthWithout(m, id, side, p);
      DepthUpdate(m, id, Quote(s, price, quantity), side, p);
      var levels, depth := LevelsOf(st, side), Depth(m, side, p);
      if m[id].side == side {
        DeleteEntry(levels, m[id], p, depth);
        levels, depth := DeleteFromLevels(levels, m[id]), if p == m[id].price then depth - m[id].quantity else depth;
      }
      if s == side {
        AddEntry(levels, price, quantity, p, depth);
      }
    }
  }

  lemma WithoutMissing(m: Quotes, id: uint64)
    requires id !in m
    ensures m - {id} == m
  {}

  lemma LiveQuantity(m: Quotes, id: uint64)
    requires Positive(m) && id in m
    ensures m[id].quantity > 0
  {}

  lemma EmptyBookExact()
    ensures Exact(EMPTY_BOOK) && Positive(EMPTY_BOOK.orders)
  {
    forall side, p ensures LevelExact(EMPTY_BOOK, side, p) {
      assert Depth(EMPTY_BOOK.orders, side, p) == 0;
    }
  }

  // ----- streams -----

  function ReplayBook(st: BookState, msgs: seq<MdMsg>): BookState
    decreases |msgs|
  {
    if msgs == [] then st else ReplayBook(ApplyBook(st, msgs[0]), msgs[1..])
  }

  /** Fresh ids and positive quantities all along. */
  ghost predicate AllProper(m: Quotes, msgs: seq<MdMsg>)
    decreases |msgs|
  {
    msgs == [] || (Proper(m, msgs[0]) && AllProper(ApplyQuote(m, msgs[0]), msgs[1..]))
  }

  /** The totals fit before and after every message. */
  ghost predicate AllFit(m: Quotes, msgs: seq<MdMsg>)
    decreases |msgs|
  {
    Fits(m) && (msgs == [] || AllFit(ApplyQuote(m, msgs[0]), msgs[1..]))
  }

  /** The levels are an exact index before and after every message. */
  ghost predicate AllExact(st: BookState, msgs: seq<MdMsg>)
    decreases |msgs|
  {
    Exact(st) && (msgs == [] || AllExact(ApplyBook(st, msgs[0]), msgs[1..]))
  }

  /** Levels of 32 bits can only be exact when the totals fit. */
  lemma ExactFits(st: BookState)
    requires Exact(st)
    ensures Fits(st.orders)
  {
    forall side, price ensures Depth(st.orders, side, price) < TWO32 {
      assert LevelExact(st, side, price);
    }
  }

  /** Over every stream with fresh ids and positive quantities the levels are exact throughout exactly when the totals fit throughout. */
  lemma {:induction false} StreamExact(st: BookState, msgs: seq<MdMsg>)
    requires Exact(st) && Positive(st.orders) && AllProper(st.orders, msgs)
    ensures AllExact(st, msgs) <==> AllFit(st.orders, msgs)
    ensures AllFit(st.orders, msgs) ==> Exact(ReplayBook(st, msgs)) && Positive(ReplayBook(st, msgs).orders)
    ensures ReplayBook(st, msgs).orders == ReplayQuotes(st.orders, msgs)
    decreases |msgs|
  {
    hide Exact, Fits, Positive, Proper, ApplyBook, ApplyQuote;
    ExactFits(st);
    if msgs != [] {
      var st' := ApplyBook(st, msgs[0]);
      OrdersAreQuotes(st, msgs[0]);
      if Fits(st'.orders) {
        LevelsStayExact(st, msgs[0]);
        StreamExact(st', msgs[1..]);
      } else {
        if Exact(st') { ExactFits(st'); }
        ReplayBookOrders(st', msgs[1..]);
      }
    }
  }

  lemma {:induction false} ReplayBookOrders(st: BookState, msgs: seq<MdMsg>)
    ensures ReplayBook(st, msgs).orders == ReplayQuotes(st.orders, msgs)
    decreases |msgs|
  {
    hide ApplyBook, ApplyQuote;
    if msgs != [] {
      OrdersAreQuotes(st, msgs[0]);
      ReplayBookOrders(ApplyBook(st, msgs[0]), msgs[1..]);
    }
  }

  // ----- the class -----

  datatype PriceLevel = PriceLevel(price: int, quantity: uint32)

  class OrderBook {
    var orders: Quotes
    var buyLevels: Levels
    var sellLevels: Levels

    constructor ()
      ensures State() == BookState(map[], map[], map[])
    {
      orders, buyLevels, sellLevels := map[], map[], map[];
    }

    function State(): BookState
      reads this
    {
      BookState(orders, buyLevels, sellLevels)
    }

    method NewOrder(id: uint64, side: Side, quantity: uint32, price: int, ghost symbol: uint32, ghost flags: uint8)
      modifies this
      ensures State() == ApplyBook(old(State()), MdNew(id, symbol, side, quantity, price, flags))
    {
      if id !in orders {
        orders := orders[id := Quote(side, price, quantity)];
      }
      if side.Buy? {
        buyLevels := AddTo(buyLevels, price, quantity);
      } else {
        sellLevels := AddTo(sellLevels, price, quantity);
      }
    }

    method DeleteOrder(id: uint64)
      modifies this
      ensures State() == ApplyBook(old(State()), MdDelete(id))
    {
      if id !in orders {
        return;
      }
      var order := orders[id];
      if order.quantity == 0 {
        orders := orders - {id};
        return;
      }
      if order.side.Buy? {
        buyLevels := DeleteFromLevels(buyLevels, order);
      } else {
        sellLevels := DeleteFromLevels(sellLevels, order);
      }
      orders := orders - {id};
    }

    method ModifyOrder(id: uint64, side: Side, quantity: uint32, price: int)
      modifies this
      ensures State() == ApplyBook(old(State()), MdModify(id, side, quantity, price))
    {
      if id !in orders {
        return;
      }
      var order := orders[id];
      if order.side.Buy? {
        buyLevels := DeleteFromLevels(buyLevels, order);
      } else {
        sellLevels := DeleteFromLevels(sellLevels, order);
      }
      if side.Buy? {
        buyLevels := AddTo(buyLevels, price, quantity);
      } else {
        sellLevels := AddTo(sellLevels, price, quantity);
      }
      orders := orders[id := Quote(side, price, quantity)];
    }

    /** Side and price are taken before the order is erased; the program takes them from the erased entry. */
    method OrderTrade(id: uint64, quantity: uint32, price: int)
      modifies this
      ensures State() == ApplyBook(old(State()), MdTrade(id, quantity, price))
    {
      if id !in orders {
        return;
      }
      var order := orders[id];
      if order.quantity < quantity {
        return;
      }
      if order.quantity == quantity {
        orders := orders - {id};
        if order.side.Buy? {
          buyLevels := SubtractFrom(buyLevels, order.price, quantity);
          if buyLevels[order.price] == 0 {
            buyLevels := buyLevels - {order.price};
          }
        } else {
          sellLevels := SubtractFrom(sellLevels, order.price, quantity);
          if sellLevels[order.price] == 0 {
            sellLevels := sellLevels - {order.price};
          }
        }
      } else {
        orders := orders[id := order.(quantity := order.quantity - quantity)];
        if order.side.Buy? {
          buyLevels := SubtractFrom(buyLevels, order.price, quantity);
        } else {
          sellLevels := SubtractFrom(sellLevels, order.price, quantity);
        }
      }
    }

    /** The best level of a side; zeros when the side has none. With exact levels that is the best live price and all that is live at it. */
    method GetBest(side: Side) returns (best: PriceLevel)
      ensures IsBest(LevelsOf(State(), side), side, best)
      ensures Exact(State()) && Positive(orders) ==>
        && ((forall x :: x in orders ==> orders[x].side != side) ==> best == PriceLevel(0, 0))
        && ((exists x :: x in orders && orders[x].side == side) ==>
          && (exists x :: x in orders && orders[x].side == side && orders[x].price == best.price)
          && (forall x :: x in orders && orders[x].side == side ==> !Better(side, orders[x].price, best.price))
          && best.quantity == Depth(orders, side, best.price) > 0)
    {
      var levels := if side.Buy? then buyLevels else sellLevels;
      if levels == map[] {
        best := PriceLevel(0, 0);
      } else {
        assert levels.Keys != {};
        BestExists(levels.Keys, side);
        var p :| p in levels.Keys && forall q :: q in levels.Keys ==> !Better(side, q, p);
        best := PriceLevel(p, levels[p]);
      }
      if Exact(State()) && Positive(orders) {
        BestIsLive(State(), side, best);
      }
    }
  }

  /** The first entry of a level map in its order, or zeros. */
  ghost predicate IsBest(levels: Levels, side: Side, best: PriceLevel) {
    if levels == map[] then best == PriceLevel(0, 0)
    else best.price in levels && best.quantity == levels[best.price] && forall p :: p in levels ==> !Better(side, p, best.price)
  }

  lemma BestIsLive(st: BookState, side: Side, best: PriceLevel)
    requires Exact(st) && Positive(st.orders) && IsBest(LevelsOf(st, side), side, best)
    ensures (forall x :: x in st.orders ==> st.orders[x].side != side) ==> best == PriceLevel(0, 0)
    ensures (exists x :: x in st.orders && st.orders[x].side == side) ==>
      && (exists x :: x in st.orders && st.orders[x].side == side && st.orders[x].price == best.price)
      && (forall x :: x in st.orders && st.orders[x].side == side ==> !Better(side, st.orders[x].price, best.price))
      && best.quantity == Depth(st.orders, side, best.price) > 0
  {
    hide Depth;
    var levels := LevelsOf(st, side);
    forall p ensures p in levels <==> exists x :: x in st.orders && st.orders[x].side == side && st.orders[x].price == p {
      assert LevelExact(st, side, p);
      DepthPositive(st.orders, side, p);
    }
    assert forall x :: x in st.orders && st.orders[x].side == side ==> st.orders[x].price in levels;
    assert LevelExact(st, side, best.price);
  }
}
