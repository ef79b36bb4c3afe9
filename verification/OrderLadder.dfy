/** The order ladder of one symbol: hash index, two sides of price levels and the node pool. */
module OrderLadders {
  import opened ExchangeTypes
  import opened BookSpec
  import opened BookOrder
  import opened PriceLevelLists

  lemma SomeKey(m: map<int, PriceLevel>)
    ensures m == map[] || exists k :: k in m
  {
    if forall k :: k !in m {
      assert m == map[];
    }
  }

  class OrderLadder {
    const symbol: uint32
    const buyLevels: BookSide
    const sellLevels: BookSide
    const pool: OrderPool
    var orders: map<uint64, OrderNode>
    /** Callbacks made to the subscriber, in order. */
    var calls: seq<Event>
    ghost var Repr: set<object>

    constructor (symbol: uint32)
      ensures Valid() && fresh(Repr) && this.symbol == symbol
      ensures Contents() == Book([], []) && calls == []
    {
      this.symbol := symbol;
      buyLevels := new BookSide(Buy);
      sellLevels := new BookSide(Sell);
      pool := new OrderPool();
      orders, calls := map[], [];
      new;
      Repr := {this, buyLevels, sellLevels, pool};
    }

    ghost function Contents(): Book
      reads buyLevels, sellLevels
    {
      Book(buyLevels.orders, sellLevels.orders)
    }

    /** Index, lists and free list are consistent and share nothing; levels may be empty. */
    ghost predicate Linked()
      reads this`orders, buyLevels, sellLevels, pool, buyLevels.lists, sellLevels.lists, pool.nodes
    {
      && buyLevels.side == Buy && sellLevels.side == Sell
      && buyLevels.lists !! sellLevels.lists
      && Partition()
      && buyLevels.Valid() && sellLevels.Valid()
      && Indexed()
    }

    /** Every node of the pool is free or in use on exactly one side. */
    ghost predicate Partition()
      reads buyLevels`nodes, sellLevels`nodes, pool
    {
      && pool.Valid()
      && buyLevels.nodes !! sellLevels.nodes
      && (forall n :: n in pool.freeList ==> n !in buyLevels.nodes && n !in sellLevels.nodes)
      && buyLevels.nodes <= pool.nodes && sellLevels.nodes <= pool.nodes
      && (forall n :: n in pool.nodes ==> n in pool.freeList || n in buyLevels.nodes || n in sellLevels.nodes)
    }

    /** The hash index holds exactly the nodes in use, each under its order id. */
    ghost predicate Indexed()
      reads this`orders, buyLevels`nodes, sellLevels`nodes, buyLevels.nodes, sellLevels.nodes
    {
      && (forall id :: id in orders ==>
        (orders[id] in buyLevels.nodes || orders[id] in sellLevels.nodes) && orders[id].order.id == id)
      && (forall n :: n in buyLevels.nodes ==> n.order.id in orders && orders[n.order.id] == n)
      && (forall n :: n in sellLevels.nodes ==> n.order.id in orders && orders[n.order.id] == n)
    }

    /** The structure between operations: no level is empty. */
    ghost predicate Sound()
      reads this`orders, buyLevels, sellLevels, pool, buyLevels.lists, sellLevels.lists, pool.nodes
    {
      Linked() && buyLevels.Tight() && sellLevels.Tight()
    }

    ghost predicate Valid()
      reads this`orders, this`Repr, Repr - {this}
      ensures Valid() ==> this in Repr
    {
      && buyLevels in Repr && sellLevels in Repr && pool in Repr
      && Repr == {this, buyLevels, sellLevels, pool} + buyLevels.lists + sellLevels.lists + pool.nodes
      && Sound()
    }

    ghost function OtherSide(levels: BookSide): BookSide {
      if levels == buyLevels then sellLevels else buyLevels
    }

    /** handle_delete_order, for an order that rests on the given side. */
    method HandleDeleteOrder(id: uint64, levels: BookSide)
      requires Linked() && (levels == buyLevels || levels == sellLevels)
      requires id in orders ==> orders[id] in levels.nodes
      modifies this`orders, this`calls, levels, pool, levels.lists, pool.nodes
      ensures Linked()
      ensures levels.lists == old(levels.lists) && pool.nodes == old(pool.nodes)
      ensures unchanged(OtherSide(levels)) && unchanged(OtherSide(levels).lists)
      ensures id !in old(orders) ==> calls == old(calls) + [OnCancelReject(id)] && unchanged(levels) && orders == old(orders)
      ensures id in old(orders) ==>
        && calls == old(calls) && orders == old(orders) - {id}
        && Has(old(levels.orders), id) && levels.orders == Remove(old(levels.orders), id)
        && levels.Took(old(orders[id])) && old(orders[id]).order == old(orders[id].order)
    {
      hide BookSide.Valid, BookSide.Took, OrderLadder.Partition, Remove, Has;
      if id !in orders {
        calls := calls + [OnCancelReject(id)];
        return;
      }
      Release(orders[id], levels);
    }

    /** A node of the pool that is neither free nor in use; everything else is as it should be. */
    ghost predicate Loose(n: OrderNode)
      reads this`orders, buyLevels, sellLevels, pool, buyLevels.lists, sellLevels.lists, pool.nodes
    {
      && buyLevels.side == Buy && sellLevels.side == Sell
      && buyLevels.lists !! sellLevels.lists && buyLevels.nodes !! sellLevels.nodes
      && pool.Valid() && n in pool.nodes
      && buyLevels.nodes <= pool.nodes && sellLevels.nodes <= pool.nodes
      && (forall m :: m in pool.freeList ==> m !in buyLevels.nodes && m !in sellLevels.nodes)
      && n !in pool.freeList && n !in buyLevels.nodes && n !in sellLevels.nodes
      && (forall m :: m in pool.nodes ==> m == n || m in pool.freeList || m in buyLevels.nodes || m in sellLevels.nodes)
      && buyLevels.Valid() && sellLevels.Valid()
      && Indexed()
    }

    /** Unlink a node and forget its order id. */
    method Detach(n: OrderNode, levels: BookSide)
      requires Linked() && (levels == buyLevels || levels == sellLevels)
      requires n in levels.nodes
      modifies this`orders, levels, levels.lists, levels.nodes
      ensures Loose(n) && unchanged(pool)
      ensures levels.lists == old(levels.lists)
      ensures unchanged(OtherSide(levels)) && unchanged(OtherSide(levels).lists)
      ensures n.order == old(n.order) && orders == old(orders) - {n.order.id}
      ensures Has(old(levels.orders), n.order.id) && levels.orders == Remove(old(levels.orders), n.order.id)
      ensures levels.Took(n)
    {
      hide BookSide.Valid, BookSide.Took, Remove, Has, IndexOf, Distinct;
      levels.Take(n);
      orders := orders - {n.order.id};
      assert OtherSide(levels).Valid();
    }

    /** A loose node returned to the pool. */
    method Recycle(n: OrderNode)
      requires Loose(n)
      modifies pool`freeList, n`next, n`prev
      ensures Linked() && pool.nodes == old(pool.nodes)
    {
      hide BookSide.Valid, Distinct;
      pool.Deallocate(n);
      assert buyLevels.Valid() && sellLevels.Valid();
    }

    method Release(n: OrderNode, levels: BookSide)
      requires Linked() && (levels == buyLevels || levels == sellLevels)
      requires n in levels.nodes
      modifies this`orders, levels, pool, levels.lists, pool.nodes
      ensures Linked()
      ensures levels.lists == old(levels.lists) && pool.nodes == old(pool.nodes)
      ensures unchanged(OtherSide(levels)) && unchanged(OtherSide(levels).lists)
      ensures n.order == old(n.order) && orders == old(orders) - {n.order.id}
      ensures Has(old(levels.orders), n.order.id) && levels.orders == Remove(old(levels.orders), n.order.id)
      ensures levels.Took(n)
    {
      hide BookSide.Valid, BookSide.Took, OrderLadder.Loose, OrderLadder.Indexed, Remove, Has, IndexOf, Distinct;
      Detach(n, levels);
      Recycle(n);
    }

    /** Level p is the best of its side and may run empty; nothing else changes shape. */
    ghost predicate Draining(levels: BookSide, p: int)
      reads this`orders, buyLevels, sellLevels, pool, buyLevels.lists, sellLevels.lists, pool.nodes
    {
      && Linked()
      && (levels == buyLevels || levels == sellLevels)
      && OtherSide(levels).Tight()
      && p in levels.levels && levels.levels[p] in levels.lists
      && (forall q :: q in levels.levels && q != p ==> levels.levels[q] in levels.lists && levels.levels[q].head != null)
      && (forall q :: q in levels.levels ==> !Better(levels.side, q, p))
    }

    lemma FrontOfDraining(levels: BookSide, p: int)
      requires p in levels.levels && Draining(levels, p) && levels.levels[p].head != null
      ensures var n := levels.levels[p].head;
        && n in levels.nodes && n.order.id in orders && orders[n.order.id] == n
        && n.order.price == p && n.order.quantity > 0 && n.order.side == levels.side
        && levels.orders != [] && levels.orders[0] == n.order
    {
      levels.FrontOfBest(p);
      var n := levels.levels[p].head;
      assert levels.levels[p].queue[0] in levels.nodes;
      assert levels.levels[p].orders[0] == n.order;
    }

    /** The oldest order of level p is no larger than what is left: it trades in full. */
    method ConsumeHead(id: uint64, side: Side, left: uint32, levels: BookSide, p: int)
      returns (left': uint32, next: OrderNode?)
      requires p in levels.levels && Draining(levels, p) && levels.levels[p].head != null
      requires levels.levels[p].head.order.quantity <= left
      modifies this`orders, this`calls, levels, pool, levels.lists, pool.nodes
      ensures p in levels.levels && Draining(levels, p) && next == levels.levels[p].head
      ensures levels.lists == old(levels.lists) && pool.nodes == old(pool.nodes) && unchanged(OtherSide(levels))
      ensures old(levels.orders) != [] && levels.orders == old(levels.orders)[1..]
      ensures var o := old(levels.orders)[0];
        && o.price == p && 0 < o.quantity <= left && left' == left - o.quantity
        && calls == old(calls) + FillEvents(id, side, o, o.quantity, true, left' == 0)
    {
      hide OrderLadder.Linked, BookSide.Valid;
      FrontOfDraining(levels, p);
      var order := levels.levels[p].head;
      ghost var o := order.order;
      calls := calls + [OnTrade(order.order.id, order.order.quantity, order.order.price)];
      calls := calls + [OnFill(order.order.id, order.order.side, order.order.quantity, order.order.price, true, false)];
      left' := left - order.order.quantity;
      calls := calls + [OnFill(id, side, order.order.quantity, order.order.price, left' == 0, true)];
      var toDelete := order;
      next := order.next;
      HandleDeleteOrder(toDelete.order.id, levels);
    }

    /** The oldest order of level p is larger than what is left: it is filled in part. */
    method FillFront(id: uint64, side: Side, left: uint32, levels: BookSide, p: int)
      requires p in levels.levels && Draining(levels, p) && levels.levels[p].head != null
      requires 0 < left < levels.levels[p].head.order.quantity
      modifies this`orders, this`calls, levels, levels.lists, pool.nodes
      ensures p in levels.levels && Draining(levels, p) && levels.levels[p].head != null
      ensures levels.lists == old(levels.lists) && unchanged(OtherSide(levels))
      ensures old(levels.orders) != []
      ensures var o := old(levels.orders)[0];
        && o.price == p && left < o.quantity
        && levels.orders == [PartlyFilled(o, left)] + old(levels.orders)[1..]
        && calls == old(calls) + FillEvents(id, side, o, left, false, true)
    {
      hide BookSide.Valid, PartlyFilled;
      FrontOfDraining(levels, p);
      var order := levels.levels[p].head;
      calls := calls + [OnTrade(order.order.id, left, order.order.price)];
      calls := calls + [OnFill(order.order.id, order.order.side, left, order.order.price, false, false)];
      calls := calls + [OnFill(id, side, left, order.order.price, true, true)];
      levels.FillFront(p, left);
    }

    /** The same match, `before` being the callbacks made by then, continues as `rest`. */
    ghost predicate Continues(before: seq<Event>, whole: MatchResult, rest: MatchResult)
      reads this`calls
    {
      whole.left == rest.left && whole.resting == rest.resting && before + whole.events == calls + rest.events
    }

    static lemma ConsumeStep(before: seq<Event>, id: uint64, side: Side, quantity: uint32, limit: int, os: seq<Order>)
      requires os != [] && 0 < os[0].quantity <= quantity && Crosses(side, limit, os[0].price)
      ensures var left := quantity - os[0].quantity;
        var r, r' := BookSpec.Match(id, side, quantity, limit, os), BookSpec.Match(id, side, left, limit, os[1..]);
        && r.left == r'.left && r.resting == r'.resting
        && before + r.events == before + FillEvents(id, side, os[0], os[0].quantity, true, left == 0) + r'.events
    {
      var left := quantity - os[0].quantity;
      var r' := BookSpec.Match(id, side, left, limit, os[1..]);
      var f := FillEvents(id, side, os[0], os[0].quantity, true, left == 0);
      assert before + (f + r'.events) == before + f + r'.events;
    }

    /** The inner loop: trade against level p until it or the incoming order is used up. */
    method DrainLevel(id: uint64, side: Side, quantity: uint32, limit: int, levels: BookSide, p: int) returns (left: uint32)
      requires p in levels.levels && Draining(levels, p) && levels.levels[p].head != null
      requires quantity > 0 && Crosses(side, limit, p)
      modifies this`orders, this`calls, levels, pool, levels.lists, pool.nodes
      ensures p in levels.levels && Draining(levels, p)
      ensures levels.levels[p].head == null || left == 0
      ensures |levels.orders| <= |old(levels.orders)| && (|levels.orders| < |old(levels.orders)| || left == 0)
      ensures Continues(old(calls), BookSpec.Match(id, side, quantity, limit, old(levels.orders)),
                                    BookSpec.Match(id, side, left, limit, levels.orders))
      ensures levels.lists == old(levels.lists) && pool.nodes == old(pool.nodes) && unchanged(OtherSide(levels))
    {
      hide OrderLadder.Draining, OrderLadder.Linked, BookSide.Valid, Crosses, FillEvents, PartlyFilled;
      left := quantity;
      ghost var whole := BookSpec.Match(id, side, quantity, limit, levels.orders);
      var order := levels.levels[p].head;
      while order != null && left > 0
        invariant p in levels.levels && Draining(levels, p) && order == levels.levels[p].head
        invariant levels.lists == old(levels.lists) && pool.nodes == old(pool.nodes) && unchanged(OtherSide(levels))
        invariant Continues(old(calls), whole, BookSpec.Match(id, side, left, limit, levels.orders))
        invariant if left == quantity then levels.orders == old(levels.orders) && order != null
                  else |levels.orders| < |old(levels.orders)|
        decreases left
      {
        ghost var before, os, was := calls, levels.orders, left;
        if order.order.quantity <= left {
          left, order := ConsumeHead(id, side, left, levels, p);
          ConsumeStep(before, id, side, was, limit, os);
        } else {
          FillFront(id, side, left, levels, p);
          left := 0;
          return;
        }
      }
    }

    /** A side has orders exactly when it has levels. */
    lemma EmptySide(levels: BookSide)
      requires Sound() && (levels == buyLevels || levels == sellLevels)
      ensures levels.orders == [] <==> levels.levels == map[]
    {
      if levels.orders != [] {
        assert levels.orders[0].price in levels.levels;
      }
      if levels.levels != map[] {
        SomeKey(levels.levels);
        var p :| p in levels.levels;
        AtNone(levels.orders, p);
        levels.levels[p].NonEmpty();
      }
    }

    lemma BestLevel(levels: BookSide, p: int)
      requires Sound() && (levels == buyLevels || levels == sellLevels)
      requires p in levels.levels && forall q :: q in levels.levels ==> !Better(levels.side, q, p)
      ensures p in levels.levels && Draining(levels, p) && levels.levels[p].head != null
      ensures levels.orders != [] && levels.orders[0].price == p
    {
      FrontOfDraining(levels, p);
    }

    /** A drained level leaves the map; one that was not keeps the ladder valid. */
    method FinishLevel(levels: BookSide, p: int)
      requires p in levels.levels && Draining(levels, p)
      modifies levels`levels
      ensures Sound() && unchanged(OtherSide(levels))
    {
      hide BookSide.Valid;
      if levels.levels[p].head == null {
        levels.Erase(p);
      }
    }

    /** match: trade against the opposite side, best price first, oldest first. */
    method Match(id: uint64, side: Side, quantity: uint32, limit: int, levels: BookSide) returns (left: uint32)
      requires Sound() && levels == (if side.Buy? then sellLevels else buyLevels)
      modifies this`orders, this`calls, levels, pool, levels.lists, pool.nodes
      ensures Sound()
      ensures var r := BookSpec.Match(id, side, quantity, limit, old(levels.orders));
        left == r.left && levels.orders == r.resting && calls == old(calls) + r.events
      ensures levels.lists == old(levels.lists) && pool.nodes == old(pool.nodes) && unchanged(OtherSide(levels))
    {
      hide BookSide.Valid, OrderLadder.Linked, OrderLadder.Draining, Crosses, Better, BookSide.Tight;
      left := quantity;
      ghost var whole := BookSpec.Match(id, side, quantity, limit, levels.orders);
      while levels.levels != map[] && left > 0
        invariant Sound()
        invariant levels.lists == old(levels.lists) && pool.nodes == old(pool.nodes) && unchanged(OtherSide(levels))
        invariant Continues(old(calls), whole, BookSpec.Match(id, side, left, limit, levels.orders))
        decreases |levels.orders|, left
      {
        var p := levels.Begin();
        BestLevel(levels, p);
        if !Crosses(side, limit, p) {
          break;
        }
        left := DrainLevel(id, side, left, limit, levels, p);
        if levels.levels[p].head != null && left > 0 {
          assert false;
        }
        FinishLevel(levels, p);
      }
      EmptySide(levels);
    }

    /** The hash index answers for the book. */
    ghost predicate Answers(id: uint64)
      reads this`orders, buyLevels, sellLevels, buyLevels.nodes, sellLevels.nodes
    {
      && (id in orders <==> InBook(Contents(), id))
      && (id in orders ==>
        && (orders[id] in buyLevels.nodes <==> Has(buyLevels.orders, id))
        && (orders[id] in sellLevels.nodes <==> Has(sellLevels.orders, id))
        && (orders[id] in buyLevels.nodes || orders[id] in sellLevels.nodes)
        && orders[id].order == Find(Contents(), id) && orders[id].order.id == id
        && (orders[id].order.side.Buy? <==> orders[id] in buyLevels.nodes))
    }

    lemma IndexExact(id: uint64)
      requires Linked()
      ensures Answers(id)
    {
      if id in orders {
        var n := orders[id];
        if n in buyLevels.nodes {
          buyLevels.NodeIsOrder(n);
        } else {
          sellLevels.NodeIsOrder(n);
        }
      }
      if Has(buyLevels.orders, id) {
        var n := buyLevels.OrderHasNode(id);
      }
      if Has(sellLevels.orders, id) {
        var n := sellLevels.OrderHasNode(id);
      }
    }

    /** The ladder is valid but for one allocated node that no side uses yet. */
    ghost predicate Spare(n: OrderNode)
      reads this`orders, buyLevels, sellLevels, pool, buyLevels.lists, sellLevels.lists, pool.nodes
    {
      Loose(n) && buyLevels.Tight() && sellLevels.Tight()
    }

    method NewNode(o: Order) returns (n: OrderNode)
      requires Sound()
      modifies pool, pool.nodes
      ensures Spare(n) && n.order == o && n.next == null && n.prev == null
      ensures fresh(pool.nodes - old(pool.nodes)) && old(pool.nodes) <= pool.nodes
    {
      hide BookSide.Valid, Distinct;
      n := pool.Allocate();
      n.order := o;
      n.next, n.prev := null, null;
    }

    method LinkBuy(n: OrderNode)
      requires Spare(n) && n.order.side == Buy && n.next == null && n.prev == null
      requires n.order.id !in orders && n.order.quantity > 0 && !Has(buyLevels.orders, n.order.id)
      modifies this`orders, buyLevels, buyLevels.lists, buyLevels.nodes, n
      ensures Sound()
      ensures fresh(buyLevels.lists - old(buyLevels.lists))
      ensures buyLevels.orders == Insert(old(buyLevels.orders), old(n.order))
    {
      hide BookSide.Valid, Insert, Has, IndexOf, Distinct;
      buyLevels.Add(n);
      orders := orders[n.order.id := n];
      assert Indexed();
      assert buyLevels.Valid() && sellLevels.Valid() && buyLevels.Tight() && sellLevels.Tight();
    }

    method LinkSell(n: OrderNode)
      requires Spare(n) && n.order.side == Sell && n.next == null && n.prev == null
      requires n.order.id !in orders && n.order.quantity > 0 && !Has(sellLevels.orders, n.order.id)
      modifies this`orders, sellLevels, sellLevels.lists, sellLevels.nodes, n
      ensures Sound()
      ensures fresh(sellLevels.lists - old(sellLevels.lists))
      ensures sellLevels.orders == Insert(old(sellLevels.orders), old(n.order))
    {
      hide BookSide.Valid, Insert, Has, IndexOf, Distinct;
      sellLevels.Add(n);
      orders := orders[n.order.id := n];
      assert Indexed();
      assert buyLevels.Valid() && sellLevels.Valid() && buyLevels.Tight() && sellLevels.Tight();
    }

    /** The tail of handle_new_order: a node for what is left, at the back of its price. */
    method Rest(o: Order, levels: BookSide)
      requires Sound() && levels == (if o.side.Buy? then buyLevels else sellLevels)
      requires o.id !in orders && o.quantity > 0 && !Has(levels.orders, o.id)
      modifies this`orders, levels, pool, levels.lists, pool.nodes
      ensures Sound()
      ensures fresh(levels.lists - old(levels.lists)) && fresh(pool.nodes - old(pool.nodes))
      ensures unchanged(OtherSide(levels)) && levels.orders == Insert(old(levels.orders), o)
    {
      hide OrderLadder.Sound, BookSide.Valid, Insert, Has, IndexOf, Distinct;
      var n := NewNode(o);
      if o.side.Buy? {
        LinkBuy(n);
      } else {
        LinkSell(n);
      }
    }

    /** handle_new_order hands match the opposite side's levels. */
    method MatchOpposite(id: uint64, side: Side, quantity: uint32, price: int) returns (left: uint32)
      requires Valid()
      modifies Repr
      ensures Valid() && Repr == old(Repr)
      ensures var m := BookSpec.Match(id, side, quantity, price, SideOf(old(Contents()), Opposite(side)));
        && left == m.left && calls == old(calls) + m.events
        && Contents() == WithSide(old(Contents()), Opposite(side), m.resting)
    {
      hide OrderLadder.Sound, BookSide.Valid, BookSpec.Match;
      if side.Buy? {
        left := Match(id, side, quantity, price, sellLevels);
      } else {
        left := Match(id, side, quantity, price, buyLevels);
      }
    }

    /** handle_new_order hands its tail the order's own side's levels. */
    method RestOwn(o: Order)
      requires Valid() && !InBook(Contents(), o.id) && o.quantity > 0
      modifies Repr
      ensures Valid() && fresh(Repr - old(Repr)) && calls == old(calls)
      ensures Contents() == WithSide(old(Contents()), o.side, Insert(SideOf(old(Contents()), o.side), o))
    {
      hide OrderLadder.Sound, BookSide.Valid, Insert;
      BookIndex(o.id);
      Rest(o, if o.side.Buy? then buyLevels else sellLevels);
      Repr := {this, buyLevels, sellLevels, pool} + buyLevels.lists + sellLevels.lists + pool.nodes;
    }

    /** handle_new_order: match, report, and rest what is left. */
    method HandleNewOrder(id: uint64, side: Side, quantity: uint32, price: int, flags: uint8,
                          notify: bool, filled: uint32) returns (left: uint32, outcome: Outcome)
      requires Valid()
      modifies Repr
      ensures Valid() && fresh(Repr - old(Repr))
      ensures var r := BookSpec.HandleNewOrder(old(Contents()), id, side, quantity, price, flags, notify, filled);
        Contents() == r.book && calls == old(calls) + r.events && left == r.left && outcome == r.outcome
    {
      hide OrderLadder.Valid, BookSpec.Match, Insert, InBook, IsIoc, Find, Has, SideOf, WithSide;
      if quantity <= filled {
        return quantity, FilledExceedsQuantity;
      }
      left := quantity - filled;
      var prematch := left;
      left := MatchOpposite(id, side, left, price);
      if notify && !IsIoc(flags) {
        calls := calls + [OnNewOrder(id, side, left, price, flags)];
      }
      if left > 0 && IsIoc(flags) {
        if notify {
          calls := calls + [OnDeleteOrder(id, false)];
        }
        return left, Done;
      }
      if left == 0 {
        return left, Done;
      }
      BookIndex(id);
      if id in orders {
        return left, OrderExists;
      }
      if left > prematch {
        assert false;
      }
      RestOwn(Order(id, side, price, left, prematch - left, flags));
      outcome := Done;
    }

    lemma BookIndex(id: uint64)
      requires Valid()
      ensures Answers(id) && (id in orders ==> orders[id] in Repr)
    {
      IndexExact(id);
    }

    method NewOrder(id: uint64, side: Side, quantity: uint32, price: int, flags: uint8) returns (outcome: Outcome)
      requires Valid()
      modifies Repr
      ensures Valid() && fresh(Repr - old(Repr))
      ensures var r := BookSpec.NewOrder(old(Contents()), id, side, quantity, price, flags);
        Contents() == r.book && calls == old(calls) + r.events && outcome == r.outcome
    {
      hide OrderLadder.Valid, BookSpec.HandleNewOrder;
      var left;
      left, outcome := HandleNewOrder(id, side, quantity, price, flags, true, 0);
    }

    /** delete_order on one side: unlink, then drop the level when that emptied it. */
    method DiscardFrom(id: uint64, levels: BookSide)
      requires Sound() && (levels == buyLevels || levels == sellLevels)
      requires id in orders && orders[id] in levels.nodes
      modifies this`orders, this`calls, levels, pool, levels.lists, pool.nodes
      ensures Sound() && levels.lists == old(levels.lists) && pool.nodes == old(pool.nodes)
      ensures calls == old(calls) && unchanged(OtherSide(levels))
      ensures Has(old(levels.orders), id) && levels.orders == Remove(old(levels.orders), id)
    {
      hide BookSide.Valid, Remove, Has, IndexOf, OrderLadder.Partition, OrderLadder.Indexed;
      IndexExact(id);
      levels.NodeIsOrder(orders[id]);
      var price := orders[id].order.price;
      HandleDeleteOrder(id, levels);
      if price in levels.levels && levels.levels[price].head == null {
        levels.Erase(price);
      }
    }

    /** delete_order without its notification. */
    method Discard(id: uint64)
      requires Valid() && id in orders
      modifies Repr
      ensures Valid() && Repr == old(Repr) && calls == old(calls)
      ensures Contents() == RemoveFromBook(old(Contents()), id)
    {
      hide OrderLadder.Sound, BookSide.Valid, Remove, Has, Find, IndexOf;
      BookIndex(id);
      if orders[id].order.side.Buy? {
        DiscardFrom(id, buyLevels);
      } else {
        DiscardFrom(id, sellLevels);
      }
    }

    method DeleteOrder(id: uint64)
      requires Valid()
      modifies Repr
      ensures Valid() && fresh(Repr - old(Repr))
      ensures var r := BookSpec.DeleteOrder(old(Contents()), id);
        Contents() == r.book && calls == old(calls) + r.events
    {
      hide OrderLadder.Valid, RemoveFromBook, InBook, Has, Find;
      BookIndex(id);
      if id !in orders {
        calls := calls + [OnCancelReject(id)];
        return;
      }
      Discard(id);
      calls := calls + [OnDeleteOrder(id, true)];
    }

    /** The same-price branch of modify_order. */
    method Requantify(id: uint64, quantity: uint32)
      requires Valid() && id in orders && quantity > 0
      modifies Repr
      ensures Valid() && Repr == old(Repr) && calls == old(calls)
      ensures Contents() == RequantifyInBook(old(Contents()), id, quantity)
    {
      hide OrderLadder.Sound, BookSide.Valid, BookSpec.Requantify, Has, Find, IndexOf;
      BookIndex(id);
      if orders[id].order.side.Buy? {
        RequantifyOn(orders[id], quantity, buyLevels);
      } else {
        RequantifyOn(orders[id], quantity, sellLevels);
      }
    }

    method RequantifyOn(n: OrderNode, quantity: uint32, levels: BookSide)
      requires Sound() && (levels == buyLevels || levels == sellLevels)
      requires n in levels.nodes && quantity > 0
      modifies levels, levels.lists, pool.nodes
      ensures Sound() && levels.lists == old(levels.lists) && pool.nodes == old(pool.nodes)
      ensures unchanged(OtherSide(levels)) && n.order.id == old(n.order.id)
      ensures levels.orders == BookSpec.Requantify(old(levels.orders), n.order.id, quantity)
    {
      hide BookSide.Valid, BookSpec.Requantify, Has, IndexOf;
      levels.SetQuantity(n, quantity);
    }

    method ModifyOrder(id: uint64, side: Side, quantity: uint32, price: int) returns (outcome: Outcome)
      requires Valid()
      modifies Repr
      ensures Valid() && fresh(Repr - old(Repr))
      ensures var r := BookSpec.ModifyOrder(old(Contents()), id, side, quantity, price);
        Contents() == r.book && calls == old(calls) + r.events && outcome == r.outcome
    {
      hide OrderLadder.Valid, BookSpec.HandleNewOrder, RemoveFromBook, RequantifyInBook, InBook, Find;
      BookIndex(id);
      if id !in orders {
        calls := calls + [OnCancelReject(id)];
        return Done;
      }
      var o := orders[id].order;
      if o.filled >= quantity {
        DeleteOrder(id);
        return Done;
      }
      if o.price == price && o.side == side {
        Requantify(id, quantity);
        calls := calls + [OnModifyOrder(id, side, quantity - o.filled, price)];
        return Done;
      }
      Discard(id);
      var left;
      left, outcome := HandleNewOrder(id, side, quantity, price, o.flags, false, o.filled);
      if outcome != Done {
        return;
      }
      if left > 0 {
        calls := calls + [OnModifyOrder(id, side, left, price)];
      } else {
        calls := calls + [OnDeleteOrder(id, true)];
      }
    }
  }
}
