/**
 The intrusive lists of the ladder: list nodes, the pool that recycles them, and the FIFO
 list of one price level. The ghost fields `queue` and `orders` of a level hold its nodes,
 oldest first, and the orders they represent; `Valid` says the links represent exactly that.
 */
module PriceLevelLists {
  import opened ExchangeTypes
  import opened BookSpec
  import opened BookOrder

  ghost predicate Apart(a: seq<OrderNode>, b: seq<OrderNode>) {
    forall i :: 0 <= i < |a| ==> a[i] !in b
  }

  lemma DistinctWithout(q: seq<OrderNode>, k: nat)
    requires Distinct(q) && k < |q|
    ensures Distinct(Without(q, k))
  {}

  /** An order and its links within its price level. */
  class OrderNode {
    var order: Order
    var next: OrderNode?
    var prev: OrderNode?

    constructor ()
      ensures next == null && prev == null
    {
      order := Order(0, Buy, 0, 0, 0, 0);
      next, prev := null, null;
    }
  }

  ghost predicate Distinct(q: seq<OrderNode>) {
    forall i, j :: 0 <= i < j < |q| ==> q[i] != q[j]
  }

  class PriceLevel {
    ghost const side: Side
    ghost const price: int
    var head: OrderNode?
    var tail: OrderNode?
    ghost var queue: seq<OrderNode>
    ghost var orders: seq<Order>

    ghost predicate Valid()
      reads this, queue
    {
      && |queue| == |orders|
      && Distinct(queue)
      && head == (if queue == [] then null else queue[0])
      && tail == (if queue == [] then null else queue[|queue| - 1])
      && (forall i {:trigger orders[i]} :: 0 <= i < |queue| ==> queue[i].order == orders[i])
      && (forall i {:trigger orders[i]} :: 0 <= i < |orders| ==> orders[i].price == price && orders[i].side == side && orders[i].quantity > 0)
      && (queue != [] ==> queue[0].prev == null && queue[|queue| - 1].next == null)
      && (forall i, j {:trigger queue[i], queue[j]} :: 0 <= i && j == i + 1 && j < |queue| ==>
        queue[i].next == queue[j] && queue[j].prev == queue[i])
    }

    lemma NodeAt(k: nat)
      requires Valid() && (k < |queue| || k < |orders|)
      ensures |orders| == |queue| && orders[k] == queue[k].order
      ensures Distinct(queue)
    {}

    /** A level none of whose objects changed is as good as it was. */
    twostate lemma Framed()
      requires old(Valid()) && unchanged(this)
      requires forall i :: 0 <= i < |queue| ==> unchanged(queue[i])
      ensures Valid() && head == old(head) && queue == old(queue) && orders == old(orders)
    {}

    lemma NonEmpty()
      requires Valid()
      ensures head == null <==> queue == []
      ensures tail == null <==> queue == []
    {}

    lemma NodesPriced()
      requires Valid()
      ensures forall m :: m in queue ==> m.order.price == price && m.order.side == side && m.order.quantity > 0
    {
      forall m | m in queue ensures m.order.price == price && m.order.side == side && m.order.quantity > 0 {
        var i :| 0 <= i < |queue| && queue[i] == m;
        assert orders[i] == m.order;
      }
    }

    /** `{order_ptr, order_ptr}`: a level created for its first order. */
    constructor (n: OrderNode)
      requires n.next == null && n.prev == null && n.order.quantity > 0
      ensures Valid() && queue == [n] && orders == [n.order]
      ensures side == n.order.side && price == n.order.price
    {
      side, price := n.order.side, n.order.price;
      head, tail := n, n;
      queue, orders := [n], [n.order];
    }

    /** Add a node behind the tail. */
    method Append(n: OrderNode)
      requires Valid() && queue != []
      requires n !in queue && n.next == null && n.prev == null
      requires n.order.price == price && n.order.side == side && n.order.quantity > 0
      modifies this, queue, n
      ensures Valid()
      ensures queue == old(queue) + [n] && orders == old(orders) + [old(n.order)]
      ensures forall m :: m in queue ==> m.order == old(m.order)
    {
      tail.next := n;
      n.prev := tail;
      tail := n;
      queue := queue + [n];
      orders := orders + [n.order];
    }

    /** The neighbours of a node, and the ends of the level, bypass it. */
    method Bypass(n: OrderNode, ghost k: nat)
      requires Valid() && k < |queue| && queue[k] == n
      modifies this`head, this`tail, queue`next, queue`prev
      ensures head == if k > 0 then old(head) else if k + 1 < |queue| then queue[k + 1] else null
      ensures tail == if k + 1 < |queue| then old(tail) else if k > 0 then queue[k - 1] else null
      ensures forall i {:trigger queue[i]} :: 0 <= i < |queue| && i != k - 1 ==> queue[i].next == old(queue[i].next)
      ensures forall i {:trigger queue[i]} :: 0 <= i < |queue| && i != k + 1 ==> queue[i].prev == old(queue[i].prev)
      ensures k > 0 ==> queue[k - 1].next == old(n.next)
      ensures k + 1 < |queue| ==> queue[k + 1].prev == old(n.prev)
    {
      assert k > 0 ==> queue[k - 1].next == n;
      assert k + 1 < |queue| ==> n.next == queue[k + 1];
      if head == n {
        head := n.next;
      }
      if tail == n {
        tail := n.prev;
      }
      if n.prev != null {
        n.prev.next := n.next;
      }
      if n.next != null {
        n.next.prev := n.prev;
      }
    }

    /** Take a node out of the list wherever it stands. */
    method Unlink(n: OrderNode, ghost k: nat)
      requires Valid() && k < |queue| && queue[k] == n
      modifies this, queue
      ensures Valid()
      ensures queue == Without(old(queue), k) && orders == Without(old(orders), k)
      ensures n.next == old(n.next) && (old(head) == n ==> head == n.next)
      ensures forall m :: m in old(queue) ==> m.order == old(m.order)
    {
      hide Without, Distinct;
      DistinctWithout(queue, k);
      Bypass(n, k);
      ghost var q := queue;
      queue := Without(q, k);
      orders := Without(orders, k);
      forall i, j {:trigger queue[i], queue[j]} | 0 <= i && j == i + 1 && j < |queue|
        ensures queue[i].next == queue[j] && queue[j].prev == queue[i]
      {
        assert queue[i] == q[if i < k then i else i + 1] && queue[j] == q[if j < k then j else j + 1];
      }
    }

    /** A partial fill of the oldest order. */
    method FillHead(traded: uint32)
      requires Valid() && head != null && traded < head.order.quantity
      modifies this, head
      ensures Valid() && queue == old(queue) && head == old(head)
      ensures old(orders) != [] && traded < old(orders)[0].quantity
      ensures orders == old(orders)[0 := PartlyFilled(old(orders)[0], traded)]
      ensures head.order == PartlyFilled(old(head.order), traded)
      ensures head.order.id == old(head.order.id) && head.order.price == old(head.order.price)
    {
      assert queue[0] == head && orders[0] == head.order;
      assert forall i :: 0 < i < |queue| ==> queue[i] != head;
      head.order := head.order.(filled := Wrap32(head.order.filled + traded));
      head.order := head.order.(quantity := head.order.quantity - traded);
      orders := orders[0 := head.order];
    }

    /** Overwrite the remaining quantity of one order in place. */
    method SetQuantity(n: OrderNode, quantity: uint32, ghost k: nat)
      requires Valid() && k < |queue| && queue[k] == n && quantity > 0
      modifies this, n
      ensures Valid() && queue == old(queue)
      ensures orders == old(orders)[k := old(orders[k]).(quantity := quantity)]
      ensures n.order == old(n.order).(quantity := quantity)
    {
      assert forall i :: 0 <= i < |queue| && i != k ==> queue[i] != n;
      assert queue[k].order == orders[k];
      n.order := n.order.(quantity := quantity);
      orders := orders[k := n.order];
    }
  }

  /** One side of the ladder: a map from price to level, sorted best price first. */
  class BookSide {
    const side: Side
    var levels: map<int, PriceLevel>
    /** The orders of the whole side in price-then-time priority. */
    ghost var orders: seq<Order>
    /** The lists and the nodes in use on this side. */
    ghost var lists: set<PriceLevel>
    ghost var nodes: set<OrderNode>

    constructor (side: Side)
      ensures this.side == side && levels == map[] && orders == [] && nodes == {} && lists == {}
      ensures Valid() && Tight()
    {
      this.side := side;
      levels, orders, nodes, lists := map[], [], {}, {};
    }

    ghost predicate Valid()
      reads this, lists, nodes
    {
      && Prioritised(orders, side) && UniqueIds(orders)
      && (forall i :: 0 <= i < |orders| ==> orders[i].price in levels)
      && (forall p :: p in levels ==> levels[p] in lists && LevelValid(p))
      && (forall n :: n in nodes ==> n.order.price in levels && levels[n.order.price] in lists && n in levels[n.order.price].queue)
    }

    ghost predicate LevelValid(p: int)
      requires p in levels && levels[p] in lists
      reads this, lists, nodes
    {
      && levels[p].side == side && levels[p].price == p
      && (forall n :: n in levels[p].queue ==> n in nodes)
      && levels[p].Valid()
      && levels[p].orders == At(orders, p)
    }

    /** No empty level: what holds between operations. */
    ghost predicate Tight()
      reads this, lists
    {
      forall p :: p in levels ==> levels[p] in lists && levels[p].head != null
    }

    /** `begin()` of the sorted map. */
    method Begin() returns (p: int)
      requires levels != map[]
      ensures p in levels
      ensures forall q :: q in levels ==> !Better(side, q, p)
    {
      assert levels.Keys != {};
      BestExists(levels.Keys, side);
      p :| p in levels.Keys && forall q :: q in levels.Keys ==> !Better(side, q, p);
    }

    /** The nodes in use carry exactly the orders of the side. */
    lemma NodeIsOrder(n: OrderNode)
      requires Valid() && n in nodes
      ensures n.order in orders && Has(orders, n.order.id) && orders[IndexOf(orders, n.order.id)] == n.order
      ensures n.order.side == side && n.order.price in levels && levels[n.order.price] in lists
    {
      var level := levels[n.order.price];
      var k :| 0 <= k < |level.queue| && level.queue[k] == n;
      level.NodeAt(k);
      AtMembers(orders, n.order.price);
      assert level.orders[k] in At(orders, n.order.price);
      RunWithout(orders, n.order, k, n.order.price);
    }

    lemma OrderHasNode(id: uint64) returns (n: OrderNode)
      requires Valid() && Has(orders, id)
      ensures n in nodes && n.order == orders[IndexOf(orders, id)]
    {
      var o := orders[IndexOf(orders, id)];
      AtMembers(orders, o.price);
      assert o in orders;
      var level := levels[o.price];
      var k :| 0 <= k < |level.orders| && level.orders[k] == o;
      level.NodeAt(k);
      n := level.queue[k];
    }

    /** Lists of different prices share nothing. */
    lemma LevelsDisjoint(p: int, q: int)
      requires Valid() && p in levels && q in levels && p != q
      ensures levels[p] != levels[q] && Apart(levels[q].queue, levels[p].queue)
    {
      levels[p].NodesPriced();
      levels[q].NodesPriced();
    }

    lemma OthersApart(p: int)
      requires Valid() && p in levels
      ensures forall q :: q in levels && q != p ==> levels[q] != levels[p] && Apart(levels[q].queue, levels[p].queue)
    {
      forall q | q in levels && q != p ensures levels[q] != levels[p] && Apart(levels[q].queue, levels[p].queue) {
        LevelsDisjoint(p, q);
      }
    }

    /** The levels beside one whose objects alone have changed. */
    twostate lemma OthersFramed(p: int)
      requires old(Valid()) && levels == old(levels)
      requires forall q :: q in levels && q != p ==> unchanged(levels[q]) && forall i :: 0 <= i < |levels[q].queue| ==> unchanged(levels[q].queue[i])
      ensures forall q :: q in levels && q != p ==>
        && levels[q].Valid() && levels[q].head == old(levels[q].head)
        && levels[q].queue == old(levels[q].queue) && levels[q].orders == old(levels[q].orders)
    {
      hide PriceLevel.Valid, At, Prioritised, UniqueIds;
      forall q | q in levels && q != p
        ensures levels[q].Valid() && levels[q].head == old(levels[q].head)
        ensures levels[q].queue == old(levels[q].queue) && levels[q].orders == old(levels[q].orders)
      {
        levels[q].Framed();
      }
    }

    /** What taking the k-th node of level p does to the priority order. */
    lemma TakeFacts(p: int, k: nat)
      requires Valid() && p in levels && k < |levels[p].queue|
      ensures var o := levels[p].orders[k];
        var os := Remove(orders, o.id);
        && Has(orders, o.id) && orders[IndexOf(orders, o.id)] == o
        && Prioritised(os, side) && UniqueIds(os)
        && (forall i :: 0 <= i < |os| ==> os[i].price in levels)
        && (forall q :: q in levels ==> At(os, q) == if q == p then Without(levels[p].orders, k) else levels[q].orders)
    {
      var o := levels[p].orders[k];
      assert levels[p].queue[k].order == o;
      RunWithout(orders, o, k, p);
      RemovePreserves(orders, o.id, side);
      var os := Remove(orders, o.id);
      forall q | q in levels
        ensures At(os, q) == if q == p then Without(levels[p].orders, k) else levels[q].orders
      {
        RunWithout(orders, o, k, q);
      }
      forall i | 0 <= i < |os| ensures os[i].price in levels {
        assert os[i] in orders;
      }
    }

    /** The level map lost a node: only the head of its own level may differ. */
    twostate predicate Took(n: OrderNode)
      reads this, lists
    {
      var p := old(n.order.price);
      && levels == old(levels)
      && (forall q :: q in levels ==> levels[q] in lists && levels[q] in old(lists))
      && (forall q :: q in levels && q != p ==> levels[q].head == old(levels[q].head))
      && (p in levels && old(levels[p].head) == n ==> levels[p].head == old(n.next))
    }

    /** Unlink a node from its level, which stays in the map even when this empties it. */
    method Take(n: OrderNode)
      requires Valid() && n in nodes
      modifies this, lists, nodes
      ensures Valid()
      ensures orders == Remove(old(orders), n.order.id) && nodes == old(nodes) - {n}
      ensures lists == old(lists) && Took(n)
      ensures forall m :: m in old(nodes) ==> m.order == old(m.order)
      ensures Has(old(orders), n.order.id) && old(orders)[IndexOf(old(orders), n.order.id)] == n.order
    {
      hide PriceLevel.Valid, At, Remove, IndexOf, Has, Prioritised, UniqueIds, Without;
      var p := n.order.price;
      var level := levels[p];
      ghost var k :| 0 <= k < |level.queue| && level.queue[k] == n;
      ghost var os := Remove(orders, n.order.id);
      level.NodeAt(k);
      TakeFacts(p, k);
      WithoutMembers(level.queue, k);
      OthersApart(p);
      label before:
      level.Unlink(n, k);
      orders := os;
      nodes := nodes - {n};
      OthersFramed@before(p);
      forall m | m in old(nodes) ensures m.order == old(m.order) {
        assert m in old(level.queue) || m !in old(level.queue);
      }
    }

    /** The best level, when it is not empty, holds the front of the whole side. */
    lemma FrontOfBest(p: int)
      requires Valid() && p in levels && levels[p].head != null
      requires forall q :: q in levels ==> !Better(side, q, p)
      ensures orders != [] && orders[0] == levels[p].head.order && At(orders, p) != []
      ensures levels[p].queue != [] && levels[p].queue[0] == levels[p].head
    {
      AtNone(orders, p);
      assert levels[p].orders[0] == levels[p].queue[0].order;
      assert orders[0].price in levels;
      assert orders[0].price == p;
    }

    lemma FillFacts(p: int, traded: uint32)
      requires Valid() && p in levels && levels[p].head != null
      requires forall q :: q in levels ==> !Better(side, q, p)
      requires traded < levels[p].head.order.quantity
      ensures levels[p].queue != [] && levels[p].queue[0] == levels[p].head
      ensures orders != [] && orders[0] == levels[p].orders[0] == levels[p].head.order
      ensures var os := [PartlyFilled(orders[0], traded)] + orders[1..];
        && Prioritised(os, side) && UniqueIds(os)
        && (forall i :: 0 <= i < |os| ==> os[i].price in levels)
        && (forall q :: q in levels ==>
          At(os, q) == if q == p then levels[p].orders[0 := PartlyFilled(orders[0], traded)] else levels[q].orders)
    {
      FrontOfBest(p);
      levels[p].NodeAt(0);
      levels[p].NodesPriced();
      hide PriceLevel.Valid, Prioritised, UniqueIds;
      var os := [PartlyFilled(orders[0], traded)] + orders[1..];
      FillPreserves(orders, traded, side);
      forall q | q in levels
        ensures At(os, q) == if q == p then levels[p].orders[0 := PartlyFilled(orders[0], traded)] else levels[q].orders
      {
        assert levels[q].orders == At(orders, q);
      }
    }

    /** A partial fill of the best order of the side. */
    method FillFront(p: int, traded: uint32)
      requires Valid() && p in levels && levels[p].head != null
      requires forall q :: q in levels ==> !Better(side, q, p)
      requires traded < levels[p].head.order.quantity
      modifies this, lists, nodes
      ensures Valid() && (old(Tight()) ==> Tight())
      ensures levels == old(levels) && lists == old(lists) && nodes == old(nodes)
      ensures old(orders) != [] && traded < old(orders)[0].quantity
      ensures orders == [PartlyFilled(old(orders)[0], traded)] + old(orders)[1..]
      ensures forall m :: m in nodes ==> m.order.id == old(m.order.id)
    {
      hide PriceLevel.Valid, At, PartlyFilled, Prioritised, UniqueIds, Better, Distinct;
      FillFacts(p, traded);
      var level := levels[p];
      ghost var os := [PartlyFilled(orders[0], traded)] + orders[1..];
      OthersApart(p);
      label before:
      level.FillHead(traded);
      orders := os;
      forall q | q in levels && q != p ensures LevelValid(q) {
        levels[q].Framed@before();
      }
    }

    /** Overwrite the remaining quantity of an order without moving it. */
    method SetQuantity(n: OrderNode, quantity: uint32)
      requires Valid() && n in nodes && quantity > 0
      modifies this, lists, nodes
      ensures Valid() && (old(Tight()) ==> Tight())
      ensures levels == old(levels) && lists == old(lists) && nodes == old(nodes)
      ensures Has(old(orders), n.order.id) && orders == Requantify(old(orders), n.order.id, quantity)
      ensures forall m :: m in nodes ==> m.order.id == old(m.order.id)
      ensures n.order == old(n.order).(quantity := quantity)
    {
      hide PriceLevel.Valid, At, Requantify, IndexOf, Has, Prioritised, UniqueIds;
      var p := n.order.price;
      var level := levels[p];
      ghost var k :| 0 <= k < |level.queue| && level.queue[k] == n;
      level.NodeAt(k);
      RequantifyFacts(p, k, quantity);
      ghost var os := Requantify(orders, n.order.id, quantity);
      OthersApart(p);
      label before:
      level.SetQuantity(n, quantity, k);
      orders := os;
      forall q | q in levels && q != p ensures LevelValid(q) {
        levels[q].Framed@before();
      }
    }

    lemma RequantifyFacts(p: int, k: nat, quantity: uint32)
      requires Valid() && p in levels && k < |levels[p].queue| && quantity > 0
      ensures var o := levels[p].orders[k];
        var os := Requantify(orders, o.id, quantity);
        && Has(orders, o.id)
        && Prioritised(os, side) && UniqueIds(os)
        && (forall i :: 0 <= i < |os| ==> os[i].price in levels)
        && (forall q :: q in levels ==>
          At(os, q) == if q == p then levels[p].orders[k := o.(quantity := quantity)] else levels[q].orders)
    {
      hide PriceLevel.Valid, Prioritised, UniqueIds, Requantify;
      levels[p].NodeAt(k);
      var o := levels[p].orders[k];
      levels[p].NodesPriced();
      RunWithout(orders, o, k, p);
      RequantifyPreserves(orders, o.id, quantity, side);
      AtUnique(orders, p);
      IndexIsUnique(At(orders, p), k);
      forall q | q in levels
        ensures At(Requantify(orders, o.id, quantity), q)
             == if q == p then levels[p].orders[k := o.(quantity := quantity)] else levels[q].orders
      {
        AtRequantify(orders, o.id, quantity, q);
        RequantifyAt(At(orders, p), k, quantity);
      }
    }

    /** Put a node behind everything at its price, creating the level when it is missing. */
    method Add(n: OrderNode)
      requires Valid() && Tight()
      requires n !in nodes && n.next == null && n.prev == null
      requires n.order.side == side && n.order.quantity > 0 && !Has(orders, n.order.id)
      modifies this, lists, nodes, n
      ensures Valid() && Tight() && fresh(lists - old(lists))
      ensures orders == Insert(old(orders), n.order) && nodes == old(nodes) + {n}
      ensures forall m :: m in nodes ==> m.order == old(m.order)
    {
      hide *;
      if n.order.price !in levels {
        AddLevel(n);
      } else {
        AddBehind(n);
      }
    }

    method AddLevel(n: OrderNode)
      requires Valid() && Tight()
      requires n !in nodes && n.next == null && n.prev == null
      requires n.order.side == side && n.order.quantity > 0 && !Has(orders, n.order.id)
      requires n.order.price !in levels
      modifies this, lists, n
      ensures Valid() && Tight() && fresh(lists - old(lists))
      ensures orders == Insert(old(orders), n.order) && nodes == old(nodes) + {n}
      ensures forall m :: m in nodes ==> m.order == old(m.order)
    {
      hide PriceLevel.Valid, At, Insert, IndexOf, Has, Prioritised, UniqueIds;
      var p := n.order.price;
      AddFacts(n.order);
      ghost var os := Insert(orders, n.order);
      label before:
      var level := new PriceLevel(n);
      levels := levels[p := level];
      lists := lists + {level};
      nodes := nodes + {n};
      orders := os;
      level.NonEmpty();
      forall q | q in levels && q != p ensures LevelValid(q) && levels[q].head != null {
        assert q in old(levels) && levels[q] == old(levels)[q];
        levels[q].Framed@before();
      }
    }

    method AddBehind(n: OrderNode)
      requires Valid() && Tight()
      requires n !in nodes && n.next == null && n.prev == null
      requires n.order.side == side && n.order.quantity > 0 && !Has(orders, n.order.id)
      requires n.order.price in levels
      modifies this, lists, nodes, n
      ensures Valid() && Tight() && lists == old(lists)
      ensures orders == Insert(old(orders), n.order) && nodes == old(nodes) + {n}
      ensures forall m :: m in nodes ==> m.order == old(m.order)
    {
      hide PriceLevel.Valid, At, Insert, IndexOf, Has, Prioritised, UniqueIds;
      var p := n.order.price;
      AddFacts(n.order);
      ghost var os := Insert(orders, n.order);
      var level := levels[p];
      OthersApart(p);
      label before:
      level.Append(n);
      nodes := nodes + {n};
      orders := os;
      level.NonEmpty();
      OthersFramed@before(p);
    }

    lemma AddFacts(o: Order)
      requires Valid() && Tight() && o.side == side && o.quantity > 0 && !Has(orders, o.id)
      ensures var os := Insert(orders, o);
        && Prioritised(os, side) && UniqueIds(os)
        && (forall i :: 0 <= i < |os| ==> os[i].price in levels || os[i].price == o.price)
        && At(os, o.price) == (if o.price in levels then levels[o.price].orders + [o] else [o])
        && (forall q :: q in levels && q != o.price ==> At(os, q) == levels[q].orders)
      ensures o.price in levels ==> levels[o.price].queue != [] && levels[o.price].tail != null
    {
      hide PriceLevel.Valid, Prioritised, UniqueIds, Insert;
      if o.price in levels {
        levels[o.price].NonEmpty();
      }
      InsertPreserves(orders, o);
      AtInsert(orders, o, o.price);
      var os := Insert(orders, o);
      forall i | 0 <= i < |os| ensures os[i].price in levels || os[i].price == o.price {
        assert os[i] in os;
      }
      AtNone(orders, o.price);
      forall q | q in levels && q != o.price ensures At(Insert(orders, o), q) == levels[q].orders {
        AtInsert(orders, o, q);
      }
    }

    /** Drop an emptied level from the map. */
    method Erase(p: int)
      requires Valid() && p in levels && levels[p].head == null
      modifies this`levels
      ensures Valid() && levels == old(levels) - {p}
    {
      AtNone(orders, p);
      levels[p].NonEmpty();
      levels[p].NodesPriced();
      levels := levels - {p};
    }
  }

  const BLOCK_SIZE: nat := 4096

  class OrderPool {
    var freeList: seq<OrderNode>
    /** Every node of every block ever allocated. */
    ghost var nodes: set<OrderNode>

    ghost predicate Valid()
      reads this
    {
      Distinct(freeList) && forall n :: n in freeList ==> n in nodes
    }

    constructor ()
      ensures Valid() && freeList == [] && nodes == {}
    {
      freeList := [];
      nodes := {};
    }

    method Allocate() returns (n: OrderNode)
      requires Valid()
      modifies this
      ensures Valid() && fresh(nodes - old(nodes)) && old(nodes) <= nodes
      ensures n in nodes && n !in freeList
      ensures n in old(freeList) || fresh(n)
      ensures forall m :: m in freeList || m == n <==> m in old(freeList) || m in nodes - old(nodes)
    {
      if |freeList| == 0 {
        AddBlock();
      }
      n := freeList[|freeList| - 1];
      freeList := freeList[..|freeList| - 1];
    }

    method Deallocate(n: OrderNode)
      requires Valid() && n in nodes && n !in freeList
      modifies this`freeList, n`next, n`prev
      ensures Valid() && freeList == old(freeList) + [n]
      ensures n.next == null && n.prev == null
    {
      n.next := null;
      n.prev := null;
      freeList := freeList + [n];
    }

    method AddBlock()
      requires Valid() && freeList == []
      modifies this
      ensures Valid() && fresh(nodes - old(nodes)) && old(nodes) <= nodes
      ensures |freeList| == BLOCK_SIZE
      ensures forall m :: m in freeList <==> m in nodes - old(nodes)
    {
      for i := 0 to BLOCK_SIZE
        invariant Valid() && old(nodes) <= nodes && fresh(nodes - old(nodes))
        invariant |freeList| == i
        invariant forall m :: m in freeList <==> m in nodes - old(nodes)
      {
        var n := new OrderNode();
        freeList := freeList + [n];
        nodes := nodes + {n};
      }
    }
  }
}
