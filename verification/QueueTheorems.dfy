/** Time priority: what entering, deleting and amending do to the queues of orders at one price. */
module QueueTheorems {
  import opened ExchangeTypes
  import opened BookSpec
  import opened BookOrder
  import opened BookTheorems
  import opened MatchTheorems
  import opened Replication
  import opened OrderAccounts
  import opened Settlement

  /** The orders of one side at one price, first to trade first. */
  ghost function Queue(b: Book, side: Side, p: int): seq<Order> {
    At(SideOf(b, side), p)
  }

  lemma EntryJoins(b: Book, id: uint64, side: Side, quantity: uint32, price: int, flags: uint8, notify: bool, filled: uint32, p: int)
    requires WellFormed(b) && !InBook(b, id) && (notify || !IsIoc(flags)) && quantity > filled
    ensures var r := HandleNewOrder(b, id, side, quantity, price, flags, notify, filled);
      Queue(r.book, side, p) ==
        if p == price && r.left > 0 && !IsIoc(flags)
        then Queue(b, side, p) + [Order(id, side, price, r.left, quantity - filled - r.left, flags)]
        else Queue(b, side, p)
  {
    hide Match, Insert, WellFormed, InBook, At;
    var m := Match(id, side, quantity - filled, price, SideOf(b, Opposite(side)));
    NothingInserted(b, id, side, quantity - filled, price);
    Sides(b, side);
    AtInsert(SideOf(b, side), Order(id, side, price, m.left, quantity - filled - m.left, flags), p);
  }

  lemma EntryFilled(b: Book, id: uint64, side: Side, quantity: uint32, price: int, flags: uint8, notify: bool, filled: uint32)
    requires WellFormed(b) && !InBook(b, id) && (notify || !IsIoc(flags)) && quantity > filled
    ensures var r := HandleNewOrder(b, id, side, quantity, price, flags, notify, filled);
      && Filled(r.events, id) == Min(quantity - filled, Crossing(SideOf(b, Opposite(side)), side, price)) == quantity - filled - r.left
      && (InBook(r.book, id) <==> r.left > 0 && !IsIoc(flags))
  {
    hide Match, GoodSide, Keys, BookTheorems.Apart, Has, HandleNewOrder, Crossing, Filled;
    var os := SideOf(b, Opposite(side));
    EntryFills(b, id, side, quantity, price, flags, notify, filled, id);
    WellFormedIsUncrossed(b);
    GoodSidePrioritised(os, Opposite(side));
    MatchConserves(id, side, quantity - filled, price, os);
    MatchFillsAllItCan(id, side, quantity - filled, price, os);
    LeftIs(b, id, side, quantity, price, flags, notify, filled);
    HandleNewOrderCloses(b, id, side, quantity, price, flags, notify, filled);
    NotInBook(HandleNewOrder(b, id, side, quantity, price, flags, notify, filled).book, id);
  }

  lemma LeftIs(b: Book, id: uint64, side: Side, quantity: uint32, price: int, flags: uint8, notify: bool, filled: uint32)
    requires quantity > filled
    ensures HandleNewOrder(b, id, side, quantity, price, flags, notify, filled).left
      == Match(id, side, quantity - filled, price, SideOf(b, Opposite(side))).left
  {
    hide Match, Insert, InBook;
  }

  /**
   A new order trades all it can and, if something is left and may rest, joins the back of its price's queue with what is
   left and what it has filled; no other queue of its side notices.
   */
  lemma RestingJoinsTheBack(b: Book, req: Request, p: int)
    requires WellFormed(b) && req.New? && Admissible(b, req)
    ensures var r := Apply(b, req);
      var traded := Min(req.quantity, Crossing(SideOf(b, Opposite(req.side)), req.side, req.price));
      && Filled(r.events, req.id) == traded && (InBook(r.book, req.id) <==> traded < req.quantity && !IsIoc(req.flags))
      && Queue(r.book, req.side, p) ==
        if p == req.price && InBook(r.book, req.id)
        then Queue(b, req.side, p) + [Order(req.id, req.side, req.price, req.quantity - traded, traded, req.flags)]
        else Queue(b, req.side, p)
  {
    hide WellFormed, InBook, HandleNewOrder, At, IsIoc, Crossing, Filled;
    EntryFilled(b, req.id, req.side, req.quantity, req.price, req.flags, true, 0);
    EntryJoins(b, req.id, req.side, req.quantity, req.price, req.flags, true, 0, p);
  }

  /**
   What an entry reports: its match, then, unless it is immediate-or-cancel, that it was accepted with what has come to
   rest; if it is, that it is over in case something is left.
   */
  lemma EntryReports(b: Book, req: Request)
    requires WellFormed(b) && req.New? && Admissible(b, req)
    ensures var rests := req.quantity - Min(req.quantity, Crossing(SideOf(b, Opposite(req.side)), req.side, req.price));
      Apply(b, req).events == Match(req.id, req.side, req.quantity, req.price, SideOf(b, Opposite(req.side))).events +
        if !IsIoc(req.flags) then [OnNewOrder(req.id, req.side, rests, req.price, req.flags)]
        else if rests > 0 then [OnDeleteOrder(req.id, false)] else []
  {
    hide WellFormed, Match, Insert, Crossing, InBook;
    EntryFilled(b, req.id, req.side, req.quantity, req.price, req.flags, true, 0);
    LeftIs(b, req.id, req.side, req.quantity, req.price, req.flags, true, 0);
    var m := Match(req.id, req.side, req.quantity, req.price, SideOf(b, Opposite(req.side)));
    assert m.events + [] == m.events;
  }

  /** A request for a resting order that takes it out: a delete, or an amend to no more than the order has filled. */
  predicate Withdraws(b: Book, req: Request) {
    !req.New? && InBook(b, req.id) && (req.Modify? ==> Find(b, req.id).filled >= req.quantity)
  }

  /** A withdrawal takes the order out of its queue and leaves every other queue, and the order of the rest, alone; the order is reported closed. */
  lemma DeleteTakesOut(b: Book, req: Request, side: Side, p: int)
    requires WellFormed(b) && Withdraws(b, req)
    ensures var o, q, q' := Find(b, req.id), Queue(b, side, p), Queue(Apply(b, req).book, side, p);
      if o.side == side && o.price == p then Has(q, req.id) && q[IndexOf(q, req.id)] == o && q' == Without(q, IndexOf(q, req.id))
      else q' == q
    ensures Apply(b, req).events == [OnDeleteOrder(req.id, true)] && Apply(b, req).outcome == Done
  {
    var id := req.id;
    assert Apply(b, req) == DeleteOrder(b, id);
    hide At, Keys, BookTheorems.Apart;
    HasIsIds(b.bids, id);
    HasIsIds(b.asks, id);
    WellFormedIsUncrossed(b);
    var o := Find(b, id);
    AtRemove(SideOf(b, o.side), id, p);
    AtIndex(SideOf(b, o.side), id, o.price);
    InQueue(SideOf(b, o.side), id);
  }

  /** A request is rejected exactly when its order does not rest, and then nothing else happens. */
  lemma RejectedExactly(b: Book, req: Request)
    requires WellFormed(b)
    ensures var r := Apply(b, req);
      && (OnCancelReject(req.id) in r.events <==> !req.New? && !InBook(b, req.id))
      && (OnCancelReject(req.id) in r.events ==> r.events == [OnCancelReject(req.id)] && r.book == b && r.outcome == Done)
  {
    hide WellFormed, HandleNewOrder, RemoveFromBook, RequantifyInBook, InBook, Find;
    match req
    case New(id, side, quantity, price, flags) =>
      NoRejects(b, id, side, quantity, price, flags, true, 0);
    case Delete(id) =>
    case Modify(id, side, quantity, price) =>
      if InBook(b, id) {
        var o := Find(b, id);
        NoRejects(RemoveFromBook(b, id), id, side, quantity, price, o.flags, false, o.filled);
      }
  }

  lemma NoRejects(b: Book, id: uint64, side: Side, quantity: uint32, price: int, flags: uint8, notify: bool, filled: uint32)
    ensures forall e :: e in HandleNewOrder(b, id, side, quantity, price, flags, notify, filled).events ==> !e.OnCancelReject?
  {
    hide Match, InBook, Insert;
    if quantity > filled {
      MatchRejectsNothing(id, side, quantity - filled, price, SideOf(b, Opposite(side)));
    }
  }

  lemma {:induction false} MatchRejectsNothing(id: uint64, side: Side, quantity: uint32, limit: int, os: seq<Order>)
    ensures forall e :: e in Match(id, side, quantity, limit, os).events ==> !e.OnCancelReject?
    decreases |os|
  {
    hide Crosses;
    if quantity > 0 && os != [] && Crosses(side, limit, os[0].price) && os[0].quantity <= quantity {
      MatchRejectsNothing(id, side, quantity - os[0].quantity, limit, os[1..]);
    }
  }

  lemma InQueue(os: seq<Order>, id: uint64)
    requires Has(os, id)
    ensures var o := os[IndexOf(os, id)]; Has(At(os, o.price), id) && At(os, o.price)[IndexOf(At(os, o.price), id)] == o
  {
    var o := os[IndexOf(os, id)];
    var k := IndexOf(os, id);
    AtIndex(os, id, o.price);
    AtSplit(os, k, o.price);
  }

  /** An amend at the order's own price and side that leaves something to fill changes its quantity where it stands and moves nothing. */
  lemma AmendKeepsPlace(b: Book, req: Request, side: Side, p: int)
    requires WellFormed(b) && req.Modify? && InBook(b, req.id)
    requires var o := Find(b, req.id); o.filled < req.quantity && o.price == req.price && o.side == req.side
    ensures var o, q, q' := Find(b, req.id), Queue(b, side, p), Queue(Apply(b, req).book, side, p);
      if o.side == side && o.price == p
      then Has(q, req.id) && q[IndexOf(q, req.id)] == o && q' == q[IndexOf(q, req.id) := o.(quantity := req.quantity)]
      else q' == q
    ensures Apply(b, req).events == [OnModifyOrder(req.id, req.side, req.quantity - Find(b, req.id).filled, req.price)]
  {
    var id := req.id;
    assert Apply(b, req).book == RequantifyInBook(b, id, req.quantity);
    hide At, Keys, BookTheorems.Apart, Apply;
    HasIsIds(b.bids, id);
    HasIsIds(b.asks, id);
    WellFormedIsUncrossed(b);
    var o := Find(b, id);
    AtRequantify(SideOf(b, o.side), id, req.quantity, p);
    InQueue(SideOf(b, o.side), id);
  }

  /** A queue as it stands without one order. */
  ghost function QueueWithout(b: Book, id: uint64, side: Side, p: int): seq<Order> {
    var q := Queue(b, side, p);
    if Has(q, id) then Without(q, IndexOf(q, id)) else q
  }

  lemma TakenOut(b: Book, id: uint64, side: Side, p: int)
    requires WellFormed(b) && InBook(b, id)
    ensures Queue(RemoveFromBook(b, id), side, p) == QueueWithout(b, id, side, p)
  {
    assert Apply(b, Delete(id)).book == RemoveFromBook(b, id);
    assert Withdraws(b, Delete(id));
    hide Apply, RemoveFromBook, At, WellFormed, Find, Queue, Withdraws;
    DeleteTakesOut(b, Delete(id), side, p);
    if Has(Queue(b, side, p), id) {
      QueuedIsFound(b, id, side, p);
    }
  }

  lemma QueuedIsFound(b: Book, id: uint64, side: Side, p: int)
    requires WellFormed(b) && InBook(b, id) && Has(Queue(b, side, p), id)
    ensures Find(b, id).side == side && Find(b, id).price == p
  {
    hide At, Keys, BookTheorems.Apart;
    var os := SideOf(b, side);
    AtMembers(os, p, id);
    HasIsIds(b.bids, id);
    HasIsIds(b.asks, id);
    WellFormedIsUncrossed(b);
    assert GoodSide(b.bids, Buy) && GoodSide(b.asks, Sell);
  }

  lemma {:induction false} AtMembers(os: seq<Order>, p: int, id: uint64)
    requires UniqueIds(os) && Has(At(os, p), id)
    ensures Has(os, id) && os[IndexOf(os, id)].price == p
  {
    hide UniqueIds;
    if os[0].id == id {
      if os[0].price != p {
        assert At(os, p) == At(os[1..], p);
        Tail(os, Buy);
        AtMembers(os[1..], p, id);
      }
    } else {
      assert os[0].price == p ==> At(os, p)[1..] == At(os[1..], p);
      Tail(os, Buy);
      AtMembers(os[1..], p, id);
    }
  }

  /**
   An order re-priced or changed to the other side leaves its queue, trades all it can of what it has not filled and, if
   anything is left, goes to the back of its new queue; no other queue of the new side notices.
   */
  lemma RepriceGoesToTheBack(b: Book, req: Request, p: int)
    requires WellFormed(b) && req.Modify? && InBook(b, req.id)
    requires var o := Find(b, req.id); o.filled < req.quantity && !(o.price == req.price && o.side == req.side)
    ensures var o, r := Find(b, req.id), Apply(b, req);
      var traded, open := Filled(r.events, req.id), req.quantity - o.filled;
      && traded <= open && (InBook(r.book, req.id) <==> traded < open)
      && Queue(r.book, req.side, p) == QueueWithout(b, req.id, req.side, p) +
        if p == req.price && traded < open then [Order(req.id, req.side, req.price, open - traded, traded, o.flags)] else []
  {
    hide WellFormed, InBook, Find, RemoveFromBook, HandleNewOrder, At, IsIoc, Apply, Match, Queue, QueueWithout, Filled, Crossing;
    var o, b1 := Find(b, req.id), RemoveFromBook(b, req.id);
    var r := HandleNewOrder(b1, req.id, req.side, req.quantity, req.price, o.flags, false, o.filled);
    RepriceEvents(b, req);
    RemoveFromBookKeeps(b, req.id);
    EntryFilled(b1, req.id, req.side, req.quantity, req.price, o.flags, false, o.filled);
    EntryFills(b1, req.id, req.side, req.quantity, req.price, o.flags, false, o.filled, req.id);
    var m := Match(req.id, req.side, req.quantity - o.filled, req.price, SideOf(b1, Opposite(req.side)));
    NoFills(m.events, [if m.left > 0 then OnModifyOrder(req.id, req.side, m.left, req.price) else OnDeleteOrder(req.id, true)], req.id);
    EntryJoins(b1, req.id, req.side, req.quantity, req.price, o.flags, false, o.filled, p);
    TakenOut(b, req.id, req.side, p);
  }
}
