/**
 What every ladder operation keeps and reports, whatever the book and the request: the book stays
 well formed and uncrossed, no "impossible" exception is thrown, and exactly the orders that stop
 resting are reported closed.
 */
module BookTheorems {
  import opened ExchangeTypes
  import opened BookSpec
  import opened BookOrder
  import opened MatchTheorems

  // ----- the invariant -----

  /** Ids and prices of a side. */
  ghost function Keys(os: seq<Order>): set<(uint64, int)> {
    set i | 0 <= i < |os| :: (os[i].id, os[i].price)
  }

  ghost predicate NoIoc(os: seq<Order>) {
    forall i :: 0 <= i < |os| ==> !IsIoc(os[i].flags)
  }

  ghost predicate GoodSide(os: seq<Order>, side: Side) {
    Prioritised(os, side) && UniqueIds(os) && NoIoc(os)
  }

  /** No id on both sides, and every bid strictly below every ask. */
  ghost predicate Apart(bids: set<(uint64, int)>, asks: set<(uint64, int)>) {
    forall b, a :: b in bids && a in asks ==> b.0 != a.0 && b.1 < a.1
  }

  ghost predicate WellFormed(b: Book) {
    GoodSide(b.bids, Buy) && GoodSide(b.asks, Sell) && Apart(Keys(b.bids), Keys(b.asks))
  }

  ghost predicate Uncrossed(b: Book) {
    forall i, j :: 0 <= i < |b.bids| && 0 <= j < |b.asks| ==> b.bids[i].price < b.asks[j].price
  }

  lemma WellFormedIsUncrossed(b: Book)
    requires WellFormed(b)
    ensures Uncrossed(b)
    ensures Ids(b.bids) !! Ids(b.asks)
  {
    forall i, j | 0 <= i < |b.bids| && 0 <= j < |b.asks|
      ensures b.bids[i].price < b.asks[j].price && b.bids[i].id != b.asks[j].id
    {
      assert (b.bids[i].id, b.bids[i].price) in Keys(b.bids);
      assert (b.asks[j].id, b.asks[j].price) in Keys(b.asks);
    }
  }

  ghost function BookIds(b: Book): set<uint64> {
    Ids(b.bids) + Ids(b.asks)
  }

  lemma HasIsIds(os: seq<Order>, id: uint64)
    ensures Has(os, id) <==> id in Ids(os)
  {
    if Has(os, id) {
      assert os[IndexOf(os, id)].id == id;
    }
  }

  lemma KeysHaveIds(os: seq<Order>)
    ensures forall k :: k in Keys(os) ==> k.0 in Ids(os)
    ensures forall x :: x in Ids(os) ==> exists p :: (x, p) in Keys(os)
  {
    forall x | x in Ids(os) ensures exists p :: (x, p) in Keys(os) {
      var i :| 0 <= i < |os| && os[i].id == x;
      assert (x, os[i].price) in Keys(os);
    }
  }

  // ----- each step keeps a good side good -----

  lemma SuffixKeeps(os: seq<Order>, n: nat, side: Side)
    requires n <= |os| && GoodSide(os, side)
    ensures GoodSide(os[n..], side) && Keys(os[n..]) <= Keys(os)
  {
    var r := os[n..];
    assert forall i {:trigger r[i]} :: 0 <= i < |r| ==> r[i] == os[n + i];
    forall k | k in Keys(r) ensures k in Keys(os) {
      var i :| 0 <= i < |r| && k == (r[i].id, r[i].price);
      assert k == (os[n + i].id, os[n + i].price);
    }
  }

  lemma PartKeeps(r: seq<Order>, os: seq<Order>, side: Side)
    requires PartOf(r, os) && GoodSide(os, side)
    ensures GoodSide(r, side) && Keys(r) == Keys(os)
  {
    var q: uint32 :| 0 < q < os[0].quantity && r[0] == PartlyFilled(os[0], q);
    assert r == [r[0]] + r[1..];
    FillPreserves(os, q, side);
    assert forall i {:trigger r[i]} :: 0 <= i < |r| ==> r[i] == if i == 0 then PartlyFilled(os[0], q) else os[i];
    assert forall i :: 0 <= i < |r| ==> (r[i].id, r[i].price) == (os[i].id, os[i].price);
  }

  lemma MatchKeeps(id: uint64, side: Side, quantity: uint32, limit: int, os: seq<Order>)
    requires GoodSide(os, Opposite(side))
    ensures var m := Match(id, side, quantity, limit, os);
      && GoodSide(m.resting, Opposite(side)) && Keys(m.resting) <= Keys(os)
      && (m.left > 0 ==> forall k :: k in Keys(m.resting) ==> !Crosses(side, limit, k.1))
  {
    hide Match, PartOf, Prioritised, UniqueIds, NoIoc;
    var m := Match(id, side, quantity, limit, os);
    MatchSuffix(id, side, quantity, limit, os);
    MatchExhausts(id, side, quantity, limit, os);
    var rest := os[|os| - |m.resting|..];
    SuffixKeeps(os, |os| - |m.resting|, Opposite(side));
    if PartOf(m.resting, rest) {
      PartKeeps(m.resting, rest, Opposite(side));
    }
  }

  lemma RemoveKeeps(os: seq<Order>, id: uint64, side: Side)
    requires GoodSide(os, side)
    ensures GoodSide(Remove(os, id), side) && Keys(Remove(os, id)) <= Keys(os)
    ensures !Has(Remove(os, id), id)
  {
    RemovePreserves(os, id, side);
    HasIsIds(Remove(os, id), id);
    var k, r := IndexOf(os, id), Remove(os, id);
    if k < |os| {
      forall x | x in Keys(r) ensures x in Keys(os) {
        var i :| 0 <= i < |r| && x == (r[i].id, r[i].price);
        var j := if i < k then i else i + 1;
        assert x == (os[j].id, os[j].price);
      }
    }
  }

  lemma InsertKeeps(os: seq<Order>, o: Order)
    requires GoodSide(os, o.side) && o.quantity > 0 && !Has(os, o.id) && !IsIoc(o.flags)
    ensures GoodSide(Insert(os, o), o.side) && Keys(Insert(os, o)) == Keys(os) + {(o.id, o.price)}
  {
    hide Prioritised, UniqueIds, IsIoc, Has;
    InsertPreserves(os, o);
    var r, k := Insert(os, o), InsertPos(os, o.side, o.price);
    forall x | x in Keys(r) ensures x in Keys(os) + {(o.id, o.price)} {
      var i :| 0 <= i < |r| && x == (r[i].id, r[i].price);
      assert r[i] in r;
      if r[i] != o {
        var j :| 0 <= j < |os| && os[j] == r[i];
        assert (os[j].id, os[j].price) in Keys(os);
      }
    }
    forall x | x in Keys(os) + {(o.id, o.price)} ensures x in Keys(r) {
      if x in Keys(os) {
        var j :| 0 <= j < |os| && x == (os[j].id, os[j].price);
        var i := if j < k then j else j + 1;
        assert r[i] == os[j] && x == (r[i].id, r[i].price);
      } else {
        assert r[k] == o;
      }
    }
    forall i | 0 <= i < |r| ensures !IsIoc(r[i].flags) {
      assert r[i] in r;
    }
  }

  lemma RequantifyKeeps(os: seq<Order>, id: uint64, quantity: uint32, side: Side)
    requires GoodSide(os, side) && quantity > 0
    ensures GoodSide(Requantify(os, id, quantity), side) && Keys(Requantify(os, id, quantity)) == Keys(os)
  {
    RequantifyPreserves(os, id, quantity, side);
    var r := Requantify(os, id, quantity);
    assert forall i :: 0 <= i < |os| ==> (r[i].id, r[i].price) == (os[i].id, os[i].price);
    assert forall i :: 0 <= i < |os| ==> r[i].flags == os[i].flags;
  }

  // ----- the operations -----

  lemma ApartShrinks(bids: set<(uint64, int)>, asks: set<(uint64, int)>, bids': set<(uint64, int)>, asks': set<(uint64, int)>)
    requires Apart(bids, asks) && bids' <= bids && asks' <= asks
    ensures Apart(bids', asks')
  {}

  /** Entering an order keeps the book well formed, even when it throws. */
  lemma HandleNewOrderKeeps(b: Book, id: uint64, side: Side, quantity: uint32, price: int, flags: uint8,
                            notify: bool, filled: uint32)
    requires WellFormed(b)
    ensures WellFormed(HandleNewOrder(b, id, side, quantity, price, flags, notify, filled).book)
  {
    hide Match, GoodSide, Keys, Insert;
    if quantity > filled {
      var opp := SideOf(b, Opposite(side));
      var m := Match(id, side, quantity - filled, price, opp);
      MatchKeeps(id, side, quantity - filled, price, opp);
      var b1 := WithSide(b, Opposite(side), m.resting);
      ApartShrinks(Keys(b.bids), Keys(b.asks), Keys(b1.bids), Keys(b1.asks));
      if m.left > 0 && !IsIoc(flags) && !InBook(b1, id) {
        var o := Order(id, side, price, m.left, quantity - filled - m.left, flags);
        InsertKeeps(SideOf(b1, side), o);
        NewKeyApart(b1, o);
      }
    }
  }

  lemma NewKeyApart(b: Book, o: Order)
    requires WellFormed(b) && !InBook(b, o.id)
    requires forall k :: k in Keys(SideOf(b, Opposite(o.side))) ==> !Crosses(o.side, o.price, k.1)
    ensures var own := Keys(SideOf(b, o.side)) + {(o.id, o.price)};
      if o.side.Buy? then Apart(own, Keys(b.asks)) else Apart(Keys(b.bids), own)
  {
    var opp := SideOf(b, Opposite(o.side));
    KeysHaveIds(opp);
    HasIsIds(opp, o.id);
  }

  lemma RemoveFromBookKeeps(b: Book, id: uint64)
    requires WellFormed(b)
    ensures WellFormed(RemoveFromBook(b, id)) && !InBook(RemoveFromBook(b, id), id)
  {
    hide GoodSide, Keys, Remove, Prioritised;
    RemoveKeeps(b.bids, id, Buy);
    RemoveKeeps(b.asks, id, Sell);
    HasIsIds(b.bids, id);
    HasIsIds(b.asks, id);
    WellFormedIsUncrossed(b);
    var b' := RemoveFromBook(b, id);
    ApartShrinks(Keys(b.bids), Keys(b.asks), Keys(b'.bids), Keys(b'.asks));
  }

  lemma RequantifyInBookKeeps(b: Book, id: uint64, quantity: uint32)
    requires WellFormed(b) && quantity > 0
    ensures WellFormed(RequantifyInBook(b, id, quantity))
  {
    hide GoodSide, Keys, Requantify;
    RequantifyKeeps(b.bids, id, quantity, Buy);
    RequantifyKeeps(b.asks, id, quantity, Sell);
  }

  lemma NewOrderKeeps(b: Book, id: uint64, side: Side, quantity: uint32, price: int, flags: uint8)
    requires WellFormed(b)
    ensures WellFormed(NewOrder(b, id, side, quantity, price, flags).book)
  {
    HandleNewOrderKeeps(b, id, side, quantity, price, flags, true, 0);
  }

  lemma DeleteOrderKeeps(b: Book, id: uint64)
    requires WellFormed(b)
    ensures WellFormed(DeleteOrder(b, id).book)
  {
    RemoveFromBookKeeps(b, id);
  }

  lemma ModifyOrderKeeps(b: Book, id: uint64, side: Side, quantity: uint32, price: int)
    requires WellFormed(b)
    ensures WellFormed(ModifyOrder(b, id, side, quantity, price).book)
  {
    hide WellFormed, HandleNewOrder, RemoveFromBook, RequantifyInBook;
    if InBook(b, id) {
      var o := Find(b, id);
      RemoveFromBookKeeps(b, id);
      if o.filled < quantity {
        RequantifyInBookKeeps(b, id, quantity);
        HandleNewOrderKeeps(RemoveFromBook(b, id), id, side, quantity, price, o.flags, false, o.filled);
      }
    }
  }

  // ----- exceptions -----

  lemma NothingInserted(b: Book, id: uint64, side: Side, quantity: uint32, limit: int)
    requires WellFormed(b) && !InBook(b, id)
    ensures !InBook(WithSide(b, Opposite(side), Match(id, side, quantity, limit, SideOf(b, Opposite(side))).resting), id)
  {
    hide Match, GoodSide, Keys;
    var os := SideOf(b, Opposite(side));
    var m := Match(id, side, quantity, limit, os);
    MatchKeeps(id, side, quantity, limit, os);
    KeysHaveIds(os);
    KeysHaveIds(m.resting);
    HasIsIds(os, id);
    HasIsIds(m.resting, id);
  }

  /** What a match with something left over leaves resting is what did not cross. */
  lemma {:induction false} LeftUncrossed(id: uint64, side: Side, quantity: uint32, limit: int, os: seq<Order>, x: uint64)
    requires Prioritised(os, Opposite(side)) && Match(id, side, quantity, limit, os).left > 0
    ensures Has(Match(id, side, quantity, limit, os).resting, x) <==>
      exists k :: 0 <= k < |os| && os[k].id == x && !Crosses(side, limit, os[k].price)
  {
    hide Prioritised, FillEvents, Crosses, PartlyFilled, Has;
    HasSome(os, x);
    if os == [] {
    } else if !Crosses(side, limit, os[0].price) {
      NothingCrosses(os, side, limit);
    } else {
      var t := os[1..];
      Tail(os, Opposite(side));
      LeftUncrossed(id, side, quantity - os[0].quantity, limit, t, x);
      assert forall k {:trigger os[k]} :: 0 < k < |os| ==> os[k] == t[k - 1];
      assert forall k {:trigger t[k]} :: 0 <= k < |t| ==> t[k] == os[k + 1];
    }
  }

  lemma HasSome(os: seq<Order>, x: uint64)
    ensures Has(os, x) <==> exists k :: 0 <= k < |os| && os[k].id == x
  {
    HasIsIds(os, x);
  }

  /** A new order meets its own id in the book: it rests on the same side, or on the other out of reach. */
  predicate MeetsItself(b: Book, id: uint64, side: Side, price: int) {
    var opp := SideOf(b, Opposite(side));
    Has(SideOf(b, side), id) || exists k :: 0 <= k < |opp| && opp[k].id == id && !Crosses(side, price, opp[k].price)
  }

  /**
   A new order throws exactly when its quantity is zero, or when it is larger than all it can trade against, may rest, and
   meets its own id in the book.
   */
  lemma NewOrderThrows(b: Book, id: uint64, side: Side, quantity: uint32, price: int, flags: uint8)
    requires WellFormed(b)
    ensures var outcome := NewOrder(b, id, side, quantity, price, flags).outcome;
      && (outcome == FilledExceedsQuantity <==> quantity == 0)
      && (outcome == OrderExists <==>
          quantity > Crossing(SideOf(b, Opposite(side)), side, price) && !IsIoc(flags) && MeetsItself(b, id, side, price))
      && (!InBook(b, id) && quantity > 0 ==> outcome == Done)
  {
    hide Match, GoodSide, Keys, Apart, Crossing, MeetsItself;
    var opp := SideOf(b, Opposite(side));
    var m := Match(id, side, quantity, price, opp);
    GoodSidePrioritised(opp, Opposite(side));
    MatchFillsAllItCan(id, side, quantity, price, opp);
    if !InBook(b, id) && quantity > 0 {
      NothingInserted(b, id, side, quantity, price);
    }
    if m.left > 0 {
      LeftUncrossed(id, side, quantity, price, opp, id);
      MeetsWhere(b, id, side, price, m.resting);
    }
  }

  lemma GoodSidePrioritised(os: seq<Order>, side: Side)
    requires GoodSide(os, side)
    ensures Prioritised(os, side)
  {}

  lemma MeetsWhere(b: Book, id: uint64, side: Side, price: int, resting: seq<Order>)
    requires var opp := SideOf(b, Opposite(side));
      Has(resting, id) <==> exists k :: 0 <= k < |opp| && opp[k].id == id && !Crosses(side, price, opp[k].price)
    ensures InBook(WithSide(b, Opposite(side), resting), id) <==> MeetsItself(b, id, side, price)
  {}

  /** An amend never throws: its order was removed before being entered again. */
  lemma ModifyNeverThrows(b: Book, id: uint64, side: Side, quantity: uint32, price: int)
    requires WellFormed(b)
    ensures ModifyOrder(b, id, side, quantity, price).outcome == Done
  {
    hide Match, WellFormed, InBook, Find, RemoveFromBook;
    if InBook(b, id) && Find(b, id).filled < quantity {
      RemoveFromBookKeeps(b, id);
      NothingInserted(RemoveFromBook(b, id), id, side, quantity - Find(b, id).filled, price);
    }
  }

  /** What the exchange asks of a request: a new order has something to trade and an id not in the book. */
  predicate Admissible(b: Book, req: Request) {
    req.New? ==> req.quantity > 0 && !InBook(b, req.id)
  }

  /** Every request keeps the book well formed, and an admissible one completes. */
  lemma ApplyKeeps(b: Book, req: Request)
    requires WellFormed(b)
    ensures WellFormed(Apply(b, req).book)
    ensures Admissible(b, req) ==> Apply(b, req).outcome == Done
  {
    hide WellFormed, InBook, NewOrder, DeleteOrder, ModifyOrder;
    match req
    case New(id, side, quantity, price, flags) =>
      NewOrderKeeps(b, id, side, quantity, price, flags);
      NewOrderThrows(b, id, side, quantity, price, flags);
    case Delete(id) =>
      DeleteOrderKeeps(b, id);
      DeleteOutcome(b, id);
    case Modify(id, side, quantity, price) =>
      ModifyOrderKeeps(b, id, side, quantity, price);
      ModifyNeverThrows(b, id, side, quantity, price);
  }

  lemma DeleteOutcome(b: Book, id: uint64)
    ensures DeleteOrder(b, id).outcome == Done
  {}

  /** The book after a sequence of requests, starting empty. */
  function Replay(reqs: seq<Request>): Book {
    if reqs == [] then Book([], []) else Apply(Replay(reqs[..|reqs| - 1]), reqs[|reqs| - 1]).book
  }

  /** In every reachable state every bid is strictly below every ask, whatever was requested. */
  lemma {:induction false} NeverCrossed(reqs: seq<Request>)
    ensures WellFormed(Replay(reqs)) && Uncrossed(Replay(reqs))
  {
    if reqs != [] {
      NeverCrossed(reqs[..|reqs| - 1]);
      ApplyKeeps(Replay(reqs[..|reqs| - 1]), reqs[|reqs| - 1]);
    }
    WellFormedIsUncrossed(Replay(reqs));
  }

  // ----- which orders are reported closed -----

  predicate Closes(e: Event) {
    (e.OnFill? && e.closed) || e.OnDeleteOrder?
  }

  /** Ids reported closed, by a closing fill or a close. */
  function ClosedIds(events: seq<Event>): set<uint64> {
    if events == [] then {} else (if Closes(events[0]) then {events[0].id} else {}) + ClosedIds(events[1..])
  }

  lemma {:induction false} ClosedConcat(a: seq<Event>, b: seq<Event>)
    ensures ClosedIds(a + b) == ClosedIds(a) + ClosedIds(b)
  {
    if a == [] {
      assert a + b == b;
    } else {
      assert (a + b)[1..] == a[1..] + b;
      ClosedConcat(a[1..], b);
    }
  }

  lemma FillCloses(id: uint64, side: Side, o: Order, q: uint32, c: bool, d: bool)
    ensures ClosedIds(FillEvents(id, side, o, q, c, d)) == (if c then {o.id} else {}) + (if d then {id} else {})
  {
    var f := FillEvents(id, side, o, q, c, d);
    assert f == [f[0]] + ([f[1]] + [f[2]]);
    ClosedConcat([f[0]], [f[1]] + [f[2]]);
    ClosedConcat([f[1]], [f[2]]);
  }

  lemma IdsTail(os: seq<Order>)
    requires os != []
    ensures Ids(os) == {os[0].id} + Ids(os[1..])
    ensures UniqueIds(os) ==> os[0].id !in Ids(os[1..])
  {
    assert forall i :: 0 <= i < |os[1..]| ==> os[1..][i].id == os[i + 1].id;
    forall x | x in Ids(os) ensures x in {os[0].id} + Ids(os[1..]) {
      var i :| 0 <= i < |os| && os[i].id == x;
      if i > 0 {
        assert os[1..][i - 1].id == x;
      }
    }
  }

  /** A match closes exactly the orders it takes out of the queue, and the incoming one when nothing is left. */
  lemma {:induction false} MatchCloses(id: uint64, side: Side, quantity: uint32, limit: int, os: seq<Order>)
    requires UniqueIds(os)
    ensures var m := Match(id, side, quantity, limit, os);
      && Ids(m.resting) <= Ids(os)
      && ClosedIds(m.events) == (Ids(os) - Ids(m.resting)) + (if m.left == 0 && quantity > 0 then {id} else {})
  {
    hide UniqueIds, FillEvents, Crosses, Ids, PartlyFilled;
    if quantity == 0 || os == [] || !Crosses(side, limit, os[0].price) {
    } else if os[0].quantity <= quantity {
      var left := quantity - os[0].quantity;
      IdsTail(os);
      Tail(os, Opposite(side));
      MatchCloses(id, side, left, limit, os[1..]);
      var rest := Match(id, side, left, limit, os[1..]);
      FillCloses(id, side, os[0], os[0].quantity, true, left == 0);
      ClosedConcat(FillEvents(id, side, os[0], os[0].quantity, true, left == 0), rest.events);
    } else {
      FillCloses(id, side, os[0], quantity, false, true);
      FillPreserves(os, quantity, side);
    }
  }

  /** An incoming order ends up resting or reported closed, never both and never neither. */
  lemma HandleNewOrderCloses(b: Book, id: uint64, side: Side, quantity: uint32, price: int, flags: uint8,
                             notify: bool, filled: uint32)
    requires WellFormed(b) && !InBook(b, id) && quantity > filled && (notify || !IsIoc(flags))
    ensures var r := HandleNewOrder(b, id, side, quantity, price, flags, notify, filled);
      && BookIds(r.book) <= BookIds(b) + {id}
      && ClosedIds(r.events) == BookIds(b) + {id} - BookIds(r.book)
      && (id in BookIds(r.book) <==> r.left > 0 && !IsIoc(flags))
  {
    hide Match, Keys, Insert, Ids, Apart, Prioritised, UniqueIds, NoIoc;
    var os := SideOf(b, Opposite(side));
    var m := Match(id, side, quantity - filled, price, os);
    WellFormedIsUncrossed(b);
    MatchCloses(id, side, quantity - filled, price, os);
    NothingInserted(b, id, side, quantity - filled, price);
    HasIsIds(b.bids, id);
    HasIsIds(b.asks, id);
    ClosedConcat(m.events, [OnNewOrder(id, side, m.left, price, flags)]);
    ClosedConcat(m.events, [OnDeleteOrder(id, false)]);
    assert m.events + [] == m.events;
    var b1 := WithSide(b, Opposite(side), m.resting);
    if m.left > 0 && !IsIoc(flags) {
      var o := Order(id, side, price, m.left, quantity - filled - m.left, flags);
      InsertPreserves(SideOf(b1, side), o);
    }
  }

  lemma RemovedIds(b: Book, id: uint64)
    requires WellFormed(b) && InBook(b, id)
    ensures BookIds(RemoveFromBook(b, id)) == BookIds(b) - {id} && id in BookIds(b)
  {
    hide Prioritised, NoIoc, Keys, Apart, Remove, Ids, UniqueIds;
    WellFormedIsUncrossed(b);
    HasIsIds(b.bids, id);
    HasIsIds(b.asks, id);
    RemovePreserves(b.bids, id, Buy);
    RemovePreserves(b.asks, id, Sell);
  }

  lemma ClosedOne(e: Event)
    ensures ClosedIds([e]) == if Closes(e) then {e.id} else {}
  {}

  lemma ModifyCloses(b: Book, id: uint64, side: Side, quantity: uint32, price: int)
    requires WellFormed(b)
    ensures var r := ModifyOrder(b, id, side, quantity, price);
      && BookIds(r.book) <= BookIds(b)
      && ClosedIds(r.events) == BookIds(b) - BookIds(r.book)
  {
    hide WellFormed, HandleNewOrder, RemoveFromBook, BookIds, InBook;
    ClosedOne(OnCancelReject(id));
    ClosedOne(OnDeleteOrder(id, true));
    if InBook(b, id) {
      var o := Find(b, id);
      RemovedIds(b, id);
      RemoveFromBookKeeps(b, id);
      if o.filled < quantity {
        ClosedOne(OnModifyOrder(id, side, quantity - o.filled, price));
        RequantifiedIds(b, id, quantity);
        RestingIsNotIoc(b, id);
        HandleNewOrderCloses(RemoveFromBook(b, id), id, side, quantity, price, o.flags, false, o.filled);
        ModifyNeverThrows(b, id, side, quantity, price);
        var r := HandleNewOrder(RemoveFromBook(b, id), id, side, quantity, price, o.flags, false, o.filled);
        ClosedOne(OnModifyOrder(id, side, r.left, price));
        ClosedConcat(r.events, [OnModifyOrder(id, side, r.left, price)]);
        ClosedConcat(r.events, [OnDeleteOrder(id, true)]);
      }
    }
  }

  lemma RequantifiedIds(b: Book, id: uint64, quantity: uint32)
    requires quantity > 0
    ensures BookIds(RequantifyInBook(b, id, quantity)) == BookIds(b)
  {
    RequantifyPreserves(b.bids, id, quantity, Buy);
    RequantifyPreserves(b.asks, id, quantity, Sell);
  }

  /** No resting order is immediate-or-cancel, so an amend cannot lose its order without a word. */
  lemma RestingIsNotIoc(b: Book, id: uint64)
    requires WellFormed(b) && InBook(b, id)
    ensures !IsIoc(Find(b, id).flags)
  {}

  function NewIds(req: Request): set<uint64> {
    if req.New? then {req.id} else {}
  }

  /** After an admissible request, the ids reported closed are exactly those that do not rest any more. */
  lemma ApplyCloses(b: Book, req: Request)
    requires WellFormed(b) && Admissible(b, req)
    ensures var r := Apply(b, req);
      && BookIds(r.book) <= BookIds(b) + NewIds(req)
      && ClosedIds(r.events) == BookIds(b) + NewIds(req) - BookIds(r.book)
  {
    hide WellFormed, InBook, ModifyOrder, HandleNewOrder, RemoveFromBook, BookIds;
    match req
    case New(id, side, quantity, price, flags) =>
      HandleNewOrderCloses(b, id, side, quantity, price, flags, true, 0);
    case Delete(id) =>
      ClosedOne(OnCancelReject(id));
      ClosedOne(OnDeleteOrder(id, true));
      if InBook(b, id) {
        RemovedIds(b, id);
      }
    case Modify(id, side, quantity, price) =>
      ModifyCloses(b, id, side, quantity, price);
  }
}
