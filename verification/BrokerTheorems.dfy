/**
 What the broker keeps over every run: no request it is entitled to makes it throw, its ladders
 stay well formed and apart, and passive fills are attributed to the right client.
 */
module BrokerTheorems {
  import opened ExchangeTypes
  import opened BookSpec
  import opened BookOrder
  import opened BookTheorems
  import opened BrokerSpec

  // ----- callbacks only mention the order of the request and orders of its book -----

  predicate EventIn(e: Event, ids: set<uint64>) {
    e.id in ids
  }

  ghost predicate EventsIn(events: seq<Event>, ids: set<uint64>) {
    forall i :: 0 <= i < |events| ==> EventIn(events[i], ids)
  }

  /** A passive fill is always for an order that was resting. */
  ghost predicate PassiveIn(events: seq<Event>, ids: set<uint64>) {
    forall i :: 0 <= i < |events| && events[i].OnFill? && !events[i].active ==> events[i].id in ids
  }

  /** Closing an order other than the incoming one is always a passive fill. */
  ghost predicate OthersPassive(events: seq<Event>, id: uint64) {
    forall i :: 0 <= i < |events| && events[i].id != id && Closes(events[i]) ==> events[i].OnFill? && !events[i].active
  }

  lemma {:induction false} MatchEventsIn(id: uint64, side: Side, quantity: uint32, limit: int, os: seq<Order>)
    ensures EventsIn(Match(id, side, quantity, limit, os).events, Ids(os) + {id})
    ensures PassiveIn(Match(id, side, quantity, limit, os).events, Ids(os))
    ensures OthersPassive(Match(id, side, quantity, limit, os).events, id)
  {
    hide Ids, Crosses, UniqueIds;
    if quantity == 0 || os == [] || !Crosses(side, limit, os[0].price) {
    } else {
      IdsTail(os);
      if os[0].quantity <= quantity {
        MatchEventsIn(id, side, quantity - os[0].quantity, limit, os[1..]);
      }
    }
  }

  lemma HandleEventsIn(b: Book, id: uint64, side: Side, quantity: uint32, price: int, flags: uint8, notify: bool, filled: uint32)
    ensures var ev := HandleNewOrder(b, id, side, quantity, price, flags, notify, filled).events;
      EventsIn(ev, BookIds(b) + {id}) && PassiveIn(ev, BookIds(b)) && OthersPassive(ev, id)
  {
    hide Match, Ids, Insert;
    if quantity > filled {
      var os := SideOf(b, Opposite(side));
      MatchEventsIn(id, side, quantity - filled, price, os);
    }
  }

  lemma ApplyEventsIn(b: Book, req: Request)
    requires WellFormed(b)
    ensures EventsIn(Apply(b, req).events, BookIds(b) + {req.id})
    ensures PassiveIn(Apply(b, req).events, BookIds(b))
    ensures OthersPassive(Apply(b, req).events, req.id)
  {
    hide HandleNewOrder, RemoveFromBook, RequantifyInBook, InBook, BookIds, WellFormed, Find;
    match req
    case New(id, side, quantity, price, flags) =>
      HandleEventsIn(b, id, side, quantity, price, flags, true, 0);
    case Delete(id) =>
    case Modify(id, side, quantity, price) =>
      if InBook(b, id) {
        RemovedIds(b, id);
        HandleEventsIn(RemoveFromBook(b, id), id, side, quantity, price, Find(b, id).flags, false, Find(b, id).filled);
      }
  }

  // ----- the invariant -----

  /** The client that entered each order, as opposed to what the broker's 32-bit table says. */
  type TrueOwners = map<uint64, uint32>

  ghost predicate Disjoint(books: map<uint32, Book>) {
    forall s, t :: s in books && t in books && s != t ==> BookIds(books[s]) !! BookIds(books[t])
  }

  ghost predicate Attributed(st: BrokerState, owner: TrueOwners) {
    forall s, x :: s in st.books && x in BookIds(st.books[s]) ==>
      x in owner && Low32(x) in st.owners && st.owners[Low32(x)] == owner[x]
  }

  ghost predicate Sound(st: BrokerState, owner: TrueOwners) {
    && (forall s :: s in st.books ==> WellFormed(st.books[s]))
    && Disjoint(st.books) && Attributed(st, owner)
  }

  ghost predicate Rests(st: BrokerState, id: uint64) {
    exists s :: s in st.books && id in BookIds(st.books[s])
  }

  /** What the handler guarantees: a request, for a symbol that exists, with something to trade and a fresh id. */
  ghost predicate Entitled(st: BrokerState, p: Payload) {
    && p.kind in {NewOrderKind, DeleteOrderKind, ModifyOrderKind, RejectKind}
    && (p.kind != RejectKind ==> p.symbol in st.books)
    && (p.kind.NewOrderKind? ==> p.quantity > 0 && !Rests(st, p.id))
  }

  /** The new id's low 32 bits do not belong to a resting order of another client. */
  ghost predicate NoCollision(st: BrokerState, owner: TrueOwners, p: Payload) {
    p.kind.NewOrderKind? ==>
      forall s, x :: s in st.books && x in BookIds(st.books[s]) && x in owner && Low32(x) == Low32(p.id) ==> owner[x] == p.client
  }

  function Owners'(owner: TrueOwners, p: Payload): TrueOwners {
    if p.kind.NewOrderKind? then owner[p.id := p.client] else owner
  }

  lemma RestsIn(st: BrokerState, p: Payload)
    requires p.symbol in st.books && !Rests(st, p.id) && WellFormed(st.books[p.symbol])
    ensures !InBook(st.books[p.symbol], p.id)
  {
    HasIsIds(st.books[p.symbol].bids, p.id);
    HasIsIds(st.books[p.symbol].asks, p.id);
  }

  lemma AttributableAll(owners: Owners, events: seq<Event>, ids: set<uint64>)
    requires PassiveIn(events, ids) && forall x :: x in ids ==> Low32(x) in owners
    ensures AllAttributable(owners, events) && Completed(owners, events) == |events|
  {}

  /** A request the broker is entitled to is processed to the end: none of its exceptions is reachable. */
  lemma NeverThrows(st: BrokerState, owner: TrueOwners, p: Payload)
    requires Sound(st, owner) && Entitled(st, p)
    ensures BrokerApply(st, p).1 == Processed
  {
    hide BookIds, WellFormed, InBook, Apply;
    if p.kind != RejectKind {
      var b, req := st.books[p.symbol], RequestOf(p);
      if p.kind.NewOrderKind? {
        RestsIn(st, p);
      }
      ApplyKeeps(b, req);
      ApplyEventsIn(b, req);
      var owners := if p.kind.NewOrderKind? then st.owners[Low32(p.id) := p.client] else st.owners;
      AttributableAll(owners, Apply(b, req).events, BookIds(b));
    }
  }

  lemma {:induction false} ClosedByEvent(events: seq<Event>, x: uint64)
    requires x in ClosedIds(events)
    ensures exists i :: 0 <= i < |events| && events[i].id == x && Closes(events[i])
  {
    if Closes(events[0]) && events[0].id == x {
    } else {
      ClosedByEvent(events[1..], x);
      var i :| 0 <= i < |events[1..]| && events[1..][i].id == x && Closes(events[1..][i]);
      assert events[i + 1] == events[1..][i];
    }
  }

  /** Every passive fill of the request went to the client that entered the order. */
  ghost predicate FillsRight(owners: Owners, events: seq<Event>, owner: TrueOwners) {
    forall i :: 0 <= i < |events| && events[i].OnFill? && !events[i].active ==>
      events[i].id in owner && Low32(events[i].id) in owners && owners[Low32(events[i].id)] == owner[events[i].id]
  }

  /** What a request does to the books and the owner table, once it is known to complete. */
  lemma RequestOutcome(st: BrokerState, owner: TrueOwners, p: Payload)
    requires Sound(st, owner) && Entitled(st, p) && p.kind != RejectKind
    ensures var b, req := st.books[p.symbol], RequestOf(p);
      var st' := BrokerApply(st, p).0;
      && Admissible(b, req) && WellFormed(b)
      && st'.books == st.books[p.symbol := Apply(b, req).book]
      && st'.owners == (if p.kind.NewOrderKind? then st.owners[Low32(p.id) := p.client] else st.owners)
      && WellFormed(Apply(b, req).book)
      && BookIds(Apply(b, req).book) <= BookIds(b) + NewIds(req)
      && ClosedIds(Apply(b, req).events) == BookIds(b) + NewIds(req) - BookIds(Apply(b, req).book)
  {
    hide BookIds, WellFormed, InBook, Apply, Low32;
    if p.kind.NewOrderKind? {
      RestsIn(st, p);
    }
    ApplyKeeps(st.books[p.symbol], RequestOf(p));
    ApplyCloses(st.books[p.symbol], RequestOf(p));
  }

  /** Well-formedness and disjointness are kept whatever the ids collide with. */
  lemma BooksStaySound(st: BrokerState, owner: TrueOwners, p: Payload)
    requires Sound(st, owner) && Entitled(st, p)
    ensures var st' := BrokerApply(st, p).0; (forall s :: s in st'.books ==> WellFormed(st'.books[s])) && Disjoint(st'.books)
  {
    hide BookIds, WellFormed, InBook, Apply, Low32, Attributed, BrokerApply;
    if p.kind != RejectKind {
      RequestOutcome(st, owner, p);
    } else {
      RejectPasses(st, p);
    }
  }

  lemma RejectPasses(st: BrokerState, p: Payload)
    requires p.kind.RejectKind?
    ensures var st' := BrokerApply(st, p).0;
      st'.books == st.books && st'.owners == st.owners && st'.log == st.log && st'.fills == st.fills
  {}

  /**
   Exactly when the broker throws: for a kind or a symbol it does not know, with nothing changed; for a passive fill of an
   order nobody is on record for; and for what the ladder throws. A refusal is passed on to the handler as it came.
   */
  lemma OutcomeExact(st: BrokerState, p: Payload)
    ensures var r, known := BrokerApply(st, p), p.kind in {NewOrderKind, DeleteOrderKind, ModifyOrderKind};
      && (r.1 == InvalidKind <==> !known && p.kind != RejectKind)
      && (r.1 == InvalidSymbol <==> known && p.symbol !in st.books)
      && (r.1 in {InvalidKind, InvalidSymbol} ==> r.0 == st)
      && (p.kind.RejectKind? ==> r == (st.(toClient := st.toClient + [p]), Processed))
      && (known && p.symbol in st.books ==>
          var own, l := (if p.kind.NewOrderKind? then st.owners[Low32(p.id) := p.client] else st.owners), Apply(st.books[p.symbol], RequestOf(p));
          var orphan := exists i :: 0 <= i < |l.events| && l.events[i].OnFill? && !l.events[i].active && Low32(l.events[i].id) !in own;
          && (r.1 == UnknownOwner <==> orphan)
          && (!orphan ==> r.1 == (if l.outcome == Done then Processed else LadderThrew(l.outcome))))
  {
    hide Apply, Low32;
    if p.kind in {NewOrderKind, DeleteOrderKind, ModifyOrderKind} && p.symbol in st.books {
      var own := if p.kind.NewOrderKind? then st.owners[Low32(p.id) := p.client] else st.owners;
      var ev := Apply(st.books[p.symbol], RequestOf(p)).events;
      var n := Completed(own, ev);
      if n == |ev| {
        assert ev[..n] == ev;
      }
    }
  }

  /** Attribution survives a new order, and its own passive fills are right, exactly when it collides with no other client's resting order. */
  lemma AttributionExact(st: BrokerState, owner: TrueOwners, p: Payload)
    requires Sound(st, owner) && Entitled(st, p) && p.kind.NewOrderKind?
    ensures var st' := BrokerApply(st, p).0;
      var events := Apply(st.books[p.symbol], RequestOf(p)).events;
      (Attributed(st', Owners'(owner, p)) && FillsRight(st'.owners, events, owner)) <==> NoCollision(st, owner, p)
  {
    hide BookIds, WellFormed, InBook, Apply, Low32, BrokerApply;
    var b, req, st' := st.books[p.symbol], RequestOf(p), BrokerApply(st, p).0;
    RequestOutcome(st, owner, p);
    ApplyEventsIn(b, req);
    if !NoCollision(st, owner, p) {
      var s, x :| s in st.books && x in BookIds(st.books[s]) && x in owner && Low32(x) == Low32(p.id) && owner[x] != p.client;
      assert x != p.id by { assert !Rests(st, p.id); }
      if s != p.symbol || x in BookIds(st'.books[s]) {
        assert s in st'.books && x in BookIds(st'.books[s]);
        assert !Attributed(st', Owners'(owner, p));
      } else {
        ClosedByEvent(Apply(b, req).events, x);
        assert !FillsRight(st'.owners, Apply(b, req).events, owner);
      }
    }
  }

  // ----- without attribution -----

  ghost function Resting(st: BrokerState): set<uint64> {
    set s, x | s in st.books && x in BookIds(st.books[s]) :: x
  }

  /** The owner table read back: what it says of the orders that rest. */
  ghost function Kept(st: BrokerState): TrueOwners {
    map x | x in Resting(st) && Low32(x) in st.owners :: st.owners[Low32(x)]
  }

  /** Sound but for attribution: somebody is on record as the owner of every resting order. */
  ghost predicate Owned(st: BrokerState) {
    && (forall s :: s in st.books ==> WellFormed(st.books[s]))
    && Disjoint(st.books) && forall s, x :: s in st.books && x in BookIds(st.books[s]) ==> Low32(x) in st.owners
  }

  lemma OwnedIsSound(st: BrokerState)
    requires Owned(st)
    ensures Sound(st, Kept(st))
  {
    hide BookIds, WellFormed, Disjoint, Low32;
  }

  /** That much is kept by every request, colliding ids or not. */
  lemma OwnedStays(st: BrokerState, p: Payload)
    requires Owned(st) && Entitled(st, p)
    ensures Owned(BrokerApply(st, p).0) && BrokerApply(st, p).1 == Processed
  {
    hide BookIds, WellFormed, InBook, Apply, Low32, BrokerApply, Disjoint, Attributed;
    OwnedIsSound(st);
    NeverThrows(st, Kept(st), p);
    BooksStaySound(st, Kept(st), p);
    if p.kind != RejectKind {
      RequestOutcome(st, Kept(st), p);
    } else {
      RejectPasses(st, p);
    }
  }

  /** Soundness is kept, attribution included, when a new id collides with no other client's resting order. */
  lemma SoundStays(st: BrokerState, owner: TrueOwners, p: Payload)
    requires Sound(st, owner) && Entitled(st, p) && NoCollision(st, owner, p)
    ensures Sound(BrokerApply(st, p).0, Owners'(owner, p))
  {
    hide BookIds, WellFormed, InBook, Apply, Low32, BrokerApply, Disjoint;
    BooksStaySound(st, owner, p);
    if p.kind.NewOrderKind? {
      AttributionExact(st, owner, p);
    } else if p.kind != RejectKind {
      RequestOutcome(st, owner, p);
    } else {
      RejectPasses(st, p);
    }
  }
}
