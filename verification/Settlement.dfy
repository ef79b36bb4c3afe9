/**
 Conservation to the end of an order's life: every order ever entered rests, was traded out or was withdrawn, and the
 fills of one that was traded out add up to what it was given, whichever side of the last trade it was on.
 */
module Settlement {
  import opened ExchangeTypes
  import opened BookSpec
  import opened BookOrder
  import opened MatchTheorems
  import opened BookTheorems
  import opened OrderAccounts

  /** All fills reported are what was last given, plus what an amend forgot. */
  predicate PaidOut(a: Account) {
    a.filled == a.given + a.forgotten
  }

  ghost predicate Squared(run: Run) {
    && run.accounts.Keys == BookIds(run.book) + run.tradedOut + run.withdrawn
    && BookIds(run.book) !! run.tradedOut && BookIds(run.book) !! run.withdrawn && run.tradedOut !! run.withdrawn
    && forall x :: x in run.tradedOut ==> PaidOut(run.accounts[x])
  }

  // ----- which orders a fill closes -----

  lemma {:induction false} FilledOutCloses(events: seq<Event>)
    ensures FilledOut(events) <= ClosedIds(events)
  {
    if events != [] {
      FilledOutCloses(events[1..]);
    }
  }

  /** Callbacks that are not fills add nothing, to the fills of any order or to those closed by one. */
  lemma {:induction false} QuietTail(ev: seq<Event>, more: seq<Event>)
    requires forall i :: 0 <= i < |more| ==> !more[i].OnFill?
    ensures FilledOut(ev + more) == FilledOut(ev)
  {
    if ev != [] {
      assert (ev + more)[1..] == ev[1..] + more;
      QuietTail(ev[1..], more);
    } else if more != [] {
      QuietTail([], more[1..]);
      assert [] + more == more && [] + more[1..] == more[1..];
    } else {
      assert ev + more == [];
    }
  }

  /** A resting order that a match takes off the book was filled to its last lot. */
  lemma TakenOffIsFilled(id: uint64, side: Side, quantity: uint32, limit: int, os: seq<Order>, k: nat)
    requires Prioritised(os, Opposite(side)) && UniqueIds(os) && k < |os| && id != os[k].id
    requires os[k].id !in Ids(Match(id, side, quantity, limit, os).resting)
    ensures Filled(Match(id, side, quantity, limit, os).events, os[k].id) == os[k].quantity
  {
    hide Match, Prioritised, UniqueIds, IndexOf, Ids, Filled, Traded, Share;
    var r := Match(id, side, quantity, limit, os).resting;
    MatchSharesByPriority(id, side, quantity, limit, os, k);
    HasIsIds(r, os[k].id);
  }

  /** Every order closed by a fill of an entry, the incoming one included, has been paid out. */
  lemma MatchPaysOut(id: uint64, side: Side, quantity: uint32, limit: int, os: seq<Order>, a: map<uint64, Account>,
                     own: Account, a': map<uint64, Account>, x: uint64)
    requires GoodSide(os, Opposite(side)) && !Has(os, id) && AllBalanced(os, a) && (x == id || x in a)
    requires own.given + own.forgotten - own.filled == quantity
    requires var ev := Match(id, side, quantity, limit, os).events;
      x in FilledOut(ev) && x in a' && a'[x] == Credit(if x == id then own else a[x], Filled(ev, x))
    ensures PaidOut(a'[x])
  {
    hide Match, Filled, FilledOut, ClosedIds, Has, Ids, UniqueIds, Prioritised, Wrap32;
    var m := Match(id, side, quantity, limit, os);
    FilledOutCloses(m.events);
    MatchCloses(id, side, quantity, limit, os);
    HasIsIds(os, id);
    if x == id {
      MatchConserves(id, side, quantity, limit, os);
    } else {
      var k := PlaceOf(os, x);
      TakenOffIsFilled(id, side, quantity, limit, os, k);
    }
  }

  lemma PlaceOf(os: seq<Order>, x: uint64) returns (k: nat)
    requires x in Ids(os)
    ensures k < |os| && os[k].id == x
  {
    k :| 0 <= k < |os| && os[k].id == x;
  }

  /** The fills of an entry are those of its match. */
  lemma EntryFills(b: Book, id: uint64, side: Side, quantity: uint32, price: int, flags: uint8, notify: bool, filled: uint32, x: uint64)
    requires quantity > filled
    ensures var r := HandleNewOrder(b, id, side, quantity, price, flags, notify, filled);
      var m := Match(id, side, quantity - filled, price, SideOf(b, Opposite(side)));
      FilledOut(r.events) == FilledOut(m.events) && Filled(r.events, x) == Filled(m.events, x)
  {
    hide Match, Filled, FilledOut, Insert, InBook;
    var r := HandleNewOrder(b, id, side, quantity, price, flags, notify, filled);
    var m := Match(id, side, quantity - filled, price, SideOf(b, Opposite(side)));
    var quiet := r.events[|m.events|..];
    assert r.events == m.events + quiet;
    QuietTail(m.events, quiet);
    NoFills(m.events, quiet, x);
  }

  lemma EntryPaysOut(b: Book, id: uint64, side: Side, quantity: uint32, price: int, flags: uint8, notify: bool, filled: uint32,
                     a: map<uint64, Account>, own: Account, a': map<uint64, Account>, x: uint64)
    requires WellFormed(b) && !InBook(b, id) && quantity > filled && AllBalanced(b.bids, a) && AllBalanced(b.asks, a)
    requires own.given + own.forgotten - own.filled == quantity - filled && (x == id || x in a)
    requires var ev := HandleNewOrder(b, id, side, quantity, price, flags, notify, filled).events;
      x in FilledOut(ev) && x in a' && a'[x] == Credit(if x == id then own else a[x], Filled(ev, x))
    ensures PaidOut(a'[x])
  {
    hide Match, Filled, FilledOut, HandleNewOrder, GoodSide, Has, AllBalanced, Credit, PaidOut, Apart, Keys;
    EntryFills(b, id, side, quantity, price, flags, notify, filled, x);
    WellFormedIsUncrossed(b);
    MatchPaysOut(id, side, quantity - filled, price, SideOf(b, Opposite(side)), a, own, a', x);
  }

  lemma OneQuiet(ev: seq<Event>)
    requires |ev| == 1 && !ev[0].OnFill?
    ensures FilledOut(ev) == {}
  {
    assert ev[1..] == [];
  }

  /** Whatever the request, an order closed by one of its fills has been paid out. */
  lemma RequestPaysOut(run: Run, req: Request, x: uint64)
    requires Conserved(run) && Admissible(run.book, req) && x in FilledOut(Apply(run.book, req).events)
    requires x in run.accounts || (req.New? && x == req.id)
    ensures PaidOut(Step(run, req).accounts[x])
  {
    hide WellFormed, Filled, FilledOut, HandleNewOrder, RemoveFromBook, RequantifyInBook, InBook, AllBalanced, Find, Credit, PaidOut, ClosedIds;
    var b, a, a', ev := run.book, run.accounts, Step(run, req).accounts, Apply(run.book, req).events;
    if req.New? {
      EntryPaysOut(b, req.id, req.side, req.quantity, req.price, req.flags, true, 0, a, Account(req.quantity, 0, 0, 0), a', x);
    } else if req.Delete? || !InBook(b, req.id) || Find(b, req.id).filled >= req.quantity {
      OneQuiet(ev);
    } else if Find(b, req.id).price == req.price && Find(b, req.id).side == req.side {
      OneQuiet(ev);
    } else {
      RepricePaysOut(run, req, x);
    }
  }

  lemma RepricePaysOut(run: Run, req: Request, x: uint64)
    requires Conserved(run) && req.Modify? && InBook(run.book, req.id)
    requires var o := Find(run.book, req.id); o.filled < req.quantity && !(o.price == req.price && o.side == req.side)
    requires x in FilledOut(Apply(run.book, req).events) && x in run.accounts
    ensures PaidOut(Step(run, req).accounts[x])
  {
    hide WellFormed, Filled, FilledOut, HandleNewOrder, RemoveFromBook, InBook, AllBalanced, Find, Credit, PaidOut, ClosedIds;
    var b, a := run.book, run.accounts;
    var o, b1 := Find(b, req.id), RemoveFromBook(b, req.id);
    var r := HandleNewOrder(b1, req.id, req.side, req.quantity, req.price, o.flags, false, o.filled);
    ModifyNeverThrows(b, req.id, req.side, req.quantity, req.price);
    FindBalanced(b, req.id, a);
    RemovedBalanced(b, req.id, a);
    RemoveFromBookKeeps(b, req.id);
    var ev := Apply(b, req).events;
    var quiet := ev[|r.events|..];
    assert ev == r.events + quiet;
    NoFills(r.events, quiet, x);
    QuietTail(r.events, quiet);
    var own := Account(req.quantity, a[req.id].filled, 0, a[req.id].filled - o.filled);
    EntryPaysOut(b1, req.id, req.side, req.quantity, req.price, o.flags, false, o.filled, a, own, Step(run, req).accounts, x);
  }

  // ----- orders that are gone stay as they are -----

  lemma EntrySpares(b: Book, id: uint64, side: Side, quantity: uint32, price: int, flags: uint8, notify: bool, filled: uint32, x: uint64)
    requires WellFormed(b) && x !in BookIds(b) && x != id
    ensures Filled(HandleNewOrder(b, id, side, quantity, price, flags, notify, filled).events, x) == 0
  {
    hide Match, Filled, HandleNewOrder, Ids, WellFormed;
    if quantity > filled {
      var os := SideOf(b, Opposite(side));
      EntryFills(b, id, side, quantity, price, flags, notify, filled, x);
      HasIsIds(os, x);
      NothingElse(id, side, quantity - filled, price, os, x);
    } else {
      assert HandleNewOrder(b, id, side, quantity, price, flags, notify, filled).events == [] by { Refused(b, id, side, quantity, price, flags, notify, filled); }
      FilledNothing(x);
    }
  }

  lemma Refused(b: Book, id: uint64, side: Side, quantity: uint32, price: int, flags: uint8, notify: bool, filled: uint32)
    requires quantity <= filled
    ensures HandleNewOrder(b, id, side, quantity, price, flags, notify, filled).events == []
  {}

  /** A request fills no order but its own and those resting. */
  lemma RequestSpares(b: Book, req: Request, x: uint64)
    requires WellFormed(b) && x !in BookIds(b) && (req.New? ==> x != req.id)
    ensures Filled(Apply(b, req).events, x) == 0
  {
    hide WellFormed, Filled, HandleNewOrder, RemoveFromBook, RequantifyInBook, InBook, Find, BookIds;
    var ev := Apply(b, req).events;
    if req.New? {
      EntrySpares(b, req.id, req.side, req.quantity, req.price, req.flags, true, 0, x);
    } else if req.Delete? || !InBook(b, req.id) || Find(b, req.id).filled >= req.quantity
              || (Find(b, req.id).price == req.price && Find(b, req.id).side == req.side) {
      NoFillsAtAll(ev, x);
    } else {
      var o, b1 := Find(b, req.id), RemoveFromBook(b, req.id);
      var r := HandleNewOrder(b1, req.id, req.side, req.quantity, req.price, o.flags, false, o.filled);
      RemovedIds(b, req.id);
      RemoveFromBookKeeps(b, req.id);
      EntrySpares(b1, req.id, req.side, req.quantity, req.price, o.flags, false, o.filled, x);
      assert ev == r.events + ev[|r.events|..];
      NoFills(r.events, ev[|r.events|..], x);
    }
  }

  lemma GoneStays(run: Run, req: Request, x: uint64)
    requires Conserved(run) && x in run.accounts && x !in BookIds(run.book) && (req.New? ==> x != req.id)
    ensures Step(run, req).accounts[x] == run.accounts[x]
  {
    hide WellFormed, Filled, BookIds, Apply, AllBalanced, FilledOut, ClosedIds;
    RequestSpares(run.book, req, x);
    NotInBook(run.book, x);
    CreditNothing(run, req, x);
  }

  lemma NotInBook(b: Book, x: uint64)
    ensures x in BookIds(b) <==> InBook(b, x)
  {
    HasIsIds(b.bids, x);
    HasIsIds(b.asks, x);
  }

  // ----- runs -----

  lemma StepSettles(run: Run, req: Request)
    requires Conserved(run) && Squared(run) && Admissible(run.book, req)
    ensures Squared(Step(run, req))
  {
    hide WellFormed, BookIds, Apply, AllBalanced, FilledOut, ClosedIds, Credit, Restated, PaidOut;
    var ev, next := Apply(run.book, req).events, Step(run, req);
    ApplyCloses(run.book, req);
    FilledOutCloses(ev);
    forall x | x in next.tradedOut ensures PaidOut(next.accounts[x]) {
      if x in FilledOut(ev) {
        RequestPaysOut(run, req, x);
      } else {
        GoneStays(run, req, x);
      }
    }
  }

  lemma {:induction false} RunSettled(reqs: seq<Request>)
    requires AllAdmissible(reqs)
    ensures Squared(RunOf(reqs))
  {
    hide AllAdmissible, Admissible, Conserved;
    if reqs != [] {
      hide Squared, Step;
      var p := reqs[..|reqs| - 1];
      AdmissiblePrefix(reqs);
      RunSettled(p);
      Conservation(p);
      StepSettles(RunOf(p), reqs[|reqs| - 1]);
    } else {
      assert BookIds(Book([], [])) == {};
    }
  }

  /**
   At every point of every run each order ever entered rests, was traded out or was withdrawn. One that was traded out,
   as the resting or as the incoming side, has fills of exactly what it was last given, plus what an amend forgot, and of
   exactly what it was last given if it was not amended once it had a fill.
   */
  lemma TradedOutIsPaidOut(reqs: seq<Request>, x: uint64)
    requires AllAdmissible(reqs) && x in RunOf(reqs).accounts
    ensures var run := RunOf(reqs);
      && (x in BookIds(run.book) || x in run.tradedOut || x in run.withdrawn)
      && (x in run.tradedOut ==> x !in BookIds(run.book) && run.accounts[x].filled == run.accounts[x].given + run.accounts[x].forgotten)
      && (x in run.tradedOut && NotAmendedAfterFill(reqs, x) ==> run.accounts[x].filled == run.accounts[x].given)
  {
    hide NotAmendedAfterFill, AllAdmissible, RunOf, BookIds;
    RunSettled(reqs);
    if NotAmendedAfterFill(reqs, x) {
      NothingForgotten(reqs, x);
    }
  }
}
