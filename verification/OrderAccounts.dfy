/**
 Conservation of quantity, order by order, over every run of requests: what rests plus every fill
 reported equals what was last given, plus the fills an amend forgot.
 */
module OrderAccounts {
  import opened ExchangeTypes
  import opened BookSpec
  import opened BookOrder
  import opened MatchTheorems
  import opened BookTheorems

  /**
   `given`: quantity of the last new or amend; `filled`: all fills reported; `remembered`: what the
   ladder still remembers as filled; `forgotten`: fills not deducted from `given` by the last amend.
   */
  datatype Account = Account(given: int, filled: int, remembered: uint32, forgotten: int)

  /** `tradedOut`: orders whose last fill was reported as their last; `withdrawn`: orders closed in any other way. */
  datatype Run = Run(book: Book, accounts: map<uint64, Account>, tradedOut: set<uint64>, withdrawn: set<uint64>)

  /** Ids a fill reports closed. */
  function FilledOut(events: seq<Event>): set<uint64> {
    if events == [] then {}
    else (if events[0].OnFill? && events[0].closed then {events[0].id} else {}) + FilledOut(events[1..])
  }

  /** The account of an order as its own request opens or restates it, before any fill of that request. */
  function Restated(b: Book, a: map<uint64, Account>, req: Request, x: uint64): Account
    requires x in a || (req.New? && x == req.id)
  {
    if req.New? && x == req.id then Account(req.quantity, 0, 0, 0)
    else if req.Modify? && x == req.id && InBook(b, x) then
      var o := Find(b, x);
      if o.price == req.price && o.side == req.side then a[x].(given := req.quantity, forgotten := a[x].filled)
      else a[x].(given := req.quantity, remembered := 0, forgotten := a[x].filled - o.filled)
    else a[x]
  }

  function Credit(a: Account, fills: nat): Account {
    a.(filled := a.filled + fills, remembered := Wrap32(a.remembered + fills))
  }

  function Step(run: Run, req: Request): Run {
    var r := Apply(run.book, req);
    Run(r.book, map x | x in run.accounts.Keys + NewIds(req) ::
      Credit(Restated(run.book, run.accounts, req, x), Filled(r.events, x)),
      run.tradedOut - NewIds(req) + FilledOut(r.events),
      run.withdrawn - NewIds(req) + (ClosedIds(r.events) - FilledOut(r.events)))
  }

  /** What is left, and what the ladder remembers, of one resting order. */
  ghost predicate Balanced(o: Order, a: Account) {
    o.quantity + a.filled == a.given + a.forgotten && o.filled == a.remembered
  }

  ghost predicate AllBalanced(os: seq<Order>, a: map<uint64, Account>) {
    forall i :: 0 <= i < |os| ==> os[i].id in a && Balanced(os[i], a[os[i].id])
  }

  ghost predicate Conserved(run: Run) {
    && WellFormed(run.book) && AllBalanced(run.book.bids, run.accounts) && AllBalanced(run.book.asks, run.accounts)
    && forall x :: x in run.accounts ==> Unfilled(run.accounts[x])
  }

  /** The ladder remembers no fill of an order that has none. */
  predicate Unfilled(a: Account) {
    a.filled >= 0 && (a.filled == 0 ==> a.remembered == 0)
  }

  /** The j-th order left by a match is one it found, less exactly the fills reported for it. */
  ghost predicate Deducted(os: seq<Order>, m: MatchResult, j: nat) {
    && j < |m.resting| <= |os|
    && var o := m.resting[j];
    && var f := Filled(m.events, o.id);
    && var was := os[|os| - |m.resting| + j];
    && o == was.(quantity := o.quantity, filled := o.filled)
    && o.quantity == was.quantity - f && o.filled == Wrap32(was.filled + f)
  }

  lemma PartialDeducts(id: uint64, side: Side, quantity: uint32, limit: int, os: seq<Order>, j: nat)
    requires UniqueIds(os) && !Has(os, id) && j < |os|
    requires 0 < quantity < os[0].quantity && Crosses(side, limit, os[0].price)
    ensures Deducted(os, Match(id, side, quantity, limit, os), j)
  {
    hide UniqueIds, Filled, IndexOf, FillEvents, Crosses, Has;
    TradeEvents(id, side, os[0], quantity, false, true, os[j].id);
    NotFirst(os, j, id);
    WrapSmall(os[j].filled);
    assert Match(id, side, quantity, limit, os).resting[j] == if j == 0 then PartlyFilled(os[0], quantity) else os[j];
  }

  lemma ConsumedDeducts(id: uint64, side: Side, quantity: uint32, limit: int, os: seq<Order>, j: nat)
    requires UniqueIds(os) && !Has(os, id) && os != []
    requires 0 < quantity && os[0].quantity <= quantity && Crosses(side, limit, os[0].price)
    requires Deducted(os[1..], Match(id, side, quantity - os[0].quantity, limit, os[1..]), j)
    ensures Deducted(os, Match(id, side, quantity, limit, os), j)
  {
    hide UniqueIds, Filled, IndexOf, FillEvents, Crosses, Has, Wrap32, Match;
    var rest := Match(id, side, quantity - os[0].quantity, limit, os[1..]);
    var k := |os| - |rest.resting| + j;
    assert os[1..][k - 1] == os[k];
    NotFirst(os, k, id);
    ConsumedFirst(id, side, quantity, limit, os, rest.resting[j].id);
  }

  /** An order still resting after a match lost exactly the fills reported for it. */
  lemma {:induction false} MatchDeducts(id: uint64, side: Side, quantity: uint32, limit: int, os: seq<Order>, j: nat)
    requires UniqueIds(os) && !Has(os, id)
    requires j < |Match(id, side, quantity, limit, os).resting|
    ensures Deducted(os, Match(id, side, quantity, limit, os), j)
    decreases |os|
  {
    hide UniqueIds, Filled, IndexOf, FillEvents, Crosses, Has, Wrap32;
    if quantity == 0 || os == [] || !Crosses(side, limit, os[0].price) {
      FilledNothing(os[j].id);
      WrapSmall(os[j].filled);
    } else {
      hide Deducted;
      if os[0].quantity <= quantity {
        Tail(os, side);
        DropHas(os, id);
        MatchDeducts(id, side, quantity - os[0].quantity, limit, os[1..], j);
        ConsumedDeducts(id, side, quantity, limit, os, j);
      } else {
        PartialDeducts(id, side, quantity, limit, os, j);
      }
    }
  }

  lemma FilledNothing(x: uint64)
    ensures Filled([], x) == 0
  {}

  lemma WrapSmall(x: uint32)
    ensures Wrap32(x) == x
  {}

  lemma DropHas(os: seq<Order>, id: uint64)
    requires os != [] && !Has(os, id)
    ensures !Has(os[1..], id) && os[0].id != id
  {}

  lemma NotFirst(os: seq<Order>, k: nat, id: uint64)
    requires UniqueIds(os) && k < |os| && !Has(os, id)
    ensures os[k].id != id && (k > 0 ==> os[k].id != os[0].id)
  {}

  /** The other side of the book after a match, against accounts credited with the fills reported. */
  lemma MatchBalanced(id: uint64, side: Side, quantity: uint32, limit: int, os: seq<Order>,
                      a: map<uint64, Account>, a': map<uint64, Account>)
    requires UniqueIds(os) && !Has(os, id) && AllBalanced(os, a)
    requires var ev := Match(id, side, quantity, limit, os).events;
      forall x :: x in a && x != id ==> x in a' && a'[x] == Credit(a[x], Filled(ev, x))
    ensures AllBalanced(Match(id, side, quantity, limit, os).resting, a')
  {
    hide UniqueIds, Filled, Match, IndexOf;
    var m := Match(id, side, quantity, limit, os);
    forall j | 0 <= j < |m.resting| ensures m.resting[j].id in a' && Balanced(m.resting[j], a'[m.resting[j].id]) {
      MatchDeducts(id, side, quantity, limit, os, j);
      NotFirst(os, |os| - |m.resting| + j, id);
      WrapTwice(os[|os| - |m.resting| + j].filled, Filled(m.events, m.resting[j].id));
    }
  }

  lemma WrapTwice(x: uint32, y: nat)
    ensures Wrap32(x + y) == Wrap32(Wrap32(x) + y)
  {}

  /** A side no trade touches. */
  lemma IdleBalanced(os: seq<Order>, ev: seq<Event>, a: map<uint64, Account>, a': map<uint64, Account>)
    requires AllBalanced(os, a)
    requires forall x :: x in Ids(os) ==> Filled(ev, x) == 0
    requires forall x :: x in a && x in Ids(os) ==> x in a' && a'[x] == Credit(a[x], Filled(ev, x))
    ensures AllBalanced(os, a')
  {
    forall i | 0 <= i < |os| ensures os[i].id in a' && Balanced(os[i], a'[os[i].id]) {
      assert os[i].id in Ids(os);
      WrapSmall(a[os[i].id].remembered);
    }
  }

  /** Orders that do not take part in a match are not filled by it. */
  lemma OwnSideIdle(b: Book, id: uint64, side: Side, quantity: uint32, limit: int)
    requires WellFormed(b) && !InBook(b, id)
    ensures var ev := Match(id, side, quantity, limit, SideOf(b, Opposite(side))).events;
      forall x :: x in Ids(SideOf(b, side)) ==> Filled(ev, x) == 0
  {
    hide GoodSide, Keys, Apart, Match;
    WellFormedIsUncrossed(b);
    var os := SideOf(b, Opposite(side));
    forall x | x in Ids(SideOf(b, side)) ensures Filled(Match(id, side, quantity, limit, os).events, x) == 0 {
      HasIsIds(os, x);
      HasIsIds(SideOf(b, side), id);
      NothingElse(id, side, quantity, limit, os, x);
    }
  }

  lemma NoFills(ev: seq<Event>, more: seq<Event>, x: uint64)
    requires forall i :: 0 <= i < |more| ==> !more[i].OnFill?
    ensures Filled(ev + more, x) == Filled(ev, x)
    decreases |more|
  {
    TradedConcat(ev, more, x);
    if more != [] {
      NoFills([], more[1..], x);
      assert [] + more[1..] == more[1..];
    }
  }

  /** Entering an order leaves every account balanced, its own from the balance it starts with. */
  lemma EnterBalanced(b: Book, id: uint64, side: Side, quantity: uint32, price: int, flags: uint8, notify: bool,
                      filled: uint32, a: map<uint64, Account>, own: Account, a': map<uint64, Account>)
    requires WellFormed(b) && !InBook(b, id) && quantity > filled
    requires AllBalanced(b.bids, a) && AllBalanced(b.asks, a)
    requires own.given + own.forgotten - own.filled == quantity - filled && own.remembered == 0
    requires var ev := HandleNewOrder(b, id, side, quantity, price, flags, notify, filled).events;
      && (forall x :: x in a && x != id ==> x in a' && a'[x] == Credit(a[x], Filled(ev, x)))
      && id in a' && a'[id] == Credit(own, Filled(ev, id))
    ensures var b' := HandleNewOrder(b, id, side, quantity, price, flags, notify, filled).book;
      AllBalanced(b'.bids, a') && AllBalanced(b'.asks, a')
  {
    hide GoodSide, Keys, Apart, Match, Filled, Ids, AllBalanced, Insert, Has, IndexOf;
    var q := quantity - filled;
    var opp, mine := SideOf(b, Opposite(side)), SideOf(b, side);
    var m := Match(id, side, q, price, opp);
    var r := HandleNewOrder(b, id, side, quantity, price, flags, notify, filled);
    forall x ensures Filled(r.events, x) == Filled(m.events, x) {
      NoFills(m.events, r.events[|m.events|..], x);
      assert r.events == m.events + r.events[|m.events|..];
    }
    GoodSideUnique(opp, Opposite(side));
    MatchBalanced(id, side, q, price, opp, a, a');
    OwnSideIdle(b, id, side, q, price);
    HasIsIds(mine, id);
    IdleBalanced(mine, m.events, a, a');
    MatchConserves(id, side, q, price, opp);
    NothingInserted(b, id, side, q, price);
    if m.left > 0 && !IsIoc(flags) {
      var o := Order(id, side, price, m.left, q - m.left, flags);
      WrapSmall(q - m.left);
      InsertBalanced(mine, o, a');
    }
  }

  lemma GoodSideUnique(os: seq<Order>, side: Side)
    requires GoodSide(os, side)
    ensures UniqueIds(os)
  {}

  lemma InsertBalanced(os: seq<Order>, o: Order, a: map<uint64, Account>)
    requires AllBalanced(os, a) && o.id in a && Balanced(o, a[o.id])
    ensures AllBalanced(Insert(os, o), a)
  {
    InsertMembers(os, o);
    var r := Insert(os, o);
    forall i | 0 <= i < |r| ensures r[i].id in a && Balanced(r[i], a[r[i].id]) {
      assert r[i] in r;
    }
  }

  lemma MembersBalanced(os: seq<Order>, r: seq<Order>, a: map<uint64, Account>)
    requires AllBalanced(os, a) && forall o :: o in r ==> o in os
    ensures AllBalanced(r, a)
  {
    forall i | 0 <= i < |r| ensures r[i].id in a && Balanced(r[i], a[r[i].id]) {
      assert r[i] in os;
    }
  }

  lemma RemovedBalanced(b: Book, id: uint64, a: map<uint64, Account>)
    requires AllBalanced(b.bids, a) && AllBalanced(b.asks, a)
    ensures AllBalanced(RemoveFromBook(b, id).bids, a) && AllBalanced(RemoveFromBook(b, id).asks, a)
  {
    hide AllBalanced, Remove;
    RemovePreserves(b.bids, id, Buy);
    RemovePreserves(b.asks, id, Sell);
    MembersBalanced(b.bids, Remove(b.bids, id), a);
    MembersBalanced(b.asks, Remove(b.asks, id), a);
  }

  lemma FindBalanced(b: Book, id: uint64, a: map<uint64, Account>)
    requires AllBalanced(b.bids, a) && AllBalanced(b.asks, a) && InBook(b, id)
    ensures id in a && Balanced(Find(b, id), a[id]) && Find(b, id).id == id
  {}

  /** A same-price amend restates one account and one order together. */
  lemma RequantifiedBalanced(b: Book, id: uint64, quantity: uint32, a: map<uint64, Account>, a': map<uint64, Account>)
    requires WellFormed(b) && InBook(b, id) && AllBalanced(b.bids, a) && AllBalanced(b.asks, a)
    requires forall x :: x in a ==> x in a' && a'[x] == if x == id then a[x].(given := quantity, forgotten := a[x].filled) else a[x]
    ensures var b' := RequantifyInBook(b, id, quantity); AllBalanced(b'.bids, a') && AllBalanced(b'.asks, a')
  {
    WellFormedIsUncrossed(b);
    HasIsIds(b.bids, id);
    HasIsIds(b.asks, id);
    forall i | 0 <= i < |b.bids| ensures b.bids[i].id in Ids(b.bids) {}
    forall i | 0 <= i < |b.asks| ensures b.asks[i].id in Ids(b.asks) {}
  }

  /** Accounts that changed for an order that does not rest here. */
  lemma AgreeBalanced(os: seq<Order>, id: uint64, a: map<uint64, Account>, a': map<uint64, Account>)
    requires AllBalanced(os, a) && !Has(os, id)
    requires forall x :: x in a && x != id ==> x in a' && a'[x] == a[x]
    ensures AllBalanced(os, a')
  {
    forall i | 0 <= i < |os| ensures os[i].id in a' && Balanced(os[i], a'[os[i].id]) {
      assert os[i].id != id;
    }
  }

  lemma CreditNothing(run: Run, req: Request, x: uint64)
    requires x in run.accounts && (req.New? ==> req.id != x)
    requires Filled(Apply(run.book, req).events, x) == 0
    ensures Step(run, req).accounts[x] == Restated(run.book, run.accounts, req, x)
  {
    WrapSmall(Restated(run.book, run.accounts, req, x).remembered);
  }

  lemma NoFillsAtAll(ev: seq<Event>, x: uint64)
    requires |ev| == 1 && !ev[0].OnFill?
    ensures Filled(ev, x) == 0
  {}

  /** Delete, a refused request, or an amend down to what is filled already. */
  lemma QuietStep(run: Run, req: Request)
    requires Conserved(run) && !req.New?
    requires req.Modify? && InBook(run.book, req.id) ==> Find(run.book, req.id).filled >= req.quantity
    ensures AllBalanced(Step(run, req).book.bids, Step(run, req).accounts)
    ensures AllBalanced(Step(run, req).book.asks, Step(run, req).accounts)
  {
    hide WellFormed, Filled, RemoveFromBook, Has, AllBalanced;
    var b, a, a' := run.book, run.accounts, Step(run, req).accounts;
    var r := Apply(b, req);
    forall x | x in a && x != req.id ensures x in a' && a'[x] == a[x] {
      NoFillsAtAll(r.events, x);
      CreditNothing(run, req, x);
    }
    RemovedBalanced(b, req.id, a);
    RemoveFromBookKeeps(b, req.id);
    AgreeBalanced(r.book.bids, req.id, a, a');
    AgreeBalanced(r.book.asks, req.id, a, a');
  }

  lemma SamePriceStep(run: Run, req: Request)
    requires Conserved(run) && req.Modify? && InBook(run.book, req.id)
    requires var o := Find(run.book, req.id); o.filled < req.quantity && o.price == req.price && o.side == req.side
    ensures AllBalanced(Step(run, req).book.bids, Step(run, req).accounts)
    ensures AllBalanced(Step(run, req).book.asks, Step(run, req).accounts)
  {
    hide WellFormed, Filled, RequantifyInBook, InBook, AllBalanced, Find;
    var a, a' := run.accounts, Step(run, req).accounts;
    var r := Apply(run.book, req);
    forall x | x in a
      ensures x in a' && a'[x] == if x == req.id then a[x].(given := req.quantity, forgotten := a[x].filled) else a[x]
    {
      NoFillsAtAll(r.events, x);
      CreditNothing(run, req, x);
    }
    RequantifiedBalanced(run.book, req.id, req.quantity, a, a');
  }

  lemma RepriceStep(run: Run, req: Request)
    requires Conserved(run) && req.Modify? && InBook(run.book, req.id)
    requires var o := Find(run.book, req.id); o.filled < req.quantity && !(o.price == req.price && o.side == req.side)
    ensures AllBalanced(Step(run, req).book.bids, Step(run, req).accounts)
    ensures AllBalanced(Step(run, req).book.asks, Step(run, req).accounts)
  {
    hide WellFormed, Filled, HandleNewOrder, RemoveFromBook, InBook, AllBalanced, Find, Credit;
    var b, a, a' := run.book, run.accounts, Step(run, req).accounts;
    var o := Find(b, req.id);
    var b1 := RemoveFromBook(b, req.id);
    var r := HandleNewOrder(b1, req.id, req.side, req.quantity, req.price, o.flags, false, o.filled);
    ModifyNeverThrows(b, req.id, req.side, req.quantity, req.price);
    FindBalanced(b, req.id, a);
    RemovedBalanced(b, req.id, a);
    RemoveFromBookKeeps(b, req.id);
    var ev := Apply(b, req).events;
    forall x ensures Filled(ev, x) == Filled(r.events, x) {
      NoFills(r.events, ev[|r.events|..], x);
      assert ev == r.events + ev[|r.events|..];
    }
    var own := Account(req.quantity, a[req.id].filled, 0, a[req.id].filled - o.filled);
    EnterBalanced(b1, req.id, req.side, req.quantity, req.price, o.flags, false, o.filled, a, own, a');
  }

  lemma NewStep(run: Run, req: Request)
    requires Conserved(run) && req.New? && Admissible(run.book, req)
    ensures AllBalanced(Step(run, req).book.bids, Step(run, req).accounts)
    ensures AllBalanced(Step(run, req).book.asks, Step(run, req).accounts)
  {
    hide WellFormed, Filled, HandleNewOrder, InBook, AllBalanced, Credit;
    EnterBalanced(run.book, req.id, req.side, req.quantity, req.price, req.flags, true, 0,
                  run.accounts, Account(req.quantity, 0, 0, 0), Step(run, req).accounts);
  }

  /** Balance is kept by every admissible request. */
  lemma StepConserves(run: Run, req: Request)
    requires Conserved(run) && Admissible(run.book, req)
    ensures Conserved(Step(run, req))
  {
    hide WellFormed, AllBalanced, Apply, InBook, Filled, Find;
    ApplyKeeps(run.book, req);
    if req.New? {
      NewStep(run, req);
    } else if req.Delete? || !InBook(run.book, req.id) || Find(run.book, req.id).filled >= req.quantity {
      QuietStep(run, req);
    } else if Find(run.book, req.id).price == req.price && Find(run.book, req.id).side == req.side {
      SamePriceStep(run, req);
    } else {
      RepriceStep(run, req);
    }
  }

  // ----- runs -----

  function RunOf(reqs: seq<Request>): Run {
    if reqs == [] then Run(Book([], []), map[], {}, {}) else Step(RunOf(reqs[..|reqs| - 1]), reqs[|reqs| - 1])
  }

  ghost predicate AllAdmissible(reqs: seq<Request>) {
    forall i :: 0 <= i < |reqs| ==> Admissible(RunOf(reqs[..i]).book, reqs[i])
  }

  lemma AdmissiblePrefix(reqs: seq<Request>)
    requires AllAdmissible(reqs) && reqs != []
    ensures AllAdmissible(reqs[..|reqs| - 1]) && Admissible(RunOf(reqs[..|reqs| - 1]).book, reqs[|reqs| - 1])
  {
    var p := reqs[..|reqs| - 1];
    forall i | 0 <= i < |p| ensures Admissible(RunOf(p[..i]).book, p[i]) {
      assert p[..i] == reqs[..i];
    }
  }

  /** Every resting order, in every reachable state: remaining plus reported fills is given plus forgotten. */
  lemma {:induction false} Conservation(reqs: seq<Request>)
    requires AllAdmissible(reqs)
    ensures Conserved(RunOf(reqs))
  {
    if reqs != [] {
      AdmissiblePrefix(reqs);
      Conservation(reqs[..|reqs| - 1]);
      StepConserves(RunOf(reqs[..|reqs| - 1]), reqs[|reqs| - 1]);
    }
  }

  /** Nobody amended this order once it had a fill. */
  ghost predicate NotAmendedAfterFill(reqs: seq<Request>, x: uint64) {
    forall i :: 0 <= i < |reqs| && reqs[i].Modify? && reqs[i].id == x ==>
      var run := RunOf(reqs[..i]); x in run.accounts ==> run.accounts[x].filled == 0
  }

  lemma AmendedPrefix(reqs: seq<Request>, x: uint64)
    requires NotAmendedAfterFill(reqs, x) && reqs != []
    ensures var p, req := reqs[..|reqs| - 1], reqs[|reqs| - 1];
      && NotAmendedAfterFill(p, x)
      && (req.Modify? && req.id == x && x in RunOf(p).accounts ==> RunOf(p).accounts[x].filled == 0)
  {
    hide RunOf;
    var p := reqs[..|reqs| - 1];
    forall i | 0 <= i < |p| && p[i].Modify? && p[i].id == x
      ensures var run := RunOf(p[..i]); x in run.accounts ==> run.accounts[x].filled == 0
    {
      assert p[..i] == reqs[..i] && reqs[i] == p[i];
    }
  }

  /** An amend of an order without fills forgets none, and no other request forgets any. */
  lemma StepForgetsNothing(run: Run, req: Request, x: uint64)
    requires Conserved(run) && (x in run.accounts ==> run.accounts[x].forgotten == 0)
    requires req.Modify? && req.id == x && x in run.accounts ==> run.accounts[x].filled == 0
    ensures x in Step(run, req).accounts ==> Step(run, req).accounts[x].forgotten == 0
  {
    hide WellFormed, Apply, Filled, Wrap32, InBook, Find, FilledOut, ClosedIds;
    if req.Modify? && req.id == x && InBook(run.book, x) {
      FindBalanced(run.book, x, run.accounts);
    }
  }

  lemma {:induction false} NothingForgotten(reqs: seq<Request>, x: uint64)
    requires AllAdmissible(reqs) && NotAmendedAfterFill(reqs, x)
    ensures x in RunOf(reqs).accounts ==> RunOf(reqs).accounts[x].forgotten == 0
  {
    if reqs != [] {
      hide Step, Conserved, NotAmendedAfterFill, AllAdmissible, Admissible;
      var p := reqs[..|reqs| - 1];
      AdmissiblePrefix(reqs);
      AmendedPrefix(reqs, x);
      NothingForgotten(p, x);
      Conservation(p);
      StepForgetsNothing(RunOf(p), reqs[|reqs| - 1], x);
    }
  }

  /** The conservation law itself: remaining plus all fills reported is the quantity last given. */
  lemma RemainingPlusFillsIsGiven(reqs: seq<Request>, x: uint64)
    requires AllAdmissible(reqs) && NotAmendedAfterFill(reqs, x) && InBook(RunOf(reqs).book, x)
    ensures x in RunOf(reqs).accounts
    ensures var a := RunOf(reqs).accounts[x]; Find(RunOf(reqs).book, x).quantity + a.filled == a.given
  {
    Conservation(reqs);
    NothingForgotten(reqs, x);
    FindBalanced(RunOf(reqs).book, x, RunOf(reqs).accounts);
  }

  /** Exactly when an amend breaks it: at the same price, when the order has a fill; at a new one, when an earlier re-price forgot some. */
  lemma AmendForgets(run: Run, req: Request)
    requires Conserved(run) && req.Modify? && InBook(run.book, req.id) && Find(run.book, req.id).filled < req.quantity
    ensures req.id in run.accounts
    ensures var o, a := Find(run.book, req.id), run.accounts[req.id];
      var forgotten := Step(run, req).accounts[req.id].forgotten;
      if o.price == req.price && o.side == req.side then forgotten == 0 <==> a.filled == 0
      else forgotten == 0 <==> a.filled == o.filled
  {
    FindBalanced(run.book, req.id, run.accounts);
  }
}
