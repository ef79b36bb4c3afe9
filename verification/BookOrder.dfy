/** Priority order, uniqueness of ids and the runs of equal price of one side of the book. */
module BookOrder {
  import opened ExchangeTypes
  import opened BookSpec

  lemma WithoutMembers<T>(s: seq<T>, k: nat)
    requires k < |s|
    requires forall i, j :: 0 <= i < j < |s| ==> s[i] != s[j]
    ensures forall x :: x in Without(s, k) <==> x in s && x != s[k]
  {
    var r := Without(s, k);
    forall x | x in s && x != s[k] ensures x in r {
      var i :| 0 <= i < |s| && s[i] == x;
      assert r[if i < k then i else i - 1] == x;
    }
  }

  /** Priority order of one side, every order with something left to trade. */
  ghost predicate Prioritised(os: seq<Order>, side: Side) {
    && (forall i :: 0 <= i < |os| ==> os[i].side == side && os[i].quantity > 0)
    && (forall i, j :: 0 <= i < j < |os| ==> !Better(side, os[j].price, os[i].price))
  }

  ghost predicate UniqueIds(os: seq<Order>) {
    forall i, j :: 0 <= i < j < |os| ==> os[i].id != os[j].id
  }

  ghost function Ids(os: seq<Order>): set<uint64> {
    set i | 0 <= i < |os| :: os[i].id
  }

  /** The orders at one price, oldest first. */
  ghost function At(os: seq<Order>, p: int): seq<Order> {
    if os == [] then [] else (if os[0].price == p then [os[0]] else []) + At(os[1..], p)
  }

  lemma {:induction false} AtConcat(a: seq<Order>, b: seq<Order>, p: int)
    ensures At(a + b, p) == At(a, p) + At(b, p)
  {
    if a == [] {
      assert a + b == b;
    } else {
      assert (a + b)[1..] == a[1..] + b;
      AtConcat(a[1..], b, p);
    }
  }

  lemma {:induction false} AtNone(os: seq<Order>, p: int)
    ensures At(os, p) == [] <==> forall i :: 0 <= i < |os| ==> os[i].price != p
  {
    if os != [] {
      AtNone(os[1..], p);
      assert forall i :: 0 < i < |os| ==> os[i] == os[1..][i - 1];
    }
  }

  lemma {:induction false} AtMembers(os: seq<Order>, p: int)
    ensures forall o :: o in At(os, p) <==> o in os && o.price == p
  {
    if os != [] {
      AtMembers(os[1..], p);
      assert os == [os[0]] + os[1..];
    }
  }

  lemma {:induction false} AtUnique(os: seq<Order>, p: int)
    requires UniqueIds(os)
    ensures UniqueIds(At(os, p))
  {
    if os != [] {
      assert forall i :: 0 <= i < |os[1..]| ==> os[1..][i] == os[i + 1];
      AtUnique(os[1..], p);
      AtMembers(os[1..], p);
      forall o | o in os[1..] ensures o.id != os[0].id {}
      forall i | 0 <= i < |At(os[1..], p)| ensures At(os[1..], p)[i].id != os[0].id {
        assert At(os[1..], p)[i] in os[1..];
      }
    }
  }

  /** Where an order stands among those at its own price. */
  lemma AtSplit(os: seq<Order>, k: nat, p: int)
    requires k < |os|
    ensures At(os, p) == At(os[..k], p) + At([os[k]], p) + At(os[k + 1..], p)
  {
    assert os == os[..k] + ([os[k]] + os[k + 1..]);
    AtConcat(os[..k], [os[k]] + os[k + 1..], p);
    AtConcat([os[k]], os[k + 1..], p);
  }

  lemma AtIndex(os: seq<Order>, id: uint64, p: int)
    requires Has(os, id) && os[IndexOf(os, id)].price == p
    ensures Has(At(os, p), id) && IndexOf(At(os, p), id) == |At(os[..IndexOf(os, id)], p)|
  {
    var k := IndexOf(os, id);
    AtSplit(os, k, p);
    AtMembers(os[..k], p);
    var before := At(os[..k], p);
    forall i | 0 <= i < |before| ensures before[i].id != id {
      assert before[i] in os[..k];
    }
    assert At([os[k]], p) == [os[k]];
    assert At(os, p)[|before|] == os[k];
    assert forall i :: 0 <= i < |before| ==> At(os, p)[i] == before[i];
  }

  lemma AtRemove(os: seq<Order>, id: uint64, p: int)
    ensures At(Remove(os, id), p)
      == if Has(os, id) && os[IndexOf(os, id)].price == p then Remove(At(os, p), id) else At(os, p)
  {
    var k := IndexOf(os, id);
    if k < |os| {
      AtSplit(os, k, p);
      AtConcat(os[..k], os[k + 1..], p);
      if os[k].price == p {
        AtIndex(os, id, p);
        assert At([os[k]], p) == [os[k]];
        assert Remove(At(os, p), id) == At(os[..k], p) + At(os[k + 1..], p);
      }
    }
  }

  lemma AtRequantify(os: seq<Order>, id: uint64, quantity: uint32, p: int)
    ensures At(Requantify(os, id, quantity), p)
      == if Has(os, id) && os[IndexOf(os, id)].price == p then Requantify(At(os, p), id, quantity) else At(os, p)
  {
    var k := IndexOf(os, id);
    if k < |os| {
      var o := os[k].(quantity := quantity);
      var os' := Requantify(os, id, quantity);
      AtSplit(os, k, p);
      AtSplit(os', k, p);
      assert os'[..k] == os[..k] && os'[k + 1..] == os[k + 1..] && os'[k] == o;
      if os[k].price == p {
        AtIndex(os, id, p);
        assert At([os[k]], p) == [os[k]] && At([o], p) == [o];
        assert Requantify(At(os, p), id, quantity) == At(os[..k], p) + [o] + At(os[k + 1..], p);
      }
    }
  }

  lemma RequantifyPreserves(os: seq<Order>, id: uint64, quantity: uint32, side: Side)
    requires quantity > 0
    ensures Prioritised(os, side) ==> Prioritised(Requantify(os, id, quantity), side)
    ensures UniqueIds(os) ==> UniqueIds(Requantify(os, id, quantity))
    ensures Ids(Requantify(os, id, quantity)) == Ids(os)
    ensures |Requantify(os, id, quantity)| == |os|
    ensures forall i :: 0 <= i < |os| ==> Requantify(os, id, quantity)[i].price == os[i].price
  {
    var r := Requantify(os, id, quantity);
    assert forall i :: 0 <= i < |os| ==> r[i].id == os[i].id;
  }

  lemma FillPreserves(os: seq<Order>, traded: uint32, side: Side)
    requires os != [] && traded < os[0].quantity
    ensures var r := [PartlyFilled(os[0], traded)] + os[1..];
      && (Prioritised(os, side) ==> Prioritised(r, side)) && (UniqueIds(os) ==> UniqueIds(r))
      && Ids(r) == Ids(os) && r[1..] == os[1..]
      && (forall i {:trigger r[i]} :: 0 <= i < |r| ==> r[i].price == os[i].price)
  {
    var r := [PartlyFilled(os[0], traded)] + os[1..];
    assert forall i {:trigger r[i]} :: 0 <= i < |r| ==> r[i] == if i == 0 then PartlyFilled(os[0], traded) else os[i];
    assert forall i :: 0 <= i < |r| ==> r[i].id == os[i].id;
  }

  /** Everything at or behind the insertion point has a strictly worse price. */
  lemma BehindInsertion(os: seq<Order>, side: Side, price: int)
    requires Prioritised(os, side)
    ensures forall i :: InsertPos(os, side, price) <= i < |os| ==> Better(side, price, os[i].price)
  {
    var k := InsertPos(os, side, price);
    forall i | k <= i < |os| ensures Better(side, price, os[i].price) {
      assert i == k || !Better(side, os[i].price, os[k].price);
    }
  }

  /** A newcomer goes behind every order at its price and leaves the other prices alone. */
  lemma AtInsert(os: seq<Order>, o: Order, p: int)
    requires Prioritised(os, o.side)
    ensures At(Insert(os, o), p) == if p == o.price then At(os, p) + [o] else At(os, p)
  {
    hide Prioritised;
    BehindInsertion(os, o.side, o.price);
    var k := InsertPos(os, o.side, o.price);
    AtJoin(os[..k], o, os[k..], p);
    assert os == os[..k] + os[k..];
    if p == o.price {
      AtNone(os[k..], p);
    }
  }

  lemma AtJoin(a: seq<Order>, o: Order, b: seq<Order>, p: int)
    ensures At(a + b, p) == At(a, p) + At(b, p)
    ensures At(a + [o] + b, p) == At(a, p) + (if o.price == p then [o] else []) + At(b, p)
  {
    AtConcat(a, b, p);
    AtConcat(a + [o], b, p);
    AtConcat(a, [o], p);
  }

  lemma InsertPreserves(os: seq<Order>, o: Order)
    requires Prioritised(os, o.side) && o.quantity > 0
    ensures Prioritised(Insert(os, o), o.side)
    ensures UniqueIds(os) && !Has(os, o.id) ==> UniqueIds(Insert(os, o))
    ensures Ids(Insert(os, o)) == Ids(os) + {o.id}
    ensures forall x :: x in Insert(os, o) <==> x in os || x == o
  {
    var k := InsertPos(os, o.side, o.price);
    BehindInsertion(os, o.side, o.price);
    var r := Insert(os, o);
    assert forall i {:trigger r[i]} :: 0 <= i < |r| ==> r[i] == if i < k then os[i] else if i == k then o else os[i - 1];
    InsertMembers(os, o);
    forall x | x in Ids(os) + {o.id} ensures x in Ids(r) {
      if x != o.id {
        var i :| 0 <= i < |os| && os[i].id == x;
        assert os[i] in r;
      } else {
        assert r[k].id == x;
      }
    }
  }

  lemma InsertMembers(os: seq<Order>, o: Order)
    ensures forall x :: x in Insert(os, o) <==> x in os || x == o
  {
    var k := InsertPos(os, o.side, o.price);
    assert os == os[..k] + os[k..];
  }

  lemma IndexIsUnique(os: seq<Order>, k: nat)
    requires UniqueIds(os) && k < |os|
    ensures IndexOf(os, os[k].id) == k
  {}

  lemma RemovePreserves(os: seq<Order>, id: uint64, side: Side)
    ensures Prioritised(os, side) ==> Prioritised(Remove(os, id), side)
    ensures UniqueIds(os) ==> UniqueIds(Remove(os, id)) && Ids(Remove(os, id)) == Ids(os) - {id}
    ensures forall o :: o in Remove(os, id) ==> o in os
  {
    var k := IndexOf(os, id);
    var r := Remove(os, id);
    if k < |os| {
      forall x | x in Ids(os) && x != id ensures x in Ids(r) {
        var i :| 0 <= i < |os| && os[i].id == x;
        assert r[if i < k then i else i - 1].id == x;
      }
    }
  }

  lemma RequantifyAt(os: seq<Order>, k: nat, quantity: uint32)
    requires UniqueIds(os) && k < |os|
    ensures Requantify(os, os[k].id, quantity) == os[k := os[k].(quantity := quantity)]
  {
    IndexIsUnique(os, k);
  }

  /** Removing an order removes it from the run at its price and from no other. */
  lemma RunWithout(os: seq<Order>, o: Order, k: nat, q: int)
    requires UniqueIds(os)
    requires k < |At(os, o.price)| && At(os, o.price)[k] == o
    ensures Has(os, o.id) && os[IndexOf(os, o.id)] == o
    ensures At(Remove(os, o.id), q) == if q == o.price then Without(At(os, q), k) else At(os, q)
  {
    AtMembers(os, o.price);
    assert o in os;
    var j :| 0 <= j < |os| && os[j] == o;
    IndexIsUnique(os, j);
    AtUnique(os, o.price);
    IndexIsUnique(At(os, o.price), k);
    AtRemove(os, o.id, q);
  }
}
