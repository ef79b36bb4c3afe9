/**
 The order ladder as a value: each side is one sequence of orders in price-then-time priority.
 The functions here say what each ladder operation does to that value and which subscriber
 callbacks it makes, in order. `OrderLadder.dfy` proves that the pointer structure refines them.
 */
module BookSpec {
  import opened ExchangeTypes

  /** A resting order. `quantity` is what remains, `filled` what the ladder remembers as filled. */
  datatype Order = Order(id: uint64, side: Side, price: int, quantity: uint32, filled: uint32, flags: uint8)

  datatype Book = Book(bids: seq<Order>, asks: seq<Order>)

  /** The subscriber callbacks of the ladder. */
  datatype Event =
    | OnNewOrder(id: uint64, side: Side, quantity: uint32, price: int, flags: uint8)
    | OnModifyOrder(id: uint64, side: Side, quantity: uint32, price: int)
    | OnDeleteOrder(id: uint64, publish: bool)
    | OnCancelReject(id: uint64)
    | OnTrade(id: uint64, quantity: uint32, price: int)
    | OnFill(id: uint64, side: Side, quantity: uint32, price: int, closed: bool, active: bool)

  /** A C++ exception leaves the operation where it was thrown. */
  datatype Outcome = Done | FilledExceedsQuantity | OrderExists

  /** `left` is the by-reference quantity of the operation when it returns. */
  datatype Result = Result(book: Book, events: seq<Event>, left: uint32, outcome: Outcome)

  datatype MatchResult = MatchResult(left: uint32, resting: seq<Order>, events: seq<Event>)

  function SideOf(b: Book, s: Side): seq<Order> {
    if s.Buy? then b.bids else b.asks
  }

  function WithSide(b: Book, s: Side, os: seq<Order>): Book {
    if s.Buy? then b.(bids := os) else b.(asks := os)
  }

  /** Position of the order with this id, or the length when there is none. */
  function IndexOf(os: seq<Order>, id: uint64): (k: nat)
    ensures k <= |os|
    ensures k < |os| ==> os[k].id == id
    ensures forall i :: 0 <= i < k ==> os[i].id != id
  {
    if os == [] then 0 else if os[0].id == id then 0 else 1 + IndexOf(os[1..], id)
  }

  predicate Has(os: seq<Order>, id: uint64) {
    IndexOf(os, id) < |os|
  }

  predicate InBook(b: Book, id: uint64) {
    Has(b.bids, id) || Has(b.asks, id)
  }

  function Find(b: Book, id: uint64): Order
    requires InBook(b, id)
  {
    if Has(b.bids, id) then b.bids[IndexOf(b.bids, id)] else b.asks[IndexOf(b.asks, id)]
  }

  function Without<T>(s: seq<T>, k: nat): (r: seq<T>)
    requires k < |s|
    ensures |r| == |s| - 1
    ensures forall i {:trigger r[i]} :: 0 <= i < |r| ==> r[i] == if i < k then s[i] else s[i + 1]
  {
    s[..k] + s[k + 1..]
  }

  function Remove(os: seq<Order>, id: uint64): seq<Order> {
    var k := IndexOf(os, id);
    if k < |os| then Without(os, k) else os
  }

  function RemoveFromBook(b: Book, id: uint64): Book {
    if Has(b.bids, id) then b.(bids := Remove(b.bids, id)) else b.(asks := Remove(b.asks, id))
  }

  /** Change the remaining quantity of an order where it stands in its queue. */
  function Requantify(os: seq<Order>, id: uint64, quantity: uint32): seq<Order> {
    var k := IndexOf(os, id);
    if k < |os| then os[k := os[k].(quantity := quantity)] else os
  }

  function RequantifyInBook(b: Book, id: uint64, quantity: uint32): Book {
    if Has(b.bids, id) then b.(bids := Requantify(b.bids, id, quantity))
    else b.(asks := Requantify(b.asks, id, quantity))
  }

  /** Number of leading orders that keep priority over a newcomer at this price. */
  function InsertPos(os: seq<Order>, side: Side, price: int): (k: nat)
    ensures k <= |os|
    ensures forall i :: 0 <= i < k ==> !Better(side, price, os[i].price)
    ensures k < |os| ==> Better(side, price, os[k].price)
  {
    if os == [] || Better(side, price, os[0].price) then 0 else 1 + InsertPos(os[1..], side, price)
  }

  function Insert(os: seq<Order>, o: Order): seq<Order> {
    var k := InsertPos(os, o.side, o.price);
    os[..k] + [o] + os[k..]
  }

  function FillEvents(id: uint64, side: Side, o: Order, traded: uint32, restingClosed: bool, incomingClosed: bool): seq<Event> {
    [OnTrade(o.id, traded, o.price),
     OnFill(o.id, o.side, traded, o.price, restingClosed, false),
     OnFill(id, side, traded, o.price, incomingClosed, true)]
  }

  /** A resting order after a trade that leaves something of it. */
  function PartlyFilled(o: Order, traded: uint32): Order
    requires traded <= o.quantity
  {
    o.(quantity := o.quantity - traded, filled := Wrap32(o.filled + traded))
  }

  /** Greedy matching: consume the opposite queue from the front while it crosses. */
  function Match(id: uint64, side: Side, quantity: uint32, limit: int, resting: seq<Order>): (r: MatchResult)
    ensures r.left <= quantity
    decreases |resting|
  {
    if quantity == 0 || resting == [] || !Crosses(side, limit, resting[0].price) then
      MatchResult(quantity, resting, [])
    else
      var o := resting[0];
      if o.quantity <= quantity then
        var left := quantity - o.quantity;
        var r := Match(id, side, left, limit, resting[1..]);
        r.(events := FillEvents(id, side, o, o.quantity, true, left == 0) + r.events)
      else
        MatchResult(0, [PartlyFilled(o, quantity)] + resting[1..], FillEvents(id, side, o, quantity, false, true))
  }

  function HandleNewOrder(b: Book, id: uint64, side: Side, quantity: uint32, price: int, flags: uint8,
                          notify: bool, filled: uint32): Result
  {
    if quantity <= filled then
      Result(b, [], quantity, FilledExceedsQuantity)
    else
      var m := Match(id, side, quantity - filled, price, SideOf(b, Opposite(side)));
      var b1 := WithSide(b, Opposite(side), m.resting);
      var acked := if notify && !IsIoc(flags) then [OnNewOrder(id, side, m.left, price, flags)] else [];
      if m.left > 0 && IsIoc(flags) then
        Result(b1, m.events + acked + (if notify then [OnDeleteOrder(id, false)] else []), m.left, Done)
      else if m.left == 0 then
        Result(b1, m.events + acked, 0, Done)
      else if InBook(b1, id) then
        Result(b1, m.events + acked, m.left, OrderExists)
      else
        var o := Order(id, side, price, m.left, quantity - filled - m.left, flags);
        Result(WithSide(b1, side, Insert(SideOf(b1, side), o)), m.events + acked, m.left, Done)
  }

  function NewOrder(b: Book, id: uint64, side: Side, quantity: uint32, price: int, flags: uint8): Result {
    HandleNewOrder(b, id, side, quantity, price, flags, true, 0)
  }

  function DeleteOrder(b: Book, id: uint64): Result {
    if !InBook(b, id) then Result(b, [OnCancelReject(id)], 0, Done)
    else Result(RemoveFromBook(b, id), [OnDeleteOrder(id, true)], 0, Done)
  }

  function ModifyOrder(b: Book, id: uint64, side: Side, quantity: uint32, price: int): Result {
    if !InBook(b, id) then
      Result(b, [OnCancelReject(id)], quantity, Done)
    else
      var o := Find(b, id);
      if o.filled >= quantity then
        DeleteOrder(b, id)
      else if o.price == price && o.side == side then
        Result(RequantifyInBook(b, id, quantity), [OnModifyOrder(id, side, quantity - o.filled, price)], quantity, Done)
      else
        var r := HandleNewOrder(RemoveFromBook(b, id), id, side, quantity, price, o.flags, false, o.filled);
        if r.outcome != Done then r
        else r.(events := r.events + (if r.left > 0 then [OnModifyOrder(id, side, r.left, price)] else [OnDeleteOrder(id, true)]))
  }

  /** The three calls the broker makes on a ladder. */
  datatype Request =
    | New(id: uint64, side: Side, quantity: uint32, price: int, flags: uint8)
    | Delete(id: uint64)
    | Modify(id: uint64, side: Side, quantity: uint32, price: int)

  function Apply(b: Book, req: Request): Result {
    match req
    case New(id, side, quantity, price, flags) => NewOrder(b, id, side, quantity, price, flags)
    case Delete(id) => DeleteOrder(b, id)
    case Modify(id, side, quantity, price) => ModifyOrder(b, id, side, quantity, price)
  }
}
