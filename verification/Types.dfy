/** Machine integers, sides and price comparison shared by every component of the exchange. */
module ExchangeTypes {

  const TWO32: int := 0x1_0000_0000

  type uint8 = x: int | 0 <= x < 0x100
  type uint16 = x: int | 0 <= x < 0x1_0000
  type uint32 = x: int | 0 <= x < TWO32
  type uint64 = x: int | 0 <= x < 0x1_0000_0000_0000_0000

  datatype Option<+T> = None | Some(value: T)

  /** The validator never inspects `side`; every other component treats it as two-valued. */
  datatype Side = Buy | Sell

  function Opposite(s: Side): Side {
    if s.Buy? then Sell else Buy
  }

  /** Wrap-around of C++ unsigned 32-bit arithmetic. */
  function Wrap32(x: int): uint32 {
    x % TWO32
  }

  /** `p` has strictly higher priority than `q` on a resting side: the order of the level map's comparator. */
  predicate Better(side: Side, p: int, q: int) {
    if side.Buy? then p > q else p < q
  }

  /** An incoming order on `side` with limit `limit` may trade against a resting price. */
  predicate Crosses(side: Side, limit: int, resting: int) {
    if side.Buy? then resting <= limit else resting >= limit
  }

  /** Bit 0 of the order flags: immediate-or-cancel. */
  predicate IsIoc(flags: uint8) {
    flags % 2 == 1
  }

  /** A nonempty set of prices has one of highest priority: `begin()` of a sorted map. */
  lemma {:induction false} BestExists(s: set<int>, side: Side)
    requires s != {}
    ensures exists p :: p in s && forall q :: q in s ==> !Better(side, q, p)
    decreases |s|
  {
    assert exists x :: x in s;
    var x :| x in s;
    if s != {x} {
      assert s - {x} != {};
      BestExists(s - {x}, side);
      var y :| y in s - {x} && forall q :: q in s - {x} ==> !Better(side, q, y);
      var best := if Better(side, x, y) then x else y;
      forall q | q in s ensures !Better(side, q, best) {
        if q != x { assert q in s - {x}; }
      }
    }
  }

  // ----- 32-bit arithmetic -----

  type int32 = x: int | -0x8000_0000 <= x < 0x8000_0000

  /** Conversion of any integer to a C++ signed 32-bit value. */
  function Signed32(x: int): int32 {
    var u := x % TWO32;
    if u < 0x8000_0000 then u else u - TWO32
  }

  /** Equal up to a multiple of 2^32. */
  predicate Congruent(x: int, y: int) {
    (x - y) % TWO32 == 0
  }

  lemma Multiple(k: int)
    ensures (TWO32 * k) % TWO32 == 0
  {}

  lemma ConversionsCongruent(x: int)
    ensures Congruent(Signed32(x), x) && Congruent(Wrap32(x), x)
  {
    var k := x / TWO32;
    assert x == TWO32 * k + x % TWO32;
    Multiple(-k);
    Multiple(-k - 1);
  }

  lemma CongruentConvert(x: int, y: int)
    requires Congruent(x, y)
    ensures Wrap32(x) == Wrap32(y) && Signed32(x) == Signed32(y)
  {
    assert x == y + TWO32 * ((x - y) / TWO32);
  }

  lemma CongruentAdd(x: int, y: int, z: int, w: int)
    requires Congruent(x, y) && Congruent(z, w)
    ensures Congruent(x + z, y + w) && Congruent(x - z, y - w)
  {
    assert x - y == TWO32 * ((x - y) / TWO32) && z - w == TWO32 * ((z - w) / TWO32);
    Multiple((x - y) / TWO32 + (z - w) / TWO32);
    Multiple((x - y) / TWO32 - (z - w) / TWO32);
  }

  lemma CongruentSame(x: int)
    ensures Congruent(x, x)
  {}

  function Min(x: int, y: int): int {
    if x <= y then x else y
  }

  function Max(x: int, y: int): int {
    if x >= y then x else y
  }

  lemma Associative<T>(a: seq<T>, b: seq<T>, c: seq<T>)
    ensures a + b + c == a + (b + c)
  {}

  // ----- packets -----

  /** The send buffers of the exchange hold this many bytes. */
  const PACKET_SIZE: nat := 1460

  /** The contents of a list of packets, one after the other. */
  function Flatten<T>(ps: seq<seq<T>>): seq<T> {
    if ps == [] then [] else Flatten(ps[..|ps| - 1]) + ps[|ps| - 1]
  }

  lemma FlattenPush<T>(ps: seq<seq<T>>, p: seq<T>)
    ensures Flatten(ps + [p]) == Flatten(ps) + p
  {
    assert (ps + [p])[..|ps|] == ps;
  }
}
