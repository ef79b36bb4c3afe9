/** The clearing house client: positions, profit and volume by client and symbol, kept from the fill feed. */
module ClearingLedgers {
  import opened ExchangeTypes
  import opened BrokerSpec
  import opened Clearing
  import opened BrokerLog
  import opened Lifecycle
  import HandlerSpec

  // ----- what a list of fills means -----

  datatype Account = Account(client: uint32, symbol: uint32)

  datatype Measure = Position | Spent | Received | Profit | Volume | Bought

  function AccountOf(f: ClearingFill): Account {
    Account(f.client, f.symbol)
  }

  /** What one leg adds to its client's account. */
  function Leg(f: ClearingFill, what: Measure): int {
    var lots: int := f.quantity;
    var value := lots * f.price;
    match what
    case Position => if f.side.Buy? then lots else -lots
    case Spent => if f.side.Buy? then value else 0
    case Received => if f.side.Buy? then 0 else value
    case Profit => if f.side.Buy? then -value else value
    case Volume => lots
    case Bought => if f.side.Buy? then lots else 0
  }

  function Balance(fills: seq<ClearingFill>, what: Measure, a: Account): int {
    if fills == [] then 0
    else (if AccountOf(fills[0]) == a then Leg(fills[0], what) else 0) + Balance(fills[1..], what, a)
  }

  /** The same over all clients of a symbol. */
  function Overall(fills: seq<ClearingFill>, what: Measure, symbol: uint32): int {
    if fills == [] then 0
    else (if fills[0].symbol == symbol then Leg(fills[0], what) else 0) + Overall(fills[1..], what, symbol)
  }

  function Accounts(fills: seq<ClearingFill>): set<Account> {
    set i | 0 <= i < |fills| :: AccountOf(fills[i])
  }

  lemma {:induction false} BalanceAppend(fills: seq<ClearingFill>, f: ClearingFill, what: Measure, a: Account)
    ensures Balance(fills + [f], what, a) == Balance(fills, what, a) + (if AccountOf(f) == a then Leg(f, what) else 0)
  {
    if fills == [] {
      assert fills + [f] == [f];
    } else {
      assert (fills + [f])[1..] == fills[1..] + [f];
      BalanceAppend(fills[1..], f, what, a);
    }
  }

  lemma {:induction false} ProfitIsReceivedLessSpent(fills: seq<ClearingFill>, a: Account)
    ensures Balance(fills, Profit, a) == Balance(fills, Received, a) - Balance(fills, Spent, a)
  {
    if fills != [] {
      ProfitIsReceivedLessSpent(fills[1..], a);
    }
  }

  lemma {:induction false} UnknownAccountIsZero(fills: seq<ClearingFill>, what: Measure, a: Account)
    requires a !in Accounts(fills)
    ensures Balance(fills, what, a) == 0
  {
    if fills != [] {
      assert forall i :: 0 <= i < |fills[1..]| ==> AccountOf(fills[1..][i]) == AccountOf(fills[i + 1]);
      assert AccountOf(fills[0]) in Accounts(fills);
      UnknownAccountIsZero(fills[1..], what, a);
    }
  }

  // ----- sums over accounts -----

  ghost function Sum(m: map<Account, int>): int
    decreases |m|
  {
    if m == map[] then 0 else var a :| a in m; m[a] + Sum(m - {a})
  }

  /** The sum does not depend on the order of the accounts. */
  lemma {:induction false} SumAny(m: map<Account, int>, a: Account)
    requires a in m
    ensures Sum(m) == m[a] + Sum(m - {a})
    decreases |m|
  {
    var b :| b in m && Sum(m) == m[b] + Sum(m - {b});
    if a != b {
      SumAny(m - {b}, a);
      SumAny(m - {a}, b);
      assert m - {a} - {b} == m - {b} - {a};
    }
  }

  lemma SumBump(m: map<Account, int>, m': map<Account, int>, a: Account, d: int)
    requires a in m && m'.Keys == m.Keys && m'[a] == m[a] + d
    requires forall x :: x in m && x != a ==> m'[x] == m[x]
    ensures Sum(m') == Sum(m) + d
  {
    SumAny(m, a);
    SumAny(m', a);
    assert m - {a} == m' - {a};
  }

  lemma {:induction false} SumCongruent(m: map<Account, int>, m': map<Account, int>)
    requires m'.Keys == m.Keys && forall x :: x in m ==> Congruent(m'[x], m[x])
    ensures Congruent(Sum(m'), Sum(m))
    decreases |m|
  {
    hide Congruent;
    if m == map[] {
      assert m' == map[];
      CongruentSame(0);
    } else {
      assert exists a :: a in m;
      var a :| a in m;
      SumAny(m, a);
      SumAny(m', a);
      SumCongruent(m - {a}, m' - {a});
      CongruentAdd(m'[a], m[a], Sum(m' - {a}), Sum(m - {a}));
    }
  }

  lemma {:induction false} SumOfZeros(m: map<Account, int>)
    requires forall x :: x in m ==> m[x] == 0
    ensures Sum(m) == 0
    decreases |m|
  {
    if m != map[] {
      var a :| a in m && Sum(m) == m[a] + Sum(m - {a});
      SumOfZeros(m - {a});
    }
  }

  ghost function Balances(fills: seq<ClearingFill>, what: Measure, accounts: set<Account>): map<Account, int> {
    map a | a in accounts :: Balance(fills, what, a)
  }

  /** All accounts of a symbol together have what the fills of that symbol amount to. */
  lemma {:induction false} BalancesAddUp(fills: seq<ClearingFill>, what: Measure, symbol: uint32, accounts: set<Account>)
    requires forall a :: a in accounts ==> a.symbol == symbol
    requires forall i :: 0 <= i < |fills| && fills[i].symbol == symbol ==> AccountOf(fills[i]) in accounts
    ensures Sum(Balances(fills, what, accounts)) == Overall(fills, what, symbol)
    decreases |fills|
  {
    hide Sum, Leg;
    var m := Balances(fills, what, accounts);
    if fills == [] {
      SumOfZeros(m);
    } else {
      assert forall i :: 0 <= i < |fills[1..]| ==> fills[1..][i] == fills[i + 1];
      BalancesAddUp(fills[1..], what, symbol, accounts);
      var rest := Balances(fills[1..], what, accounts);
      if fills[0].symbol == symbol {
        SumBump(rest, m, AccountOf(fills[0]), Leg(fills[0], what));
      } else {
        assert m == rest;
      }
    }
  }

  // ----- double entry -----

  /** Matched legs cancel: nothing is made or lost overall, and every lot traded was bought once and sold once. */
  lemma {:induction false} LegsCancel(fills: seq<ClearingFill>, symbol: uint32)
    requires Paired(fills)
    ensures Overall(fills, Position, symbol) == 0
    ensures Overall(fills, Profit, symbol) == 0
    ensures Overall(fills, Volume, symbol) == 2 * Overall(fills, Bought, symbol)
    decreases |fills|
  {
    if fills != [] {
      assert fills[1..][1..] == fills[2..];
      assert fills[1..] != [];
      LegsCancel(fills[2..], symbol);
      var a, b := fills[0], fills[1];
      assert a.quantity * a.price == b.quantity * b.price;
      forall what: Measure ensures Overall(fills, what, symbol) ==
        (if a.symbol == symbol then Leg(a, what) + Leg(b, what) else 0) + Overall(fills[2..], what, symbol)
      {}
    }
  }

  // ----- the client -----

  datatype Body = FillBody(fill: ClearingFill) | TruncatedFill | HeartbeatBody | UnknownBody

  /** A datagram of the clearing feed: whether its magic number is right, its number and its content. */
  datatype Packet = Packet(magic: bool, seqNum: uint32, body: Body)

  /** Any number is accepted first; after that only the next one. The successor is taken in 64 bits. */
  predicate InSequence(last: uint64, p: Packet) {
    p.magic && (last == 0 || p.seqNum == last + 1)
  }

  /** How far a client of the feed has got: the last number taken and the fills booked. */
  datatype Progress = Progress(last: uint64, booked: seq<ClearingFill>)

  function Take(at: Progress, p: Packet): Progress {
    if !InSequence(at.last, p) then at
    else Progress(p.seqNum, if p.body.FillBody? then at.booked + [p.body.fill] else at.booked)
  }

  function TakeAll(at: Progress, ps: seq<Packet>): Progress {
    if ps == [] then at else Take(TakeAll(at, ps[..|ps| - 1]), ps[|ps| - 1])
  }

  /** The publisher counts in 32 bits and increments before it sends. */
  function Feed(fills: seq<ClearingFill>): seq<Packet> {
    seq(|fills|, i requires 0 <= i < |fills| => Packet(true, Wrap32(i + 1), FillBody(fills[i])))
  }

  /** A client that hears the whole feed books every fill up to number 2^32 - 1, and none after the number wraps. */
  lemma {:induction false} FeedIsBooked(fills: seq<ClearingFill>)
    ensures var n := if |fills| < TWO32 then |fills| else TWO32 - 1;
      TakeAll(Progress(0, []), Feed(fills)) == Progress(n, fills[..n])
  {
    if fills != [] {
      var n, feed := |fills| - 1, Feed(fills);
      FeedIsBooked(fills[..n]);
      assert feed[..n] == Feed(fills[..n]) && feed[n] == Packet(true, Wrap32(n + 1), FillBody(fills[n]));
      assert TakeAll(Progress(0, []), feed) == Take(TakeAll(Progress(0, []), feed[..n]), feed[n]);
      hide *;
      BookedNext(fills, n);
    }
  }

  lemma BookedNext(fills: seq<ClearingFill>, n: nat)
    requires n == |fills| - 1
    ensures var k, k' := (if n < TWO32 then n else TWO32 - 1), (if |fills| < TWO32 then |fills| else TWO32 - 1);
      Take(Progress(k, fills[..n][..k]), Packet(true, Wrap32(n + 1), FillBody(fills[n]))) == Progress(k', fills[..k'])
  {
    if n < TWO32 - 1 {
      assert fills[..n][..n] + [fills[n]] == fills[..n + 1];
    } else {
      assert fills[..n][..TWO32 - 1] == fills[..TWO32 - 1];
    }
  }

  /** The fills among what datagrams carry. */
  function FillsIn(bodies: seq<Body>): seq<ClearingFill> {
    if bodies == [] then []
    else FillsIn(bodies[..|bodies| - 1]) + (if bodies[|bodies| - 1].FillBody? then [bodies[|bodies| - 1].fill] else [])
  }

  /** Whatever else the feed carries, heartbeats, unknown or truncated messages: with numbers 1, 2, and so on, all its fills are booked. */
  lemma {:induction false} NumbersKeepStep(bodies: seq<Body>, ps: seq<Packet>)
    requires |ps| == |bodies| < TWO32 && forall i :: 0 <= i < |ps| ==> ps[i] == Packet(true, i + 1, bodies[i])
    ensures TakeAll(Progress(0, []), ps) == Progress(|ps|, FillsIn(bodies))
  {
    if ps != [] {
      var n := |ps| - 1;
      NumbersKeepStep(bodies[..n], ps[..n]);
      assert ps[n].seqNum == n + 1;
      assert FillsIn(bodies[..n]) + [] == FillsIn(bodies[..n]);
    }
  }

  /** Once a number has been missed nothing later in the feed is booked. */
  lemma {:induction false} GapIsFatal(at: Progress, ps: seq<Packet>)
    requires at.last > 0 && forall i :: 0 <= i < |ps| ==> ps[i].seqNum > at.last + 1
    ensures TakeAll(at, ps) == at
  {
    if ps != [] {
      GapIsFatal(at, ps[..|ps| - 1]);
    }
  }

  function Read<V>(m: map<Account, V>, a: Account, zero: V): V {
    if a in m then m[a] else zero
  }

  /** Adding one leg to a converted balance, in 32-bit arithmetic, is converting the new balance. */
  lemma LegAdded(fills: seq<ClearingFill>, f: ClearingFill, what: Measure)
    ensures var a := AccountOf(f);
      var before, leg, now := Balance(fills, what, a), Leg(f, what), Balance(fills + [f], what, a);
      Wrap32(Wrap32(before) + leg) == Wrap32(Wrap32(before) + Wrap32(leg)) == Wrap32(now) && Signed32(Signed32(before) + leg) == Signed32(now)
  {
    hide Congruent, Wrap32, Signed32, Leg, Balance;
    var leg, before := Leg(f, what), Balance(fills, what, AccountOf(f));
    BalanceAppend(fills, f, what, AccountOf(f));
    ConversionsCongruent(before);
    ConversionsCongruent(leg);
    CongruentSame(leg);
    CongruentAdd(Wrap32(before), before, Wrap32(leg), leg);
    CongruentAdd(Wrap32(before), before, leg, leg);
    CongruentAdd(Signed32(before), before, leg, leg);
    CongruentConvert(Wrap32(before) + Wrap32(leg), before + leg);
    CongruentConvert(Wrap32(before) + leg, before + leg);
    CongruentConvert(Signed32(before) + leg, before + leg);
  }

  /** Profit recomputed from the two converted totals is the converted profit. */
  lemma ProfitFromTotals(fills: seq<ClearingFill>, a: Account)
    ensures Signed32(Wrap32(Balance(fills, Received, a)) - Wrap32(Balance(fills, Spent, a))) == Signed32(Balance(fills, Profit, a))
  {
    hide Congruent, Wrap32, Signed32, Balance;
    var received, spent := Balance(fills, Received, a), Balance(fills, Spent, a);
    ProfitIsReceivedLessSpent(fills, a);
    ConversionsCongruent(received);
    ConversionsCongruent(spent);
    CongruentAdd(Wrap32(received), received, Wrap32(spent), spent);
    CongruentConvert(Wrap32(received) - Wrap32(spent), received - spent);
  }

  lemma AccountsAppend(fills: seq<ClearingFill>, f: ClearingFill)
    ensures Accounts(fills + [f]) == Accounts(fills) + {AccountOf(f)}
  {
    var g := fills + [f];
    forall x ensures x in Accounts(g) <==> x in Accounts(fills) + {AccountOf(f)} {
      if x in Accounts(fills) {
        var i :| 0 <= i < |fills| && AccountOf(fills[i]) == x;
        assert g[i] == fills[i];
      }
      assert g[|fills|] == f;
    }
  }

  /** The five figures of an account are what the fills say they are, converted to 32 bits. */
  predicate Figures(fills: seq<ClearingFill>, a: Account, position: int32, buy: uint32, sell: uint32, lots: uint32, pnl: int32) {
    && position == Signed32(Balance(fills, Position, a))
    && buy == Wrap32(Balance(fills, Spent, a))
    && sell == Wrap32(Balance(fills, Received, a))
    && lots == Wrap32(Balance(fills, Volume, a))
    && pnl == Signed32(Balance(fills, Profit, a))
  }

  lemma UnknownFigures(fills: seq<ClearingFill>, a: Account)
    requires a !in Accounts(fills)
    ensures Figures(fills, a, 0, 0, 0, 0, 0)
  {
    forall what ensures Balance(fills, what, a) == 0 {
      UnknownAccountIsZero(fills, what, a);
    }
  }

  lemma OtherFigures(fills: seq<ClearingFill>, f: ClearingFill, a: Account, position: int32, buy: uint32, sell: uint32, lots: uint32, pnl: int32)
    requires a != AccountOf(f) && Figures(fills, a, position, buy, sell, lots, pnl)
    ensures Figures(fills + [f], a, position, buy, sell, lots, pnl)
  {
    hide Wrap32, Signed32;
    forall what ensures Balance(fills + [f], what, a) == Balance(fills, what, a) {
      BalanceAppend(fills, f, what, a);
    }
  }

  /** Quantity times price in unsigned 32-bit arithmetic. */
  function Value(f: ClearingFill): uint32 {
    Wrap32(f.quantity * f.price)
  }

  lemma PostedFigures(fills: seq<ClearingFill>, f: ClearingFill, position: int32, buy: uint32, sell: uint32, lots: uint32, pnl: int32)
    requires Figures(fills, AccountOf(f), position, buy, sell, lots, pnl)
    ensures var value := Value(f);
      var position' := Signed32(if f.side.Buy? then position + f.quantity else position - f.quantity);
      var buy', sell' := if f.side.Buy? then Wrap32(buy + value) else buy, if f.side.Buy? then sell else Wrap32(sell + value);
      Figures(fills + [f], AccountOf(f), position', buy', sell', Wrap32(lots + f.quantity), Signed32((sell' as int) - buy'))
  {
    hide Balance, Wrap32, Signed32;
    LegAdded(fills, f, Position);
    LegAdded(fills, f, Spent);
    LegAdded(fills, f, Received);
    LegAdded(fills, f, Volume);
    BalanceAppend(fills, f, Spent, AccountOf(f));
    BalanceAppend(fills, f, Received, AccountOf(f));
    ProfitFromTotals(fills + [f], AccountOf(f));
  }

  /** Exactly the accounts of the fills, each with its figures. */
  predicate Sheet(fills: seq<ClearingFill>, positions: map<Account, int32>, totalBuy: map<Account, uint32>,
                  totalSell: map<Account, uint32>, volume: map<Account, uint32>, rawPnl: map<Account, int32>)
  {
    && positions.Keys == totalBuy.Keys == totalSell.Keys == volume.Keys == rawPnl.Keys == Accounts(fills)
    && forall a :: a in positions ==> Figures(fills, a, positions[a], totalBuy[a], totalSell[a], volume[a], rawPnl[a])
  }

  lemma SheetPosted(fills: seq<ClearingFill>, f: ClearingFill, positions: map<Account, int32>, totalBuy: map<Account, uint32>,
                    totalSell: map<Account, uint32>, volume: map<Account, uint32>, rawPnl: map<Account, int32>,
                    position: int32, buy: uint32, sell: uint32, lots: uint32, pnl: int32)
    requires Sheet(fills, positions, totalBuy, totalSell, volume, rawPnl)
    requires var a := AccountOf(f);
      && position == Signed32(if f.side.Buy? then Read(positions, a, 0) + f.quantity else Read(positions, a, 0) - f.quantity)
      && buy == (if f.side.Buy? then Wrap32(Read(totalBuy, a, 0) + Value(f)) else Read(totalBuy, a, 0))
      && sell == (if f.side.Buy? then Read(totalSell, a, 0) else Wrap32(Read(totalSell, a, 0) + Value(f)))
      && lots == Wrap32(Read(volume, a, 0) + f.quantity) && pnl == Signed32((sell as int) - buy)
    ensures var a := AccountOf(f);
      Sheet(fills + [f], positions[a := position], totalBuy[a := buy], totalSell[a := sell], volume[a := lots], rawPnl[a := pnl])
  {
    hide Figures, Accounts, Wrap32, Signed32, Value, AccountOf;
    var a := AccountOf(f);
    AccountsAppend(fills, f);
    if a !in positions {
      UnknownFigures(fills, a);
    }
    PostedFigures(fills, f, Read(positions, a, 0), Read(totalBuy, a, 0), Read(totalSell, a, 0), Read(volume, a, 0), Read(rawPnl, a, 0));
    forall x | x in positions && x != a
      ensures Figures(fills + [f], x, positions[x], totalBuy[x], totalSell[x], volume[x], rawPnl[x])
    {
      OtherFigures(fills, f, x, positions[x], totalBuy[x], totalSell[x], volume[x], rawPnl[x]);
    }
  }

  class ClearingClient {
    var lastSeqNum: uint64
    var positions: map<Account, int32>
    var totalBuy: map<Account, uint32>
    var totalSell: map<Account, uint32>
    var volume: map<Account, uint32>
    var rawPnl: map<Account, int32>
    /** The fills taken into the ledger so far. */
    ghost var booked: seq<ClearingFill>

    /** Every figure is what the booked fills say it is, converted to its 32 bits. */
    ghost predicate Valid()
      reads this
    {
      Sheet(booked, positions, totalBuy, totalSell, volume, rawPnl)
    }

    constructor ()
      ensures Valid() && booked == [] && lastSeqNum == 0
    {
      lastSeqNum := 0;
      positions, totalBuy, totalSell, volume, rawPnl := map[], map[], map[], map[], map[];
      booked := [];
    }

    /** One received datagram; a wrong magic number throws, a gap leaves the ledger alone for good. */
    method Process(p: Packet) returns (threw: bool)
      requires Valid()
      modifies this
      ensures Valid()
      ensures threw <==> !p.magic
      ensures Progress(lastSeqNum, booked) == Take(Progress(old(lastSeqNum), old(booked)), p)
    {
      if !p.magic {
        return true;
      }
      threw := false;
      if lastSeqNum != 0 && p.seqNum != lastSeqNum + 1 {
        return;
      }
      lastSeqNum := p.seqNum;
      if p.body.FillBody? {
        Post(p.body.fill);
      }
    }

    method Post(f: ClearingFill)
      requires Valid()
      modifies this
      ensures Valid() && booked == old(booked) + [f] && lastSeqNum == old(lastSeqNum)
    {
      hide Sheet, Wrap32, Signed32, Value, AccountOf;
      var a := AccountOf(f);
      var position, buy, sell, lots := Read(positions, a, 0), Read(totalBuy, a, 0), Read(totalSell, a, 0), Read(volume, a, 0);
      if f.side.Buy? {
        position, buy := Signed32(position + f.quantity), Wrap32(buy + Value(f));
      } else {
        position, sell := Signed32(position - f.quantity), Wrap32(sell + Value(f));
      }
      lots := Wrap32(lots + f.quantity);
      var pnl := Signed32((sell as int) - buy);
      SheetPosted(booked, f, positions, totalBuy, totalSell, volume, rawPnl, position, buy, sell, lots, pnl);
      positions, totalBuy, totalSell := positions[a := position], totalBuy[a := buy], totalSell[a := sell];
      volume, rawPnl := volume[a := lots], rawPnl[a := pnl];
      booked := booked + [f];
    }
  }

  // ----- the house always balances -----

  function OfSymbol(m: map<Account, int>, symbol: uint32): map<Account, int> {
    map a | a in m && a.symbol == symbol :: m[a]
  }

  lemma SheetBalances(m: map<Account, int>, fills: seq<ClearingFill>, what: Measure, symbol: uint32)
    requires m.Keys == Accounts(fills) && forall a :: a in m ==> Congruent(m[a], Balance(fills, what, a))
    ensures Congruent(Sum(OfSymbol(m, symbol)), Overall(fills, what, symbol))
  {
    var accounts := OfSymbol(m, symbol).Keys;
    forall i | 0 <= i < |fills| && fills[i].symbol == symbol ensures AccountOf(fills[i]) in accounts {
      assert AccountOf(fills[i]) in Accounts(fills);
    }
    BalancesAddUp(fills, what, symbol, accounts);
    SumCongruent(Balances(fills, what, accounts), OfSymbol(m, symbol));
  }

  /** The figures of a symbol over all clients are what the booked fills amount to, modulo 2^32. */
  lemma BooksAddUp(c: ClearingClient, symbol: uint32)
    requires c.Valid()
    ensures Congruent(Sum(OfSymbol(c.positions, symbol)), Overall(c.booked, Position, symbol))
    ensures Congruent(Sum(OfSymbol(c.rawPnl, symbol)), Overall(c.booked, Profit, symbol))
    ensures Congruent(Sum(OfSymbol(c.volume, symbol)), Overall(c.booked, Volume, symbol))
  {
    hide Sum, OfSymbol, Overall, Balance, Accounts, Signed32, Wrap32, Congruent;
    forall a, what ensures var v := Balance(c.booked, what, a); Congruent(Signed32(v), v) && Congruent(Wrap32(v), v) {
      ConversionsCongruent(Balance(c.booked, what, a));
    }
    SheetBalances(c.positions, c.booked, Position, symbol);
    SheetBalances(c.rawPnl, c.booked, Profit, symbol);
    SheetBalances(c.volume, c.booked, Volume, symbol);
  }

  /**
   Once both legs of every match are booked, the positions of a symbol sum to zero over its clients and so
   does the raw profit, modulo 2^32, and the volume is twice what was bought, whatever the figures wrapped to.
   */
  lemma BooksBalance(c: ClearingClient, symbol: uint32)
    requires c.Valid() && Paired(c.booked)
    ensures Congruent(Sum(OfSymbol(c.positions, symbol)), 0)
    ensures Congruent(Sum(OfSymbol(c.rawPnl, symbol)), 0)
    ensures Congruent(Sum(OfSymbol(c.volume, symbol)), 2 * Overall(c.booked, Bought, symbol))
  {
    hide *;
    LegsCancel(c.booked, symbol);
    BooksAddUp(c, symbol);
  }

  // ----- who holds what -----

  /** Lots of a symbol that fills on one side name a client for. */
  function Lots(fills: seq<ClearingFill>, client: uint32, symbol: uint32, side: Side): nat {
    if fills == [] then 0
    else
      var f := fills[0];
      (if f.client == client && f.symbol == symbol && f.side == side then f.quantity else 0) + Lots(fills[1..], client, symbol, side)
  }

  /** What those lots came to. */
  function Worth(fills: seq<ClearingFill>, client: uint32, symbol: uint32, side: Side): int {
    if fills == [] then 0
    else
      var f := fills[0];
      (if f.client == client && f.symbol == symbol && f.side == side then f.quantity * f.price else 0) + Worth(fills[1..], client, symbol, side)
  }

  lemma {:induction false} BalancesAre(fills: seq<ClearingFill>, client: uint32, symbol: uint32)
    ensures var a := Account(client, symbol);
      && Balance(fills, Position, a) == Lots(fills, client, symbol, Buy) - Lots(fills, client, symbol, Sell)
      && Balance(fills, Volume, a) == Lots(fills, client, symbol, Buy) + Lots(fills, client, symbol, Sell)
      && Balance(fills, Spent, a) == Worth(fills, client, symbol, Buy)
      && Balance(fills, Received, a) == Worth(fills, client, symbol, Sell)
      && Balance(fills, Profit, a) == Worth(fills, client, symbol, Sell) - Worth(fills, client, symbol, Buy)
  {
    if fills != [] {
      BalancesAre(fills[1..], client, symbol);
    }
  }

  /**
   A client has an entry in a symbol exactly if a booked fill names it there; its position is the lots it bought less those
   it sold, its totals what they came to, its volume all of them, its profit what it received less what it spent, each
   converted to 32 bits.
   */
  lemma HoldingsAre(c: ClearingClient, client: uint32, symbol: uint32)
    requires c.Valid()
    ensures var a, bought, sold := Account(client, symbol), Lots(c.booked, client, symbol, Buy), Lots(c.booked, client, symbol, Sell);
      var spent, received := Worth(c.booked, client, symbol, Buy), Worth(c.booked, client, symbol, Sell);
      && c.positions.Keys == c.totalBuy.Keys == c.totalSell.Keys == c.volume.Keys == c.rawPnl.Keys
      && (a in c.positions <==> exists i :: 0 <= i < |c.booked| && c.booked[i].client == client && c.booked[i].symbol == symbol)
      && (a in c.positions ==>
          && c.positions[a] == Signed32(bought - sold) && c.volume[a] == Wrap32(bought + sold)
          && c.totalBuy[a] == Wrap32(spent) && c.totalSell[a] == Wrap32(received) && c.rawPnl[a] == Signed32(received - spent))
  {
    hide Signed32, Wrap32, Balance, Lots, Worth;
    var a := Account(client, symbol);
    BalancesAre(c.booked, client, symbol);
    if i :| 0 <= i < |c.booked| && c.booked[i].client == client && c.booked[i].symbol == symbol {
      assert AccountOf(c.booked[i]) == a;
      assert a in Accounts(c.booked);
    }
  }

  // ----- when the feed's numbers run out -----

  lemma {:induction false} PairedPrefix(fills: seq<ClearingFill>, k: nat)
    requires Paired(fills) && 2 * k <= |fills|
    ensures Paired(fills[..2 * k])
    decreases k
  {
    if k > 0 {
      PairedPrefix(fills[2..], k - 1);
      assert fills[..2 * k][2..] == fills[2..][..2 * (k - 1)];
      assert fills[1..] != [];
    } else {
      PairedNone();
      assert fills[..0] == [];
    }
  }

  lemma {:induction false} OverallAppend(fills: seq<ClearingFill>, f: ClearingFill, what: Measure, symbol: uint32)
    ensures Overall(fills + [f], what, symbol) == Overall(fills, what, symbol) + (if f.symbol == symbol then Leg(f, what) else 0)
  {
    if fills == [] {
      assert fills + [f] == [f];
    } else {
      assert (fills + [f])[1..] == fills[1..] + [f];
      OverallAppend(fills[1..], f, what, symbol);
    }
  }

  /** The last number of the feed goes to the first leg of a match, whose second leg nobody books any more. */
  predicate CutOff(fills: seq<ClearingFill>, symbol: uint32) {
    |fills| >= TWO32 && fills[TWO32 - 2].symbol == symbol
  }

  /** What the booked part of a feed amounts to over all clients of a symbol. */
  lemma BookedOverall(fills: seq<ClearingFill>, symbol: uint32)
    requires Paired(fills)
    ensures var booked := TakeAll(Progress(0, []), Feed(fills)).booked;
      var position, profit := (if CutOff(fills, symbol) then Leg(fills[TWO32 - 2], Position) else 0),
        (if CutOff(fills, symbol) then Leg(fills[TWO32 - 2], Profit) else 0);
      && Overall(booked, Position, symbol) == position && Overall(booked, Profit, symbol) == profit
      && Overall(booked, Volume, symbol) == 2 * Overall(booked, Bought, symbol) - position
  {
    FeedIsBooked(fills);
    if |fills| < TWO32 {
      assert fills[..|fills|] == fills;
      LegsCancel(fills, symbol);
    } else {
      var n := TWO32 - 2;
      PairedPrefix(fills, n / 2);
      LegsCancel(fills[..n], symbol);
      assert fills[..n + 1] == fills[..n] + [fills[n]];
      hide Overall, Paired, TakeAll;
      forall what: Measure ensures Overall(fills[..n + 1], what, symbol) ==
        Overall(fills[..n], what, symbol) + (if fills[n].symbol == symbol then Leg(fills[n], what) else 0)
      {
        OverallAppend(fills[..n], fills[n], what, symbol);
      }
    }
  }

  lemma CongruentThrough(x: int, y: int, z: int)
    requires Congruent(x, y)
    ensures Congruent(x, z) <==> Congruent(y, z)
  {
    CongruentSame(y);
    if Congruent(x, z) { CongruentAdd(x, z, x, y); }
    if Congruent(y, z) { CongruentAdd(x, y, y, z); }
  }

  lemma CongruentZero(x: int, y: int)
    ensures Congruent(x, 0) <==> Wrap32(x) == 0
    ensures Congruent(-x, 0) <==> Wrap32(x) == 0
    ensures Congruent(y - x, y) <==> Congruent(-x, 0)
  {
    assert y - x - y == -x;
  }

  lemma LegsCongruent(f: ClearingFill)
    ensures Congruent(Leg(f, Position), 0) <==> f.quantity == 0
    ensures Congruent(-Leg(f, Position), 0) <==> f.quantity == 0
    ensures Congruent(Leg(f, Profit), 0) <==> Value(f) == 0
  {
    hide Congruent;
    CongruentZero(f.quantity, 0);
    CongruentZero(f.quantity * f.price, 0);
  }

  /**
   A client that heard the whole feed has a symbol in balance, modulo 2^32, exactly unless the feed has run out of
   numbers between the two legs of a match in that symbol and the leg it booked is not a multiple of 2^32 itself.
   */
  lemma FeedBalances(fills: seq<ClearingFill>, c: ClearingClient, symbol: uint32)
    requires Paired(fills) && c.Valid() && c.booked == TakeAll(Progress(0, []), Feed(fills)).booked
    ensures Congruent(Sum(OfSymbol(c.positions, symbol)), 0) <==> !(CutOff(fills, symbol) && fills[TWO32 - 2].quantity != 0)
    ensures Congruent(Sum(OfSymbol(c.rawPnl, symbol)), 0) <==> !(CutOff(fills, symbol) && Value(fills[TWO32 - 2]) != 0)
    ensures Congruent(Sum(OfSymbol(c.volume, symbol)), 2 * Overall(c.booked, Bought, symbol))
      <==> !(CutOff(fills, symbol) && fills[TWO32 - 2].quantity != 0)
  {
    hide Overall, Sum, OfSymbol, Paired, TakeAll, Feed, Congruent, Leg, Value, Sheet;
    BookedOverall(fills, symbol);
    BooksAddUp(c, symbol);
    var position, profit, volume := Sum(OfSymbol(c.positions, symbol)), Sum(OfSymbol(c.rawPnl, symbol)), Sum(OfSymbol(c.volume, symbol));
    var bought := 2 * Overall(c.booked, Bought, symbol);
    CongruentThrough(position, Overall(c.booked, Position, symbol), 0);
    CongruentThrough(profit, Overall(c.booked, Profit, symbol), 0);
    CongruentThrough(volume, Overall(c.booked, Volume, symbol), bought);
    if CutOff(fills, symbol) {
      var f := fills[TWO32 - 2];
      LegsCongruent(f);
      CongruentZero(Leg(f, Position), bought);
    } else {
      CongruentSame(0);
      CongruentSame(bought);
    }
  }

  /** The whole chain: any interleaving of clients, handler and broker, its fill feed heard from the start, every symbol in balance. */
  lemma HouseBalances(symbols: set<uint32>, rules: HandlerSpec.Rules, steps: seq<Step>, c: ClearingClient, symbol: uint32)
    requires rules.Keys <= symbols && Possible(Start(symbols), rules, steps)
    requires c.Valid() && c.booked == TakeAll(Progress(0, []), Feed(After(Start(symbols), rules, steps).broker.fills)).booked
    ensures var fills := After(Start(symbols), rules, steps).broker.fills;
      && Paired(fills)
      && (!CutOff(fills, symbol) ==>
          && Congruent(Sum(OfSymbol(c.positions, symbol)), 0) && Congruent(Sum(OfSymbol(c.rawPnl, symbol)), 0)
          && Congruent(Sum(OfSymbol(c.volume, symbol)), 2 * Overall(c.booked, Bought, symbol)))
  {
    StartInv(symbols);
    assert Start(symbols).broker.fills == [] && Start(symbols).broker.books.Keys == symbols;
    hide *;
    PairedNone();
    InterleavingClearsInPairs(Start(symbols), rules, steps);
    FeedBalances(After(Start(symbols), rules, steps).broker.fills, c, symbol);
  }

  /** The same for the broker alone, over every run of requests it may be sent. */
  lemma BrokerBalances(symbols: set<uint32>, ps: seq<Payload>, c: ClearingClient, symbol: uint32)
    requires EntitledRun(Idle(symbols), ps)
    requires c.Valid() && c.booked == TakeAll(Progress(0, []), Feed(RunBroker(Idle(symbols), ps).st.fills)).booked
    requires !CutOff(RunBroker(Idle(symbols), ps).st.fills, symbol)
    ensures Congruent(Sum(OfSymbol(c.positions, symbol)), 0) && Congruent(Sum(OfSymbol(c.rawPnl, symbol)), 0)
    ensures Congruent(Sum(OfSymbol(c.volume, symbol)), 2 * Overall(c.booked, Bought, symbol))
  {
    hide *;
    RunClearsInPairs(symbols, ps);
    FeedBalances(RunBroker(Idle(symbols), ps).st.fills, c, symbol);
  }
}
