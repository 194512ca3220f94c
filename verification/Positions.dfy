/**
 The position book: signed holdings with an average cost and realised profit.

 Amounts are exact reals; the rounding of stored columns to six decimals is left
 out. One holding belongs to one portfolio and instrument.
 */
module Positions {
  import opened Arithmetic
  import opened Wrappers

  datatype Key = Key(portfolio: string, instrument: string)

  /** A buy or a sell of one key; any side other than BUY is a sell. */
  datatype Trade = Trade(key: Key, isBuy: bool, qty: real, price: real)

  /** The columns that executions carry forward. */
  datatype Holding = Holding(quantity: real, avgCost: real, realizedPnl: real)

  predicate ValidTrade(t: Trade) {
    t.qty > 0.0 && t.price > 0.0
  }

  function Min(x: real, y: real): real {
    if x <= y then x else y
  }

  function Opened(t: Trade): Holding {
    Holding(if t.isBuy then t.qty else -t.qty, t.price, 0.0)
  }

  function Bought(h: Holding, t: Trade): Holding
    requires ValidTrade(t)
  {
    var q := h.quantity + t.qty;
    if h.quantity >= 0.0 then
      Holding(q, (Product(h.quantity, h.avgCost) + Product(t.qty, t.price)) / Abs(q), h.realizedPnl)
    else
      var covered := Min(t.qty, Abs(h.quantity));
      Holding(q,
              if t.qty > Abs(h.quantity) then t.price else h.avgCost,
              h.realizedPnl + Product(covered, h.avgCost - t.price))
  }

  function Sold(h: Holding, t: Trade): Holding {
    var q := h.quantity - t.qty;
    var sold := Min(t.qty, Abs(h.quantity));
    Holding(q, if q == 0.0 then 0.0 else h.avgCost, h.realizedPnl + Product(sold, t.price - h.avgCost))
  }

  function Applied(h: Option<Holding>, t: Trade): Holding
    requires ValidTrade(t)
  {
    if h.None? then Opened(t) else if t.isBuy then Bought(h.value, t) else Sold(h.value, t)
  }

  // ----- One trade -----

  /** Sell cash less buy cash of one trade. */
  function Cash(t: Trade): real {
    if t.isBuy then -Product(t.qty, t.price) else Product(t.qty, t.price)
  }

  /** Realised profit less the signed cost of what is held. */
  function Booked(h: Holding): real {
    h.realizedPnl - Product(h.quantity, h.avgCost)
  }

  /**
   A sell of more than the size of an existing position keeps the old average cost
   for the excess; the excess is priced at that cost instead of the trade price.
   */
  function OversellGap(h: Option<Holding>, t: Trade): real {
    if !t.isBuy && h.Some? && t.qty > Abs(h.value.quantity) then
      Product(t.qty - Abs(h.value.quantity), t.price - h.value.avgCost)
    else 0.0
  }

  lemma AverageTimesQuantity(cost: real, q: real)
    requires q > 0.0
    ensures Product(q, cost / Abs(q)) == cost
  {
  }

  lemma ProductOfDifference(x: real, y: real, z: real)
    ensures Product(x, y - z) == Product(x, y) - Product(x, z)
    ensures Product(y - z, x) == Product(y, x) - Product(z, x)
    ensures Product(-x, y) == -Product(x, y)
    ensures Product(0.0, x) == 0.0 == Product(x, 0.0)
  {
  }

  lemma BoughtBooks(h: Holding, t: Trade)
    requires ValidTrade(t) && t.isBuy
    ensures Booked(Bought(h, t)) == Booked(h) + Cash(t)
  {
    var q, a, x, p := h.quantity, h.avgCost, t.qty, t.price;
    if q >= 0.0 {
      AverageTimesQuantity(Product(q, a) + Product(x, p), q + x);
      hide Product;
    } else if x > -q {
      ProductOfDifference(-q, a, p);
      ProductOfDifference(q, a, p);
      ProductOfDifference(q, p, a);
      ProductDistributes(q, x, p);
      hide Product;
    } else {
      ProductOfDifference(x, a, p);
      ProductDistributes(q, x, a);
      hide Product;
    }
  }

  lemma SoldBooks(h: Holding, t: Trade)
    requires ValidTrade(t) && !t.isBuy
    ensures Booked(Sold(h, t)) == Booked(h) + Cash(t) - OversellGap(Some(h), t)
  {
    var q, a, x, p := h.quantity, h.avgCost, t.qty, t.price;
    ProductOfDifference(a, q, x);
    ProductOfDifference(x, p, a);
    ProductOfDifference(Abs(q), p, a);
    SoldAlgebra(q, a, x, p);
  }

  lemma SoldAlgebra(q: real, a: real, x: real, p: real)
    requires x > 0.0
    ensures Product(Min(x, Abs(q)), p - a) - Product(q - x, if q - x == 0.0 then 0.0 else a)
         == -Product(q, a) + Product(x, p) - if x > Abs(q) then Product(x - Abs(q), p - a) else 0.0
  {
    assert Product(q - x, a) == Product(q, a) - Product(x, a);
    assert Product(x, p - a) == Product(x, p) - Product(x, a);
    if x > Abs(q) {
      assert Product(x - Abs(q), p - a) == Product(x, p - a) - Product(Abs(q), p - a);
    }
    hide Product;
  }

  /** One trade books its cash, up to the gap of an oversell. */
  lemma TradeBooks(h: Option<Holding>, t: Trade)
    requires ValidTrade(t)
    ensures Booked(Applied(h, t)) == (if h.Some? then Booked(h.value) else 0.0) + Cash(t) - OversellGap(h, t)
  {
    if h.None? {
      ProductOfDifference(t.qty, t.price, 0.0);
    } else if t.isBuy {
      BoughtBooks(h.value, t);
    } else {
      SoldBooks(h.value, t);
    }
  }

  /** A sell beyond the size of an existing position, at a price other than its average cost. */
  predicate Misprices(h: Option<Holding>, t: Trade) {
    !t.isBuy && h.Some? && t.qty > Abs(h.value.quantity) && t.price != h.value.avgCost
  }

  lemma GapExactly(h: Option<Holding>, t: Trade)
    ensures OversellGap(h, t) == 0.0 <==> !Misprices(h, t)
  {
    if !t.isBuy && h.Some? && t.qty > Abs(h.value.quantity) {
      ProductVanishes(t.qty - Abs(h.value.quantity), t.price - h.value.avgCost);
      hide Product;
    }
  }

  /** One trade books exactly its cash unless it misprices an oversell. */
  lemma TradeIsExact(h: Option<Holding>, t: Trade)
    requires ValidTrade(t)
    ensures Booked(Applied(h, t)) == (if h.Some? then Booked(h.value) else 0.0) + Cash(t) <==> !Misprices(h, t)
  {
    hide *;
    TradeBooks(h, t);
    GapExactly(h, t);
  }

  // ----- Runs of trades -----

  datatype Held = Held(key: Key, holding: Holding)

  /** Index of the row of a key, or the number of rows when there is none. */
  function IndexOf(hs: seq<Held>, key: Key): (i: nat)
    ensures i <= |hs|
    ensures i < |hs| ==> hs[i].key == key
    ensures forall j :: 0 <= j < i ==> hs[j].key != key
  {
    if hs == [] then 0 else if hs[0].key == key then 0 else 1 + IndexOf(hs[1..], key)
  }

  function Lookup(hs: seq<Held>, key: Key): Option<Holding> {
    var i := IndexOf(hs, key);
    if i < |hs| then Some(hs[i].holding) else None
  }

  /** The upsert of one trade. */
  function Upserted(hs: seq<Held>, t: Trade): seq<Held>
    requires ValidTrade(t)
  {
    var i := IndexOf(hs, t.key);
    if i < |hs| then hs[i := Held(t.key, Applied(Some(hs[i].holding), t))]
    else hs + [Held(t.key, Applied(None, t))]
  }

  ghost predicate ValidTrades(ts: seq<Trade>) {
    forall i :: 0 <= i < |ts| ==> ValidTrade(ts[i])
  }

  function Replay(ts: seq<Trade>): seq<Held>
    requires ValidTrades(ts)
  {
    if ts == [] then [] else Upserted(Replay(ts[..|ts| - 1]), ts[|ts| - 1])
  }

  ghost predicate UniqueKeys(hs: seq<Held>) {
    forall i, j :: 0 <= i < j < |hs| ==> hs[i].key != hs[j].key
  }

  lemma IndexIsUnique(hs: seq<Held>, key: Key, i: nat)
    requires i <= |hs| && (i < |hs| ==> hs[i].key == key)
    requires forall j :: 0 <= j < i ==> hs[j].key != key
    ensures IndexOf(hs, key) == i
  {
  }

  lemma LookupUpserted(hs: seq<Held>, t: Trade, key: Key)
    requires ValidTrade(t)
    ensures Lookup(Upserted(hs, t), key)
         == if key == t.key then Some(Applied(Lookup(hs, key), t)) else Lookup(hs, key)
  {
    hide Applied;
    var i, i' := IndexOf(hs, t.key), IndexOf(hs, key);
    IndexIsUnique(Upserted(hs, t), key, if key == t.key || i' < |hs| then i' else |Upserted(hs, t)|);
  }

  lemma {:induction false} ReplayHasUniqueKeys(ts: seq<Trade>)
    requires ValidTrades(ts)
    ensures UniqueKeys(Replay(ts))
  {
    hide Applied;
    if ts == [] {
    } else {
      ReplayHasUniqueKeys(ts[..|ts| - 1]);
    }
  }

  /** Signed quantity traded in a key. */
  function NetQuantity(ts: seq<Trade>, key: Key): real {
    if ts == [] then 0.0 else
    var t := ts[|ts| - 1];
    NetQuantity(ts[..|ts| - 1], key) + if t.key != key then 0.0 else if t.isBuy then t.qty else -t.qty
  }

  /** Sell cash less buy cash in a key. */
  function NetCash(ts: seq<Trade>, key: Key): real {
    if ts == [] then 0.0 else
    var t := ts[|ts| - 1];
    NetCash(ts[..|ts| - 1], key) + if t.key != key then 0.0 else Cash(t)
  }

  /** Sum of the oversell gaps in a key. */
  function Gaps(ts: seq<Trade>, key: Key): real
    requires ValidTrades(ts)
  {
    if ts == [] then 0.0 else
    var t := ts[|ts| - 1];
    Gaps(ts[..|ts| - 1], key)
    + if t.key != key then 0.0 else OversellGap(Lookup(Replay(ts[..|ts| - 1]), key), t)
  }

  lemma AppliedQuantity(h: Option<Holding>, t: Trade)
    requires ValidTrade(t)
    ensures Applied(h, t).quantity
         == (if h.Some? then h.value.quantity else 0.0) + if t.isBuy then t.qty else -t.qty
  {
  }

  /**
   Over every run of trades: the quantity of a position is the net quantity traded,
   and realised profit - quantity * average cost - net cash is exactly minus the sum
   of the oversell gaps. A key never traded has no position.
   */
  lemma {:induction false} PositionOfRun(ts: seq<Trade>, key: Key)
    requires ValidTrades(ts)
    ensures var h := Lookup(Replay(ts), key);
            && (h.Some? <==> exists i :: 0 <= i < |ts| && ts[i].key == key)
            && (if h.Some? then h.value.quantity else 0.0) == NetQuantity(ts, key)
            && (if h.Some? then Booked(h.value) else 0.0) == NetCash(ts, key) - Gaps(ts, key)
  {
    if ts == [] {
    } else {
      var before, t := ts[..|ts| - 1], ts[|ts| - 1];
      PositionOfRun(before, key);
      LookupUpserted(Replay(before), t, key);
      AppliedQuantity(Lookup(Replay(before), key), t);
      TradeBooks(Lookup(Replay(before), key), t);
      hide Applied, Booked, Cash, OversellGap;
      assert forall i :: 0 <= i < |before| ==> ts[i] == before[i];
      assert t.key == key ==> ts[|ts| - 1].key == key;
    }
  }

  /** No sell exceeded the size of a position that existed. */
  ghost predicate NoOversell(ts: seq<Trade>, key: Key)
    requires ValidTrades(ts)
  {
    forall i :: 0 <= i < |ts| && ts[i].key == key && !ts[i].isBuy ==>
      var h := Lookup(Replay(ts[..i]), key);
      h.Some? ==> ts[i].qty <= Abs(h.value.quantity)
  }

  lemma {:induction false} NoOversellNoGaps(ts: seq<Trade>, key: Key)
    requires ValidTrades(ts) && NoOversell(ts, key)
    ensures Gaps(ts, key) == 0.0
  {
    if ts == [] {
    } else {
      var before := ts[..|ts| - 1];
      forall i | 0 <= i < |before|
        ensures ts[..i] == before[..i] && ts[i] == before[i]
      {
      }
      NoOversellNoGaps(before, key);
    }
  }

  /**
   Without an oversell the identity is exact, through short covers and flips from
   short to long. The condition is checkable before each sell.
   */
  lemma ProfitIdentity(ts: seq<Trade>, key: Key)
    requires ValidTrades(ts) && NoOversell(ts, key)
    ensures var h := Lookup(Replay(ts), key);
            h.Some? ==> h.value.realizedPnl - Product(h.value.quantity, h.value.avgCost) == NetCash(ts, key)
  {
    PositionOfRun(ts, key);
    NoOversellNoGaps(ts, key);
  }

  /** What the position of a key has booked, nothing when there is none. */
  function BookedOf(h: Option<Holding>): real {
    if h.Some? then Booked(h.value) else 0.0
  }

  ghost predicate IdentityHolds(ts: seq<Trade>, key: Key)
    requires ValidTrades(ts)
  {
    BookedOf(Lookup(Replay(ts), key)) == NetCash(ts, key)
  }

  /** No trade of the key mispriced an oversell: each one was at the average cost. */
  ghost predicate OversellsAtCost(ts: seq<Trade>, key: Key)
    requires ValidTrades(ts)
  {
    forall i :: 0 <= i < |ts| && ts[i].key == key ==> !Misprices(Lookup(Replay(ts[..i]), key), ts[i])
  }

  ghost predicate IdentityThroughout(ts: seq<Trade>, key: Key)
    requires ValidTrades(ts)
  {
    forall k :: 0 <= k <= |ts| ==> IdentityHolds(ts[..k], key)
  }

  /** One more trade keeps the identity exactly when it does not misprice an oversell. */
  lemma IdentityOfLast(ts: seq<Trade>, key: Key)
    requires ValidTrades(ts) && ts != [] && IdentityHolds(ts[..|ts| - 1], key)
    ensures var before, t := ts[..|ts| - 1], ts[|ts| - 1];
            IdentityHolds(ts, key) <==> t.key != key || !Misprices(Lookup(Replay(before), key), t)
  {
    var before, t := ts[..|ts| - 1], ts[|ts| - 1];
    LookupUpserted(Replay(before), t, key);
    TradeIsExact(Lookup(Replay(before), key), t);
    hide Booked, Applied, Cash, Misprices;
  }

  lemma PrefixesOfInit(ts: seq<Trade>, k: nat)
    requires k < |ts|
    ensures ts[..|ts| - 1][..k] == ts[..k]
  {
  }

  lemma ThroughoutLast(ts: seq<Trade>, key: Key)
    requires ValidTrades(ts) && ts != []
    ensures IdentityThroughout(ts, key) <==> IdentityThroughout(ts[..|ts| - 1], key) && IdentityHolds(ts, key)
    ensures IdentityThroughout(ts[..|ts| - 1], key) ==> IdentityHolds(ts[..|ts| - 1], key)
  {
    hide IdentityHolds;
    var before := ts[..|ts| - 1];
    assert before[..|before|] == before && ts[..|ts|] == ts;
    forall k | 0 <= k < |ts|
      ensures before[..k] == ts[..k]
    {
      PrefixesOfInit(ts, k);
    }
    if IdentityThroughout(ts, key) {
      forall k | 0 <= k <= |before|
        ensures IdentityHolds(before[..k], key)
      {
        assert IdentityHolds(ts[..k], key);
      }
    }
  }

  lemma AtCostLast(ts: seq<Trade>, key: Key)
    requires ValidTrades(ts) && ts != []
    ensures var before, t := ts[..|ts| - 1], ts[|ts| - 1];
            OversellsAtCost(ts, key) <==>
            OversellsAtCost(before, key) && (t.key != key || !Misprices(Lookup(Replay(before), key), t))
  {
    hide Misprices, Replay, Lookup;
    var before := ts[..|ts| - 1];
    forall k | 0 <= k < |before|
      ensures before[..k] == ts[..k] && before[k] == ts[k]
    {
      PrefixesOfInit(ts, k);
    }
  }

  /** The identity holds after every trade of a run exactly when every oversell is at the average cost. */
  lemma {:induction false} ProfitIdentityExactly(ts: seq<Trade>, key: Key)
    requires ValidTrades(ts)
    ensures IdentityThroughout(ts, key) <==> OversellsAtCost(ts, key)
  {
    if ts == [] {
    } else {
      hide IdentityHolds, IdentityThroughout, OversellsAtCost, Misprices, Replay, Lookup;
      ProfitIdentityExactly(ts[..|ts| - 1], key);
      ThroughoutLast(ts, key);
      AtCostLast(ts, key);
      if IdentityThroughout(ts[..|ts| - 1], key) {
        IdentityOfLast(ts, key);
      }
    }
  }

  /** Buying 1 at 10 and selling 2 at 15 leaves the book 5 short of its cash. */
  lemma OversellBreaksIdentity(key: Key)
    ensures var ts := [Trade(key, true, 1.0, 10.0), Trade(key, false, 2.0, 15.0)];
            && ValidTrades(ts)
            && Lookup(Replay(ts), key).Some?
            && Booked(Lookup(Replay(ts), key).value) == NetCash(ts, key) - 5.0
  {
    var buy, sell := Trade(key, true, 1.0, 10.0), Trade(key, false, 2.0, 15.0);
    var ts := [buy, sell];
    assert ts[..1] == [buy] && [buy][..0] == [];
    assert Replay([buy]) == [Held(key, Holding(1.0, 10.0, 0.0))];
    assert Replay(ts) == [Held(key, Holding(-1.0, 10.0, 5.0))];
    assert NetCash([buy], key) == -10.0;
  }

  // ----- A whole portfolio -----

  function BookedSum(hs: seq<Held>, portfolio: string): real {
    if hs == [] then 0.0 else
    var h := hs[|hs| - 1];
    BookedSum(hs[..|hs| - 1], portfolio) + if h.key.portfolio == portfolio then Booked(h.holding) else 0.0
  }

  function PortfolioCash(ts: seq<Trade>, portfolio: string): real {
    if ts == [] then 0.0 else
    var t := ts[|ts| - 1];
    PortfolioCash(ts[..|ts| - 1], portfolio) + if t.key.portfolio == portfolio then Cash(t) else 0.0
  }

  lemma PortfolioCashAppend(ts: seq<Trade>, t: Trade, portfolio: string)
    ensures PortfolioCash(ts + [t], portfolio)
         == PortfolioCash(ts, portfolio) + if t.key.portfolio == portfolio then Cash(t) else 0.0
  {
    assert (ts + [t])[..|ts|] == ts;
  }

  function PortfolioGaps(ts: seq<Trade>, portfolio: string): real
    requires ValidTrades(ts)
  {
    if ts == [] then 0.0 else
    var t := ts[|ts| - 1];
    PortfolioGaps(ts[..|ts| - 1], portfolio)
    + if t.key.portfolio == portfolio then OversellGap(Lookup(Replay(ts[..|ts| - 1]), t.key), t) else 0.0
  }

  lemma {:induction false} BookedSumUpdate(hs: seq<Held>, i: nat, h: Held, portfolio: string)
    requires i < |hs| && h.key == hs[i].key
    ensures BookedSum(hs[i := h], portfolio)
         == BookedSum(hs, portfolio)
            + if h.key.portfolio == portfolio then Booked(h.holding) - Booked(hs[i].holding) else 0.0
  {
    hide Booked;
    var last := |hs| - 1;
    if i == last {
      assert hs[i := h][..last] == hs[..last];
    } else {
      assert hs[i := h][..last] == hs[..last][i := h];
      BookedSumUpdate(hs[..last], i, h, portfolio);
    }
  }

  lemma BookedSumUpserted(hs: seq<Held>, t: Trade, portfolio: string)
    requires ValidTrade(t)
    ensures BookedSum(Upserted(hs, t), portfolio)
         == BookedSum(hs, portfolio)
            + if t.key.portfolio == portfolio then Cash(t) - OversellGap(Lookup(hs, t.key), t) else 0.0
  {
    TradeBooks(Lookup(hs, t.key), t);
    hide Applied, Booked, Cash, OversellGap;
    var i := IndexOf(hs, t.key);
    if i < |hs| {
      BookedSumUpdate(hs, i, Held(t.key, Applied(Some(hs[i].holding), t)), portfolio);
    } else {
      assert Upserted(hs, t)[..|hs|] == hs;
    }
  }

  /** The positions of a portfolio together book its cash, up to its oversell gaps. */
  lemma {:induction false} PortfolioOfRun(ts: seq<Trade>, portfolio: string)
    requires ValidTrades(ts)
    ensures BookedSum(Replay(ts), portfolio) == PortfolioCash(ts, portfolio) - PortfolioGaps(ts, portfolio)
  {
    if ts == [] {
    } else {
      PortfolioOfRun(ts[..|ts| - 1], portfolio);
      BookedSumUpserted(Replay(ts[..|ts| - 1]), ts[|ts| - 1], portfolio);
      hide Upserted, Cash, OversellGap, Booked;
    }
  }

  // ----- The stored rows -----

  datatype Position = Position(
    key: Key, holding: Holding, costBasis: real, marketValue: real,
    unrealizedPnl: real, totalPnl: real, lastMark: real)

  /** The columns derived from a holding and the price it is marked at; decimal zero counts as positive. */
  function Marked(key: Key, h: Holding, costBasis: real, mark: real): Position {
    var marketValue := Product(Abs(h.quantity), mark);
    var unrealized := if h.quantity >= 0.0 then marketValue - costBasis else costBasis - marketValue;
    Position(key, h, costBasis, marketValue, unrealized, h.realizedPnl + unrealized, mark)
  }

  ghost predicate RowOk(p: Position) {
    p == Marked(p.key, p.holding, Product(Abs(p.holding.quantity), p.holding.avgCost), p.lastMark)
  }

  /** What each derived column of a row means. */
  lemma RowColumns(p: Position)
    requires RowOk(p)
    ensures p.costBasis == Product(Abs(p.holding.quantity), p.holding.avgCost)
    ensures p.marketValue == Product(Abs(p.holding.quantity), p.lastMark)
    ensures p.unrealizedPnl == Product(p.holding.quantity, p.lastMark - p.holding.avgCost)
    ensures p.totalPnl == p.holding.realizedPnl + p.unrealizedPnl
  {
    var q, a, m := p.holding.quantity, p.holding.avgCost, p.lastMark;
    ProductOfDifference(q, m, a);
    ProductNegates(q, m);
    ProductNegates(q, a);
    hide Product;
  }

  /** Total profit of a row is what is booked plus the signed value at its mark. */
  lemma TotalOfRow(p: Position)
    requires RowOk(p)
    ensures p.totalPnl == Booked(p.holding) + Product(p.holding.quantity, p.lastMark)
  {
    ProductNegates(p.holding.quantity, p.lastMark);
    ProductNegates(p.holding.quantity, p.holding.avgCost);
    hide Product;
  }

  /** The row saved for a trade. */
  function SavedRow(existing: Option<Position>, t: Trade): Position
    requires ValidTrade(t)
  {
    if existing.None? then
      var value := Product(t.qty, t.price);
      Position(t.key, Opened(t), value, value, 0.0, 0.0, t.price)
    else
      var h := Applied(Some(existing.value.holding), t);
      Marked(t.key, h, Product(Abs(h.quantity), h.avgCost), t.price)
  }

  lemma SavedRowOk(existing: Option<Position>, t: Trade)
    requires ValidTrade(t)
    ensures RowOk(SavedRow(existing, t)) && SavedRow(existing, t).key == t.key
    ensures SavedRow(existing, t).lastMark == t.price
    ensures SavedRow(existing, t).holding == Applied(if existing.Some? then Some(existing.value.holding) else None, t)
  {
  }

  function HoldingsOf(rows: seq<Position>): (hs: seq<Held>)
    ensures |hs| == |rows|
    ensures forall i :: 0 <= i < |rows| ==> hs[i] == Held(rows[i].key, rows[i].holding)
  {
    seq(|rows|, i requires 0 <= i < |rows| => Held(rows[i].key, rows[i].holding))
  }

  /** The table after the upsert of one trade. */
  function SavedRows(rows: seq<Position>, t: Trade): seq<Position>
    requires ValidTrade(t)
  {
    var i := IndexOf(HoldingsOf(rows), t.key);
    if i < |rows| then rows[i := SavedRow(Some(rows[i]), t)] else rows + [SavedRow(None, t)]
  }

  /** The row after a mark-to-market of one portfolio; an instrument without a price is skipped. */
  function Remarked(p: Position, portfolio: string, lastPrices: map<string, real>): Position {
    if p.key.portfolio == portfolio && p.key.instrument in lastPrices then
      Marked(p.key, p.holding, p.costBasis, lastPrices[p.key.instrument])
    else p
  }

  /** Number of rows of the portfolio that have a price, and the sum of their unrealized profit. */
  function MarkedCount(rows: seq<Position>, portfolio: string, lastPrices: map<string, real>): nat {
    if rows == [] then 0 else
    var p := rows[|rows| - 1];
    MarkedCount(rows[..|rows| - 1], portfolio, lastPrices)
    + if p.key.portfolio == portfolio && p.key.instrument in lastPrices then 1 else 0
  }

  function MarkedTotal(rows: seq<Position>, portfolio: string, lastPrices: map<string, real>): real {
    if rows == [] then 0.0 else
    var p := rows[|rows| - 1];
    MarkedTotal(rows[..|rows| - 1], portfolio, lastPrices)
    + if p.key.portfolio == portfolio && p.key.instrument in lastPrices
      then Remarked(p, portfolio, lastPrices).unrealizedPnl else 0.0
  }

  predicate IsMarked(p: Position, portfolio: string, lastPrices: map<string, real>) {
    p.key.portfolio == portfolio && p.key.instrument in lastPrices
  }

  lemma {:induction false} MarkedAre(rows: seq<Position>, portfolio: string, lastPrices: map<string, real>)
    ensures MarkedCount(rows, portfolio, lastPrices)
         == |set i | 0 <= i < |rows| && IsMarked(rows[i], portfolio, lastPrices)|
  {
    var marked := set i | 0 <= i < |rows| && IsMarked(rows[i], portfolio, lastPrices);
    if rows == [] {
      assert marked == {};
    } else {
      var last, before := |rows| - 1, rows[..|rows| - 1];
      MarkedAre(before, portfolio, lastPrices);
      var earlier := set i | 0 <= i < |before| && IsMarked(before[i], portfolio, lastPrices);
      assert marked == if IsMarked(rows[last], portfolio, lastPrices) then earlier + {last} else earlier;
    }
  }

  /** What the marked positions would gain if closed at the given prices. */
  function PaperProfit(rows: seq<Position>, portfolio: string, lastPrices: map<string, real>): real {
    if rows == [] then 0.0 else
    var p := rows[|rows| - 1];
    PaperProfit(rows[..|rows| - 1], portfolio, lastPrices)
    + if IsMarked(p, portfolio, lastPrices)
      then Product(p.holding.quantity, lastPrices[p.key.instrument] - p.holding.avgCost) else 0.0
  }

  lemma {:induction false} MarkedTotalIsProfit(rows: seq<Position>, portfolio: string, lastPrices: map<string, real>)
    requires forall i :: 0 <= i < |rows| ==> RowOk(rows[i])
    ensures MarkedTotal(rows, portfolio, lastPrices) == PaperProfit(rows, portfolio, lastPrices)
  {
    if rows == [] {
    } else {
      var p := rows[|rows| - 1];
      MarkedTotalIsProfit(rows[..|rows| - 1], portfolio, lastPrices);
      assert RowOk(p);
      RemarkedOk(p, portfolio, lastPrices);
      RowColumns(Remarked(p, portfolio, lastPrices));
      hide RowOk, Product;
    }
  }

  /** The positions table. `trades` records, for the proofs, every trade applied to it. */
  class PositionBook {
    var rows: seq<Position>
    ghost var trades: seq<Trade>

    ghost predicate Valid()
      reads this
    {
      && ValidTrades(trades)
      && HoldingsOf(rows) == Replay(trades)
      && forall i :: 0 <= i < |rows| ==> RowOk(rows[i])
    }

    constructor ()
      ensures Valid() && rows == [] && trades == []
    {
      rows, trades := [], [];
    }

    method ApplyExecution(t: Trade)
      requires Valid() && ValidTrade(t)
      modifies this
      ensures Valid() && trades == old(trades) + [t]
      ensures rows == SavedRows(old(rows), t)
      ensures |old(rows)| <= |rows| && exists i :: 0 <= i < |rows| && rows[i].key == t.key && rows[i].lastMark == t.price
      ensures forall i :: 0 <= i < |old(rows)| && old(rows)[i].key != t.key ==> rows[i] == old(rows)[i]
    {
      hide Applied, RowOk, SavedRow;
      var i := IndexOf(HoldingsOf(rows), t.key);
      assert (trades + [t])[..|trades|] == trades;
      if i < |rows| {
        SavedRowOk(Some(rows[i]), t);
        rows := rows[i := SavedRow(Some(rows[i]), t)];
      } else {
        SavedRowOk(None, t);
        rows := rows + [SavedRow(None, t)];
      }
      trades := trades + [t];
      assert rows[i].key == t.key && rows[i].lastMark == t.price;
      assert Replay(trades) == Upserted(HoldingsOf(old(rows)), t);
      assert HoldingsOf(rows) == Upserted(HoldingsOf(old(rows)), t);
    }

    method MarkToMarket(portfolio: string, lastPrices: map<string, real>) returns (updated: nat, totalUnrealized: real)
      requires Valid()
      modifies this`rows
      ensures Valid() && HoldingsOf(rows) == HoldingsOf(old(rows)) && |rows| == |old(rows)|
      ensures forall i :: 0 <= i < |rows| ==>
                if IsMarked(old(rows)[i], portfolio, lastPrices)
                then rows[i].lastMark == lastPrices[rows[i].key.instrument]
                else rows[i] == old(rows)[i]
      ensures updated == |set i | 0 <= i < |old(rows)| && IsMarked(old(rows)[i], portfolio, lastPrices)|
      ensures totalUnrealized == PaperProfit(old(rows), portfolio, lastPrices)
    {
      ghost var before := rows;
      MarkedTotalIsProfit(rows, portfolio, lastPrices);
      MarkedAre(rows, portfolio, lastPrices);
      hide RowOk, MarkedCount, MarkedTotal, PaperProfit;
      updated, totalUnrealized := MarkRows(portfolio, lastPrices);
      RemarkedRowsOk(before, rows, portfolio, lastPrices);
    }

    /** The loop over the rows, which rewrites those it marks. */
    method MarkRows(portfolio: string, lastPrices: map<string, real>) returns (updated: nat, totalUnrealized: real)
      modifies this`rows
      ensures |rows| == |old(rows)|
      ensures forall i :: 0 <= i < |rows| ==> rows[i] == Remarked(old(rows)[i], portfolio, lastPrices)
      ensures updated == MarkedCount(old(rows), portfolio, lastPrices)
      ensures totalUnrealized == MarkedTotal(old(rows), portfolio, lastPrices)
    {
      updated, totalUnrealized := 0, 0.0;
      ghost var before := rows;
      hide MarkedCount, MarkedTotal, Remarked, Marked;
      MarkedNone(portfolio, lastPrices);
      assert before[..0] == [];
      for i := 0 to |rows|
        invariant |rows| == |before|
        invariant forall j :: 0 <= j < i ==> rows[j] == Remarked(before[j], portfolio, lastPrices)
        invariant rows[i..] == before[i..]
        invariant updated == MarkedCount(before[..i], portfolio, lastPrices)
        invariant totalUnrealized == MarkedTotal(before[..i], portfolio, lastPrices)
      {
        var p := rows[i];
        assert p == rows[i..][0] == before[i];
        MarkedOneMore(before, i, portfolio, lastPrices);
        if p.key.portfolio == portfolio && p.key.instrument in lastPrices {
          var marked := Marked(p.key, p.holding, p.costBasis, lastPrices[p.key.instrument]);
          rows := rows[i := marked];
          updated := updated + 1;
          totalUnrealized := totalUnrealized + marked.unrealizedPnl;
        }
        assert rows[i + 1..] == before[i..][1..];
      }
      assert before[..|rows|] == before;
    }

    /**
     In every reachable state the total profit of a row is its net cash plus the
     signed value at its last mark, less its oversell gaps.
     */
    lemma TotalProfit(i: nat)
      requires Valid() && i < |rows|
      ensures var key := rows[i].key;
              && rows[i].holding.quantity == NetQuantity(trades, key)
              && rows[i].totalPnl == NetCash(trades, key) + Product(rows[i].holding.quantity, rows[i].lastMark) - Gaps(trades, key)
    {
      TotalOfRow(rows[i]);
      ReplayHasUniqueKeys(trades);
      IndexIsUnique(Replay(trades), rows[i].key, i);
      PositionOfRun(trades, rows[i].key);
      hide Booked;
    }
  }

  lemma MarkedNone(portfolio: string, lastPrices: map<string, real>)
    ensures MarkedCount([], portfolio, lastPrices) == 0 && MarkedTotal([], portfolio, lastPrices) == 0.0
  {
  }

  lemma MarkedOneMore(rows: seq<Position>, i: nat, portfolio: string, lastPrices: map<string, real>)
    requires i < |rows|
    ensures var p := rows[i];
            var m := Remarked(p, portfolio, lastPrices);
            if p.key.portfolio == portfolio && p.key.instrument in lastPrices then
              && m == Marked(p.key, p.holding, p.costBasis, lastPrices[p.key.instrument])
              && MarkedCount(rows[..i + 1], portfolio, lastPrices) == MarkedCount(rows[..i], portfolio, lastPrices) + 1
              && MarkedTotal(rows[..i + 1], portfolio, lastPrices) == MarkedTotal(rows[..i], portfolio, lastPrices) + m.unrealizedPnl
            else
              && m == p
              && MarkedCount(rows[..i + 1], portfolio, lastPrices) == MarkedCount(rows[..i], portfolio, lastPrices)
              && MarkedTotal(rows[..i + 1], portfolio, lastPrices) == MarkedTotal(rows[..i], portfolio, lastPrices)
  {
    hide Marked;
    assert rows[..i + 1][..i] == rows[..i];
  }

  lemma RemarkedRowsOk(before: seq<Position>, rows: seq<Position>, portfolio: string, lastPrices: map<string, real>)
    requires |rows| == |before|
    requires forall i :: 0 <= i < |rows| ==> rows[i] == Remarked(before[i], portfolio, lastPrices)
    requires forall i :: 0 <= i < |before| ==> RowOk(before[i])
    ensures forall i :: 0 <= i < |rows| ==> RowOk(rows[i])
    ensures HoldingsOf(rows) == HoldingsOf(before)
  {
    hide RowOk, Remarked;
    forall i | 0 <= i < |rows|
      ensures RowOk(rows[i]) && rows[i].key == before[i].key && rows[i].holding == before[i].holding
    {
      RemarkedOk(before[i], portfolio, lastPrices);
    }
    assert HoldingsOf(rows) == HoldingsOf(before);
  }

  lemma RemarkedOk(p: Position, portfolio: string, lastPrices: map<string, real>)
    requires RowOk(p)
    ensures RowOk(Remarked(p, portfolio, lastPrices))
    ensures Remarked(p, portfolio, lastPrices).key == p.key && Remarked(p, portfolio, lastPrices).holding == p.holding
  {
  }
}
