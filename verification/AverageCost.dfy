/**
 Average cost and realised profit of a position, stated over the trades alone: what was
 paid for what is held, and what was gained on what was sold or covered.
 */
module AverageCost {
  import opened Arithmetic
  import opened Wrappers
  import opened Positions

  /** The trades of one key, in order. */
  function TradesIn(ts: seq<Trade>, key: Key): seq<Trade> {
    if ts == [] then [] else
    var t := ts[|ts| - 1];
    TradesIn(ts[..|ts| - 1], key) + if t.key == key then [t] else []
  }

  /** The holding after trades of its key. */
  function After(h: Option<Holding>, ts: seq<Trade>): Option<Holding>
    requires ValidTrades(ts)
  {
    if ts == [] then h else Some(Applied(After(h, ts[..|ts| - 1]), ts[|ts| - 1]))
  }

  lemma {:induction false} TradesInValid(ts: seq<Trade>, key: Key)
    requires ValidTrades(ts)
    ensures ValidTrades(TradesIn(ts, key))
  {
    if ts == [] {
    } else {
      TradesInValid(ts[..|ts| - 1], key);
    }
  }

  /** A position depends on the trades of its own key only. */
  lemma {:induction false} HoldingOfKey(ts: seq<Trade>, key: Key)
    requires ValidTrades(ts)
    ensures ValidTrades(TradesIn(ts, key))
    ensures Lookup(Replay(ts), key) == After(None, TradesIn(ts, key))
  {
    TradesInValid(ts, key);
    if ts == [] {
    } else {
      var before, t := ts[..|ts| - 1], ts[|ts| - 1];
      HoldingOfKey(before, key);
      LookupUpserted(Replay(before), t, key);
      hide Applied, Lookup, Upserted;
      if t.key == key {
        assert (TradesIn(before, key) + [t])[..|TradesIn(before, key)|] == TradesIn(before, key);
      } else {
        assert TradesIn(ts, key) == TradesIn(before, key);
      }
    }
  }

  lemma {:induction false} AfterConcat(h: Option<Holding>, a: seq<Trade>, b: seq<Trade>)
    requires ValidTrades(a) && ValidTrades(b)
    ensures After(h, a + b) == After(After(h, a), b)
  {
    hide Applied;
    if b == [] {
      assert a + b == a;
    } else {
      AfterConcat(h, a, b[..|b| - 1]);
      assert (a + b)[..|a + b| - 1] == a + b[..|b| - 1];
    }
  }

  // ----- Sums over trades -----

  function Quantity(ts: seq<Trade>): real {
    if ts == [] then 0.0 else Quantity(ts[..|ts| - 1]) + ts[|ts| - 1].qty
  }

  /** Sum of quantity times price. */
  function Value(ts: seq<Trade>): real {
    if ts == [] then 0.0 else Value(ts[..|ts| - 1]) + Product(ts[|ts| - 1].qty, ts[|ts| - 1].price)
  }

  ghost predicate AllBuys(ts: seq<Trade>) {
    forall i :: 0 <= i < |ts| ==> ts[i].isBuy
  }

  ghost predicate AllSells(ts: seq<Trade>) {
    forall i :: 0 <= i < |ts| ==> !ts[i].isBuy
  }

  lemma {:induction false} QuantityPositive(ts: seq<Trade>)
    requires ValidTrades(ts)
    ensures Quantity(ts) >= 0.0 && (ts != [] ==> Quantity(ts) > 0.0)
  {
    if ts == [] {
    } else {
      QuantityPositive(ts[..|ts| - 1]);
    }
  }

  // ----- One trade -----

  function HeldIn(h: Option<Holding>): real {
    if h.Some? then h.value.quantity else 0.0
  }

  function RealizedIn(h: Option<Holding>): real {
    if h.Some? then h.value.realizedPnl else 0.0
  }

  /** Buying for a position that is not short realises nothing; the cost of what is held grows by what was paid. */
  lemma BuyForLong(h: Option<Holding>, t: Trade)
    requires ValidTrade(t) && t.isBuy && HeldIn(h) >= 0.0
    ensures var g := Applied(h, t);
            && g.quantity == HeldIn(h) + t.qty && g.realizedPnl == RealizedIn(h)
            && Product(g.quantity, g.avgCost)
                 == (if h.Some? then Product(h.value.quantity, h.value.avgCost) else 0.0) + Product(t.qty, t.price)
  {
    TradeBooks(h, t);
    if h.Some? {
      BuyRealisesNothing(h.value, t);
    }
    hide Product;
  }

  lemma BuyRealisesNothing(h: Holding, t: Trade)
    requires ValidTrade(t) && t.isBuy && h.quantity >= 0.0
    ensures Applied(Some(h), t).realizedPnl == h.realizedPnl && Applied(Some(h), t).quantity == h.quantity + t.qty
  {
    hide Product;
  }

  /** Selling within a long position realises the difference to its average cost, which stays until the position is flat. */
  lemma SellFromLong(h: Holding, t: Trade)
    requires ValidTrade(t) && !t.isBuy && t.qty <= h.quantity
    ensures var g := Applied(Some(h), t);
            && g.quantity == h.quantity - t.qty
            && g.realizedPnl == h.realizedPnl + Product(t.qty, t.price) - Product(t.qty, h.avgCost)
            && g.avgCost == if g.quantity == 0.0 then 0.0 else h.avgCost
  {
    ProductOfDifference(t.qty, t.price, h.avgCost);
    hide Product;
  }

  /** No sell of an existing position moves its average cost, except to zero when it becomes flat. */
  lemma SellKeepsAverage(h: Holding, t: Trade)
    requires ValidTrade(t) && !t.isBuy
    ensures var g := Applied(Some(h), t);
            g.quantity == h.quantity - t.qty && g.avgCost == if g.quantity == 0.0 then 0.0 else h.avgCost
  {
    hide Product;
  }

  /** Covering within a short position realises the difference the other way, and the average stays. */
  lemma CoverShort(h: Holding, t: Trade)
    requires ValidTrade(t) && t.isBuy && h.quantity < 0.0 && t.qty <= -h.quantity
    ensures var g := Applied(Some(h), t);
            && g.quantity == h.quantity + t.qty
            && g.realizedPnl == h.realizedPnl + Product(t.qty, h.avgCost) - Product(t.qty, t.price)
            && g.avgCost == h.avgCost
  {
    ProductOfDifference(t.qty, h.avgCost, t.price);
    hide Product;
  }

  /** Buying beyond a short position covers all of it and holds the rest at the price of the trade. */
  lemma FlipToLong(h: Holding, t: Trade)
    requires ValidTrade(t) && t.isBuy && h.quantity < 0.0 && t.qty > -h.quantity
    ensures var g := Applied(Some(h), t);
            && g.quantity == h.quantity + t.qty && g.avgCost == t.price
            && g.realizedPnl == h.realizedPnl + Product(-h.quantity, h.avgCost) - Product(-h.quantity, t.price)
  {
    ProductOfDifference(-h.quantity, h.avgCost, t.price);
    hide Product;
  }

  /** A sell without a position opens a short one at the price of the trade. */
  lemma SellOpensShort(t: Trade)
    requires ValidTrade(t) && !t.isBuy
    ensures Applied(None, t) == Holding(-t.qty, t.price, 0.0)
  {
  }

  // ----- Runs of one side -----

  /** Buys into no position or a flat one: the cost of what is held is what was paid for it. */
  lemma {:induction false} BuysFromFlat(h: Option<Holding>, buys: seq<Trade>)
    requires ValidTrades(buys) && AllBuys(buys) && HeldIn(h) == 0.0 && buys != []
    ensures After(h, buys).Some?
    ensures var g := After(h, buys).value;
            && g.quantity == Quantity(buys) > 0.0
            && Product(g.quantity, g.avgCost) == Value(buys)
            && g.realizedPnl == RealizedIn(h)
  {
    hide Applied, Product;
    var init, t := buys[..|buys| - 1], buys[|buys| - 1];
    QuantityPositive(buys);
    QuantityPositive(init);
    if init == [] {
      BuyForLong(h, t);
      if h.Some? {
        ProductOfZero(h.value.avgCost);
      }
    } else {
      BuysFromFlat(h, init);
      BuyForLong(After(h, init), t);
    }
  }

  /** Sells within a long position of average cost a realise what they brought less a for each unit. */
  lemma {:induction false} SellsFromLong(h: Holding, sells: seq<Trade>)
    requires ValidTrades(sells) && AllSells(sells) && Quantity(sells) <= h.quantity && h.quantity > 0.0
    ensures var g := After(Some(h), sells).value;
            && g.quantity == h.quantity - Quantity(sells)
            && g.realizedPnl == h.realizedPnl + Value(sells) - Product(Quantity(sells), h.avgCost)
            && g.avgCost == if g.quantity == 0.0 then 0.0 else h.avgCost
    decreases |sells|
  {
    hide Applied, Product;
    if sells == [] {
      ProductOfZero(h.avgCost);
    } else {
      var init, t := sells[..|sells| - 1], sells[|sells| - 1];
      assert ValidTrade(t);
      SellsFromLong(h, init);
      SellFromLong(After(Some(h), init).value, t);
      ProductDistributes(Quantity(init), t.qty, h.avgCost);
    }
  }

  /** Covers within a short position of average price a realise a for each unit less what they cost. */
  lemma {:induction false} CoversOfShort(h: Holding, buys: seq<Trade>)
    requires ValidTrades(buys) && AllBuys(buys) && Quantity(buys) <= -h.quantity && h.quantity < 0.0
    ensures var g := After(Some(h), buys).value;
            && g.quantity == h.quantity + Quantity(buys) && g.avgCost == h.avgCost
            && g.realizedPnl == h.realizedPnl + Product(Quantity(buys), h.avgCost) - Value(buys)
    decreases |buys|
  {
    hide Applied, Product;
    if buys == [] {
      ProductOfZero(h.avgCost);
    } else {
      var init, t := buys[..|buys| - 1], buys[|buys| - 1];
      assert ValidTrade(t);
      CoversOfShort(h, init);
      CoverShort(After(Some(h), init).value, t);
      ProductDistributes(Quantity(init), t.qty, h.avgCost);
    }
  }

  // ----- Runs of a whole book -----

  lemma ValidConcat(a: seq<Trade>, b: seq<Trade>)
    requires ValidTrades(a + b)
    ensures ValidTrades(a) && ValidTrades(b)
  {
    assert forall i :: 0 <= i < |a| ==> (a + b)[i] == a[i];
    assert forall i :: 0 <= i < |b| ==> (a + b)[|a| + i] == b[i];
  }

  /** What the trades of a key realised so far. */
  function RealizedAfter(ts: seq<Trade>): real
    requires ValidTrades(ts)
  {
    RealizedIn(After(None, ts))
  }

  /**
   In any book, take a key whose trades were flat at some point, then were buys, then
   sells of no more: what is left is held at the average price of those buys, and the
   sells realised their price less that average for each unit.
   */
  lemma LongRoundTrip(
    ts: seq<Trade>, key: Key, before: seq<Trade>, buys: seq<Trade>, sells: seq<Trade>, average: real)
    requires ValidTrades(ts) && TradesIn(ts, key) == before + buys + sells
    requires NetQuantity(before, key) == 0.0 && AllBuys(buys) && buys != [] && AllSells(sells)
    requires Quantity(sells) <= Quantity(buys) && Product(Quantity(buys), average) == Value(buys)
    ensures ValidTrades(before)
    ensures Lookup(Replay(ts), key).Some?
    ensures var h := Lookup(Replay(ts), key).value;
            && h.quantity == Quantity(buys) - Quantity(sells)
            && h.realizedPnl == RealizedAfter(before) + Value(sells) - Product(Quantity(sells), average)
            && (h.quantity != 0.0 ==> h.avgCost == average)
            && (h.quantity == 0.0 ==> h.avgCost == 0.0)
  {
    hide Applied, Product, Lookup, Replay, Quantity, Value, NetQuantity;
    hide ValidTrades, TradesIn, AllBuys, AllSells, HeldIn;
    HoldingOfKey(ts, key);
    assert before + buys + sells == before + (buys + sells);
    FlatBefore(ts, key, before, buys + sells);
    ValidConcat(buys, sells);
    AfterConcat(None, before, buys + sells);
    AfterConcat(After(None, before), buys, sells);
    LongFromFlat(After(None, before), buys, sells, average);
  }

  lemma FlatBefore(ts: seq<Trade>, key: Key, before: seq<Trade>, rest: seq<Trade>)
    requires ValidTrades(ts) && TradesIn(ts, key) == before + rest && NetQuantity(before, key) == 0.0
    ensures ValidTrades(before) && ValidTrades(rest) && ValidTrades(before + rest)
    ensures HeldIn(After(None, before)) == 0.0
  {
    hide NetQuantity, Applied;
    TradesInValid(ts, key);
    ValidConcat(before, rest);
    OwnTrades(ts, key, before, rest);
    FlatAfter(before, key);
  }

  /** The same, from a holding that is flat or absent. */
  lemma LongFromFlat(h: Option<Holding>, buys: seq<Trade>, sells: seq<Trade>, average: real)
    requires ValidTrades(buys) && ValidTrades(sells) && HeldIn(h) == 0.0
    requires AllBuys(buys) && buys != [] && AllSells(sells)
    requires Quantity(sells) <= Quantity(buys) && Product(Quantity(buys), average) == Value(buys)
    ensures After(After(h, buys), sells).Some?
    ensures var g := After(After(h, buys), sells).value;
            && g.quantity == Quantity(buys) - Quantity(sells)
            && g.realizedPnl == RealizedIn(h) + Value(sells) - Product(Quantity(sells), average)
            && (g.quantity != 0.0 ==> g.avgCost == average)
            && (g.quantity == 0.0 ==> g.avgCost == 0.0)
  {
    hide Applied, Product, Quantity, Value, ValidTrades, AllBuys, AllSells;
    BuysFromFlat(h, buys);
    var mid := After(h, buys).value;
    SameAverage(mid.quantity, mid.avgCost, average);
    SellsFromLong(mid, sells);
  }

  lemma {:induction false} TradesInOwn(ts: seq<Trade>, key: Key)
    ensures forall t :: t in TradesIn(ts, key) ==> t.key == key
  {
    if ts == [] {
    } else {
      TradesInOwn(ts[..|ts| - 1], key);
    }
  }

  lemma OwnTrades(ts: seq<Trade>, key: Key, before: seq<Trade>, rest: seq<Trade>)
    requires TradesIn(ts, key) == before + rest
    ensures forall t :: t in before ==> t.key == key
  {
    TradesInOwn(ts, key);
    assert forall i :: 0 <= i < |before| ==> before[i] == TradesIn(ts, key)[i];
  }

  /** The quantity held is the signed quantity traded. */
  lemma {:induction false} FlatAfter(ts: seq<Trade>, key: Key)
    requires ValidTrades(ts) && forall t :: t in ts ==> t.key == key
    ensures HeldIn(After(None, ts)) == NetQuantity(ts, key)
  {
    hide Applied;
    if ts == [] {
    } else {
      FlatAfter(ts[..|ts| - 1], key);
      AppliedQuantity(After(None, ts[..|ts| - 1]), ts[|ts| - 1]);
    }
  }

  lemma SameAverage(q: real, a: real, b: real)
    requires q > 0.0
    ensures Product(q, a) == Product(q, b) ==> a == b
  {
    ProductOfDifference(q, a, b);
    ProductVanishes(q, a - b);
    hide Product;
  }

  /**
   In any book, take a key whose first trade is a sell and whose next ones are buys of no
   more: the rest of the short is held at the price of the sell, and the buys realised that
   price less their own for each unit.
   */
  lemma ShortRoundTrip(ts: seq<Trade>, key: Key, sell: Trade, buys: seq<Trade>)
    requires ValidTrades(ts) && TradesIn(ts, key) == [sell] + buys
    requires !sell.isBuy && AllBuys(buys) && Quantity(buys) <= sell.qty
    ensures Lookup(Replay(ts), key).Some?
    ensures var h := Lookup(Replay(ts), key).value;
            && h.quantity == Quantity(buys) - sell.qty && h.avgCost == sell.price
            && h.realizedPnl == Product(Quantity(buys), sell.price) - Value(buys)
  {
    HoldingOfKey(ts, key);
    ValidConcat([sell], buys);
    assert ValidTrade([sell][0]);
    SellOpensShort(sell);
    assert [sell][..0] == [];
    assert After(None, [sell]) == Some(Applied(After(None, []), sell));
    hide Applied, Product, Lookup, Replay;
    AfterConcat(None, [sell], buys);
    CoversOfShort(After(None, [sell]).value, buys);
  }

  // ----- Buys and sells in any order -----

  /** Net quantity of buys and sells. */
  function Inventory(ts: seq<Trade>): real {
    if ts == [] then 0.0 else
    var t := ts[|ts| - 1];
    Inventory(ts[..|ts| - 1]) + if t.isBuy then t.qty else -t.qty
  }

  /** Nothing is sold that is not held. */
  predicate Covered(ts: seq<Trade>) {
    ts == [] || (Covered(ts[..|ts| - 1]) && Inventory(ts) >= 0.0)
  }

  /** The cost of what is held, when every sell takes out its share of the cost. */
  function InventoryCost(ts: seq<Trade>): real {
    if ts == [] then 0.0 else
    var before, t := ts[..|ts| - 1], ts[|ts| - 1];
    if t.isBuy then InventoryCost(before) + Product(t.qty, t.price)
    else InventoryCost(before) - SoldCost(InventoryCost(before), Inventory(before), t.qty)
  }

  /** The share of a cost that belongs to x of q units. */
  function SoldCost(cost: real, q: real, x: real): real {
    if q == 0.0 then 0.0 else Product(x, cost / q)
  }

  /** What sells bring beyond the cost they take out. */
  function SalesProfit(ts: seq<Trade>): real {
    if ts == [] then 0.0 else
    var before, t := ts[..|ts| - 1], ts[|ts| - 1];
    if t.isBuy then SalesProfit(before)
    else SalesProfit(before) + Product(t.qty, t.price) - SoldCost(InventoryCost(before), Inventory(before), t.qty)
  }

  lemma ShareOfCost(q: real, a: real, x: real, cost: real)
    requires q > 0.0 && Product(q, a) == cost
    ensures SoldCost(cost, q, x) == Product(x, a)
  {
    assert cost / q == a;
  }

  lemma SellNeedsStock(ts: seq<Trade>)
    requires ValidTrades(ts) && Covered(ts) && ts != [] && !ts[|ts| - 1].isBuy
    ensures Inventory(ts[..|ts| - 1]) >= ts[|ts| - 1].qty > 0.0
  {
    assert ValidTrade(ts[|ts| - 1]);
  }

  /**
   Long positions follow the average cost method, in any order of buys and sells: quantity,
   cost and realised profit are those of an inventory whose sells take out their share.
   */
  lemma {:induction false} LongFollowsInventory(ts: seq<Trade>)
    requires ValidTrades(ts) && Covered(ts) && ts != []
    ensures After(None, ts).Some?
    ensures var h := After(None, ts).value;
            && h.quantity == Inventory(ts)
            && Product(h.quantity, h.avgCost) == InventoryCost(ts)
            && h.realizedPnl == SalesProfit(ts)
  {
    hide Applied, Product, SoldCost;
    var before, t := ts[..|ts| - 1], ts[|ts| - 1];
    assert ValidTrade(t);
    if before == [] {
      if t.isBuy {
        BuyForLong(None, t);
      } else {
        SellNeedsStock(ts);
        assert false;
      }
    } else {
      LongFollowsInventory(before);
      var h := After(None, before).value;
      if t.isBuy {
        BuyForLong(Some(h), t);
      } else {
        SellNeedsStock(ts);
        SellFromLong(h, t);
        ShareOfCost(h.quantity, h.avgCost, t.qty, InventoryCost(before));
        ProductOfDifference(h.avgCost, h.quantity, t.qty);
        CostLeft(h.quantity, t.qty, h.avgCost);
      }
    }
  }

  /** What is left of a cost when x of q units are taken out at their average. */
  lemma CostLeft(q: real, x: real, a: real)
    ensures Product(q - x, if q - x == 0.0 then 0.0 else a) == Product(q, a) - Product(x, a)
  {
    ProductOfDifference(a, q, x);
  }
}
