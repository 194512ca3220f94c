/**
 Orders, executions and positions together. A recorded fill inserts its execution,
 updates its order and applies it to the position book in one step.
 */
module TradingDesk {
  import opened Arithmetic
  import opened Orders
  import opened Wrappers
  import P = Positions
  import S = Settlement

  datatype ExecType =
    | ExecNew | PartialFill | FullFill | ExecCancelled | Replace | ExecPendingCancel
    | ExecStopped | ExecRejected | ExecExpired | TradeExec | TradeCorrect | TradeCancel

  datatype Execution = Execution(
    orderId: nat, instrument: string, portfolio: Option<string>, execType: ExecType, side: Side,
    fill: Fill, commission: real, grossAmount: real, netAmount: real,
    tradeDate: S.Date, settlementType: S.SettlementType, settlementDate: S.Date)

  datatype RecordFill = RecordFill(
    orderId: nat, execType: Option<ExecType>, fill: Fill, commission: Option<real>,
    settlementType: Option<S.SettlementType>)

  datatype TradingPnl = TradingPnl(realizedPnl: real, tradeCount: nat, buyVolume: real, sellVolume: real)

  /** The fills of one order, in the order in which they were recorded. */
  function FillsOf(es: seq<Execution>, orderId: nat): seq<Fill> {
    if es == [] then [] else
    var e := es[|es| - 1];
    FillsOf(es[..|es| - 1], orderId) + if e.orderId == orderId then [e.fill] else []
  }

  function TradeOf(e: Execution): P.Trade
    requires e.portfolio.Some?
  {
    P.Trade(P.Key(e.portfolio.value, e.instrument), e.side.Buy?, e.fill.qty as real, e.fill.px)
  }

  /** Quantity of a position before its first trade is zero. */
  function QuantityOf(h: Option<P.Holding>): real {
    if h.Some? then h.value.quantity else 0.0
  }

  /** An execution raises its position exactly when its side is BUY; every other side lowers it. */
  lemma OnlyBuyRaises(h: Option<P.Holding>, e: Execution)
    requires e.portfolio.Some? && P.ValidTrade(TradeOf(e))
    ensures P.Applied(h, TradeOf(e)).quantity > QuantityOf(h) <==> e.side.Buy?
    ensures P.Applied(h, TradeOf(e)).quantity < QuantityOf(h) <==> !e.side.Buy?
  {
    P.AppliedQuantity(h, TradeOf(e));
    hide P.Applied;
  }

  /** A BUY_MINUS execution of 10 opens a position of minus 10. */
  lemma BuyMinusSells(e: Execution)
    requires e.portfolio == Some("desk") && e.side == BuyMinus && e.fill == Fill(10, 2.0)
    ensures P.Applied(None, TradeOf(e)).quantity == -10.0
  {
  }

  /** The trades that reach the position book: those of executions with a portfolio. */
  function TradesOf(es: seq<Execution>): seq<P.Trade> {
    if es == [] then [] else
    var e := es[|es| - 1];
    TradesOf(es[..|es| - 1]) + if e.portfolio.Some? then [TradeOf(e)] else []
  }

  predicate Counted(e: Execution, portfolio: string, date: Option<S.Date>) {
    && e.portfolio == Some(portfolio)
    && (e.execType.TradeExec? || e.execType.FullFill? || e.execType.PartialFill?)
    && (date.Some? ==> e.tradeDate == date.value)
  }

  /** Gross amount of the counted executions on one side. */
  function Volume(es: seq<Execution>, portfolio: string, date: Option<S.Date>, buys: bool): real {
    if es == [] then 0.0 else
    var e := es[|es| - 1];
    Volume(es[..|es| - 1], portfolio, date, buys)
    + if Counted(e, portfolio, date) && e.side.Buy? == buys then e.grossAmount else 0.0
  }

  function CountedNumber(es: seq<Execution>, portfolio: string, date: Option<S.Date>): nat {
    if es == [] then 0 else
    CountedNumber(es[..|es| - 1], portfolio, date) + if Counted(es[|es| - 1], portfolio, date) then 1 else 0
  }

  lemma FillsOfAppend(es: seq<Execution>, e: Execution, orderId: nat)
    ensures FillsOf(es + [e], orderId) == FillsOf(es, orderId) + if e.orderId == orderId then [e.fill] else []
  {
    assert (es + [e])[..|es|] == es;
  }

  lemma TradesOfAppend(es: seq<Execution>, e: Execution)
    ensures TradesOf(es + [e]) == if e.portfolio.Some? then TradesOf(es) + [TradeOf(e)] else TradesOf(es)
  {
    assert (es + [e])[..|es|] == es;
  }

  /** Cash that changes hands: commission adds to a buy and comes off any other side. */
  function Net(side: Side, gross: real, commission: real): real {
    if side.Buy? then gross + commission else gross - commission
  }

  /** The execution inserted for a fill of order o. */
  function Executed(dto: RecordFill, o: Order, today: S.Date, settlementDate: S.Date): Execution {
    var gross := Product(dto.fill.qty as real, dto.fill.px);
    var commission := dto.commission.GetOr(0.0);
    Execution(dto.orderId, o.instrument, o.portfolio, dto.execType.GetOr(TradeExec), o.side, dto.fill,
              commission, gross, Net(o.side, gross, commission),
              today, dto.settlementType.GetOr(S.Regular), settlementDate)
  }

  /** The position rows after an execution: unchanged when it has no portfolio. */
  ghost function BookedRows(rows: seq<P.Position>, e: Execution): seq<P.Position> {
    if e.portfolio.Some? && P.ValidTrade(TradeOf(e)) then P.SavedRows(rows, TradeOf(e)) else rows
  }

  /** Every order satisfies its invariant with its own executions. */
  ghost predicate OrdersOk(orders: seq<Order>, es: seq<Execution>) {
    && (forall i: nat :: i < |orders| ==> Invariant(State(orders[i], FillsOf(es, i))))
    && (forall i: nat :: i >= |orders| ==> FillsOf(es, i) == [])
  }

  /** The order an execution belongs to has its instrument, portfolio and side. */
  predicate Belongs(e: Execution, o: Order) {
    e.instrument == o.instrument && e.portfolio == o.portfolio && e.side == o.side
  }

  /** Commission adds to what a buy costs and comes off what any other side brings. */
  predicate NetOk(e: Execution) {
    && e.grossAmount == Product(e.fill.qty as real, e.fill.px)
    && e.netAmount == if e.side.Buy? then e.grossAmount + e.commission else e.grossAmount - e.commission
  }

  /** Amounts and settlement date follow from the fill, the commission and the settlement type. */
  ghost predicate AmountsOk(e: Execution) {
    && NetOk(e)
    && S.Settles(e.tradeDate, S.BusinessDays(e.settlementType), e.settlementDate)
  }

  ghost predicate ExecutionsOk(orders: seq<Order>, es: seq<Execution>) {
    forall i :: 0 <= i < |es| ==> es[i].orderId < |orders| && Belongs(es[i], orders[es[i].orderId]) && AmountsOk(es[i])
  }

  /** Every column of the execution inserted for a fill. */
  ghost predicate Columns(e: Execution, dto: RecordFill, o: Order, today: S.Date) {
    && e.orderId == dto.orderId && e.fill == dto.fill
    && Belongs(e, o) && AmountsOk(e)
    && e.execType == (if dto.execType.Some? then dto.execType.value else TradeExec)
    && e.commission == (if dto.commission.Some? then dto.commission.value else 0.0)
    && e.settlementType == (if dto.settlementType.Some? then dto.settlementType.value else S.Regular)
    && e.tradeDate == today
  }

  lemma ExecutedColumns(dto: RecordFill, o: Order, today: S.Date, settlementDate: S.Date)
    requires S.Settles(today, S.BusinessDays(dto.settlementType.GetOr(S.Regular)), settlementDate)
    ensures Columns(Executed(dto, o, today, settlementDate), dto, o, today)
  {
    hide S.Settles, Product;
  }

  /** An update that keeps instrument, portfolio and side keeps the executions in order. */
  lemma UpdateKeepsExecutions(orders: seq<Order>, es: seq<Execution>, id: nat, o: Order)
    requires id < |orders|
    requires o.instrument == orders[id].instrument && o.portfolio == orders[id].portfolio && o.side == orders[id].side
    ensures ExecutionsOk(orders, es) ==> ExecutionsOk(orders[id := o], es)
  {
    hide AmountsOk;
  }

  lemma StepKeepsOrders(orders: seq<Order>, es: seq<Execution>, id: nat, event: Event)
    requires OrdersOk(orders, es) && id < |orders| && !event.FillEvent?
    ensures OrdersOk(orders[id := Step(State(orders[id], FillsOf(es, id)), event).order], es)
  {
    StepKeepsInvariant(State(orders[id], FillsOf(es, id)), event);
    hide Invariant, FillsOf;
  }

  lemma InsertKeepsOrders(orders: seq<Order>, es: seq<Execution>, e: Execution, o: Order)
    requires OrdersOk(orders, es) && e.orderId < |orders|
    ensures Invariant(State(o, FillsOf(es, e.orderId) + [e.fill])) ==> OrdersOk(orders[e.orderId := o], es + [e])
  {
    hide Invariant, FillsOf;
    forall i: nat
      ensures FillsOf(es + [e], i) == if e.orderId == i then FillsOf(es, i) + [e.fill] else FillsOf(es, i)
    {
      FillsOfAppend(es, e, i);
    }
  }

  lemma RecordKeepsOrders(orders: seq<Order>, es: seq<Execution>, e: Execution)
    requires OrdersOk(orders, es) && e.orderId < |orders| && CheckFill(orders[e.orderId], e.fill).None?
    ensures orders[e.orderId].cumQty + e.fill.qty > 0
    ensures OrdersOk(orders[e.orderId := ApplyFill(orders[e.orderId], e.fill)], es + [e])
  {
    hide Invariant, FillsOf, ApplyFill, CheckFill, Step;
    var s := State(orders[e.orderId], FillsOf(es, e.orderId));
    AcceptedFillSteps(s, e.fill);
    StepKeepsInvariant(s, FillEvent(e.fill));
    var o := ApplyFill(s.order, e.fill);
    hide OrdersOk;
    InsertKeepsOrders(orders, es, e, o);
  }

  lemma RecordKeepsExecutions(orders: seq<Order>, es: seq<Execution>, e: Execution)
    requires e.orderId < |orders| && CheckFill(orders[e.orderId], e.fill).None?
    requires orders[e.orderId].cumQty + e.fill.qty != 0
    requires Belongs(e, orders[e.orderId]) && AmountsOk(e)
    ensures ExecutionsOk(orders, es) ==> ExecutionsOk(orders[e.orderId := ApplyFill(orders[e.orderId], e.fill)], es + [e])
  {
    hide AmountsOk, CheckFill, NextAverage, Round;
  }

  /** An accepted or rejected order joins the table without executions. */
  lemma PlaceKeeps(orders: seq<Order>, es: seq<Execution>, o: Order)
    requires Invariant(State(o, []))
    ensures OrdersOk(orders, es) ==> OrdersOk(orders + [o], es)
    ensures ExecutionsOk(orders, es) ==> ExecutionsOk(orders + [o], es)
  {
    hide Invariant, AmountsOk, FillsOf;
  }

  /** Which fills are refused, in terms of the executions so far. */
  lemma RefusedExactly(orders: seq<Order>, es: seq<Execution>, id: nat, f: Fill)
    requires OrdersOk(orders, es) && id < |orders|
    ensures var o := orders[id];
            CheckFill(o, f) == if !o.status.New? && !o.status.PartiallyFilled? then Some(CannotReceiveFills)
                               else if f.qty > o.orderQty - QtyOf(FillsOf(es, id)) then Some(ExceedsRemaining)
                               else if f.qty <= 0 || f.px <= 0.0 then Some(ConstraintViolated)
                               else None
  {
    hide AverageOk, QtyOf, FillsOf;
  }

  /** What a modification does, in terms of the executions so far. */
  lemma ModifiesExactly(
    orders: seq<Order>, es: seq<Execution>, id: nat, orderQty: Option<int>, price: Option<int>, stopPrice: Option<int>)
    requires OrdersOk(orders, es) && id < |orders|
    ensures Modify(orders[id], orderQty, price, stopPrice)
         == Replaced(orders[id], QtyOf(FillsOf(es, id)), orderQty, price, stopPrice)
  {
    hide AverageOk, QtyOf, FillsOf;
  }

  /** An open order of which `filled` is executed, with the terms that are given. */
  function Replaced(
    o: Order, filled: int, orderQty: Option<int>, price: Option<int>, stopPrice: Option<int>): Result<Order, Error>
  {
    var q := orderQty.GetOr(o.orderQty);
    if !o.status.New? && !o.status.PartiallyFilled? then Err(NotOpen)
    else if orderQty.Some? && q <= filled then Err(QuantityNotAboveFilled)
    else Ok(o.(orderQty := q, leavesQty := q - filled,
               price := if price.Some? then price else o.price,
               stopPrice := if stopPrice.Some? then stopPrice else o.stopPrice))
  }

  // ----- Positions against orders -----

  /** What a filled quantity of an order does to the position of a key. */
  function Moves(o: Order, key: P.Key, qty: int): int {
    if o.portfolio != Some(key.portfolio) || o.instrument != key.instrument then 0
    else if o.side.Buy? then qty else -qty
  }

  /** Filled quantity of the orders in a key: bought less everything else. */
  function FilledIn(orders: seq<Order>, key: P.Key): int {
    if orders == [] then 0 else
    var o := orders[|orders| - 1];
    FilledIn(orders[..|orders| - 1], key) + Moves(o, key, o.cumQty)
  }

  /** The same from the executions of the first n orders. */
  function FilledBy(orders: seq<Order>, es: seq<Execution>, n: nat, key: P.Key): int
    requires n <= |orders|
  {
    if n == 0 then 0
    else FilledBy(orders, es, n - 1, key) + Moves(orders[n - 1], key, QtyOf(FillsOf(es, n - 1)))
  }

  lemma {:induction false} FilledByExecutions(orders: seq<Order>, es: seq<Execution>, n: nat, key: P.Key)
    requires n <= |orders| && OrdersOk(orders, es)
    ensures FilledBy(orders, es, n, key) == FilledIn(orders[..n], key)
  {
    if n == 0 {
    } else {
      FilledByExecutions(orders, es, n - 1, key);
      assert orders[..n][..n - 1] == orders[..n - 1];
      assert orders[n - 1].cumQty == QtyOf(FillsOf(es, n - 1)) by { hide AverageOk, QtyOf, FillsOf; }
      hide Moves, OrdersOk;
    }
  }

  lemma QtyOfAppend(es: seq<Execution>, e: Execution, id: nat)
    ensures QtyOf(FillsOf(es + [e], id)) == QtyOf(FillsOf(es, id)) + if e.orderId == id then e.fill.qty else 0
  {
    FillsOfAppend(es, e, id);
    AppendFill(FillsOf(es, id), e.fill);
    hide FillsOf, QtyOf;
    assert FillsOf(es, id) + [] == FillsOf(es, id);
  }

  lemma MovesAdd(o: Order, key: P.Key, x: int, y: int)
    ensures Moves(o, key, x + y) == Moves(o, key, x) + Moves(o, key, y)
  {
  }

  lemma FilledByLast(orders: seq<Order>, es: seq<Execution>, n: nat, key: P.Key)
    requires 0 < n <= |orders|
    ensures FilledBy(orders, es, n, key)
         == FilledBy(orders, es, n - 1, key) + Moves(orders[n - 1], key, QtyOf(FillsOf(es, n - 1)))
  {
    hide FillsOf, QtyOf, Moves;
  }

  /** One more execution counts once, at its own order. */
  lemma {:induction false} FilledByAppend(orders: seq<Order>, es: seq<Execution>, e: Execution, n: nat, key: P.Key)
    requires n <= |orders| && e.orderId < |orders|
    ensures FilledBy(orders, es + [e], n, key)
         == FilledBy(orders, es, n, key) + if e.orderId < n then Moves(orders[e.orderId], key, e.fill.qty) else 0
  {
    hide FillsOf, QtyOf, Moves;
    if n == 0 {
    } else {
      hide FilledBy;
      FilledByAppend(orders, es, e, n - 1, key);
      FilledByLast(orders, es, n, key);
      FilledByLast(orders, es + [e], n, key);
      QtyOfAppend(es, e, n - 1);
      MovesAdd(orders[n - 1], key, QtyOf(FillsOf(es, n - 1)), e.fill.qty);
    }
  }

  lemma {:induction false} FilledByNothing(orders: seq<Order>, n: nat, key: P.Key)
    requires n <= |orders|
    ensures FilledBy(orders, [], n, key) == 0
  {
    if n == 0 {
    } else {
      FilledByNothing(orders, n - 1, key);
      assert FillsOf([], n - 1) == [] && QtyOf([]) == 0;
    }
  }

  /** What the trades of a key add up to is what its orders have filled. */
  lemma {:induction false} TradedIsFilled(orders: seq<Order>, es: seq<Execution>, n: nat, key: P.Key)
    requires ExecutionsOk(orders, es) && n == |orders|
    ensures P.NetQuantity(TradesOf(es), key) == FilledBy(orders, es, n, key) as real
  {
    if es == [] {
      FilledByNothing(orders, n, key);
    } else {
      var before, e := es[..|es| - 1], es[|es| - 1];
      assert es == before + [e];
      assert ExecutionsOk(orders, before) && Belongs(e, orders[e.orderId]) && e.orderId < n by { hide AmountsOk; }
      TradedIsFilled(orders, before, n, key);
      FilledByAppend(orders, before, e, n, key);
      TradesOfAppend(before, e);
      hide FilledBy, TradesOf, ExecutionsOk;
      if e.portfolio.Some? {
        var t := TradeOf(e);
        assert (TradesOf(before) + [t])[..|TradesOf(before)|] == TradesOf(before);
      }
    }
  }

  class Desk {
    var orders: seq<Order>
    var executions: seq<Execution>
    const book: P.PositionBook

    /** Every order satisfies its invariant with its own executions, and the book has applied them all. */
    ghost predicate Valid()
      reads this, book
    {
      && book.Valid()
      && book.trades == TradesOf(executions)
      && OrdersOk(orders, executions)
      && ExecutionsOk(orders, executions)
    }

    constructor ()
      ensures Valid() && fresh(book) && orders == [] && executions == []
    {
      orders, executions := [], [];
      book := new P.PositionBook();
    }

    method PlaceOrder(req: Request, instrument: Option<Instrument>, portfolioActive: bool)
      returns (r: Result<nat, Error>)
      requires Valid()
      modifies this`orders
      ensures Valid()
      ensures r.Ok? <==>
              && instrument.Some? && instrument.value.active
              && (req.portfolio.Some? ==> portfolioActive)
              && (req.orderType.Limit? ==> req.price.Some? && req.price.value != 0)
              && (req.orderType.Stop? || req.orderType.StopLimit? ==> req.stopPrice.Some? && req.stopPrice.value != 0)
              && req.orderQty > 0
      ensures r.Err? ==> orders == old(orders)
      ensures r.Err? ==>
                && (r.error.InstrumentNotFound? <==> instrument.None?)
                && (r.error.InstrumentNotActive? <==> instrument.Some? && !instrument.value.active)
                && (instrument.Some? && instrument.value.active ==>
                      (r.error.PortfolioNotActive? <==> req.portfolio.Some? && !portfolioActive))
                && (r.error.LimitNeedsPrice? ==> req.orderType.Limit?)
                && (r.error.StopNeedsStopPrice? ==> req.orderType.Stop? || req.orderType.StopLimit?)
                && (r.error.ConstraintViolated? ==> req.orderQty <= 0)
      ensures r.Ok? ==>
                && r.value == |old(orders)| && |orders| == |old(orders)| + 1 && orders[..|old(orders)|] == old(orders)
                && var o := orders[r.value];
                   && o.instrument == req.instrument && o.portfolio == req.portfolio
                   && o.side == req.side && o.orderType == req.orderType
                   && o.orderQty == req.orderQty == o.leavesQty && o.cumQty == 0 && o.avgPx == None
                   && o.price == req.price && o.stopPrice == req.stopPrice
                   && (o.status.New? || o.status.Rejected?)
                   && (o.status.New? <==>
                         && instrument.value.lotSize != 0 && req.orderQty % instrument.value.lotSize == 0
                         && (req.side.SellShort? && req.portfolio.Some? ==>
                               FilledIn(old(orders), P.Key(req.portfolio.value, req.instrument)) >= req.orderQty)
                         && (req.price.Some? ==> req.price.value >= 0)
                         && (req.stopPrice.Some? ==> req.stopPrice.value >= 0))
    {
      var held := if req.portfolio.Some? then Held(P.Key(req.portfolio.value, req.instrument)) else 0.0;
      if req.portfolio.Some? {
        HeldIsFilled(P.Key(req.portfolio.value, req.instrument));
      }
      var placed := Place(req, instrument, portfolioActive, held);
      hide FilledIn, FillsOf, ExecutionsOk, Held, AverageOk;
      match placed
      case Err(e) =>
        r := Err(e);
      case Ok(o) =>
        PlacedOrderOk(req, instrument, portfolioActive, held);
        PlaceKeeps(orders, executions, o);
        hide Invariant;
        r := Ok(|orders|);
        orders := orders + [o];
    }

    /**
     In every reachable state a position holds what the orders of its portfolio and
     instrument have filled: bought less everything else.
     */
    lemma HeldIsFilled(key: P.Key)
      requires Valid()
      ensures Held(key) == FilledIn(orders, key) as real
    {
      P.PositionOfRun(book.trades, key);
      TradedIsFilled(orders, executions, |orders|, key);
      FilledByExecutions(orders, executions, |orders|, key);
      assert orders[..|orders|] == orders;
      hide Invariant, FilledBy, FilledIn, P.NetQuantity, P.Gaps, P.NetCash, TradesOf;
    }

    /** Quantity of a position, 0 when there is none. */
    function Held(key: P.Key): real
      reads this, book
    {
      var h := P.Lookup(P.HoldingsOf(book.rows), key);
      if h.Some? then h.value.quantity else 0.0
    }

    method CancelOrder(id: nat) returns (r: Result<(), Error>)
      requires Valid()
      modifies this`orders
      ensures Valid()
      ensures if id >= |old(orders)| then r == Err(OrderNotFound) && orders == old(orders)
              else
                var o := old(orders)[id];
                if o.status.New? || o.status.PartiallyFilled?
                then r == Ok(()) && orders == old(orders)[id := o.(status := Cancelled, leavesQty := 0)]
                else r == Err(NotCancellable) && orders == old(orders)
    {
      if id >= |orders| {
        return Err(OrderNotFound);
      }
      var c := Cancel(orders[id]);
      if c.Err? {
        return Err(c.error);
      }
      StepKeepsOrders(orders, executions, id, CancelEvent);
      UpdateKeepsExecutions(orders, executions, id, c.value);
      orders := orders[id := c.value];
      r := Ok(());
    }

    method ModifyOrder(
      id: nat, orderQty: Option<int>, price: Option<int>, stopPrice: Option<int>) returns (r: Result<(), Error>)
      requires Valid()
      modifies this`orders
      ensures Valid()
      ensures if id >= |old(orders)| then r == Err(OrderNotFound) && orders == old(orders)
              else
                var m := Replaced(old(orders)[id], QtyOf(FillsOf(executions, id)), orderQty, price, stopPrice);
                if m.Ok? then r == Ok(()) && orders == old(orders)[id := m.value]
                else r == Err(m.error) && orders == old(orders)
    {
      if id >= |orders| {
        return Err(OrderNotFound);
      }
      var m := Modify(orders[id], orderQty, price, stopPrice);
      ModifiesExactly(orders, executions, id, orderQty, price, stopPrice);
      if m.Err? {
        return Err(m.error);
      }
      StepKeepsOrders(orders, executions, id, ModifyEvent(orderQty, price, stopPrice));
      UpdateKeepsExecutions(orders, executions, id, m.value);
      hide Replaced, OrdersOk, ExecutionsOk, QtyOf, FillsOf, TradesOf;
      orders := orders[id := m.value];
      r := Ok(());
    }

    method Record(dto: RecordFill, today: S.Date) returns (r: Result<Execution, Error>)
      requires Valid()
      modifies this`orders, this`executions, book
      ensures Valid()
      ensures dto.orderId >= |old(orders)| ==> r == Err(OrderNotFound)
      ensures dto.orderId < |old(orders)| ==>
                var o := old(orders)[dto.orderId];
                if !o.status.New? && !o.status.PartiallyFilled? then r == Err(CannotReceiveFills)
                else if dto.fill.qty > o.orderQty - QtyOf(FillsOf(old(executions), dto.orderId)) then r == Err(ExceedsRemaining)
                else if dto.fill.qty <= 0 || dto.fill.px <= 0.0 then r == Err(ConstraintViolated)
                else r.Ok?
      ensures r.Err? ==> orders == old(orders) && executions == old(executions) && book.rows == old(book.rows)
      ensures r.Ok? ==> dto.orderId < |old(orders)|
      ensures r.Ok? ==>
                var e := r.value;
                && executions == old(executions) + [e] && Columns(e, dto, old(orders)[dto.orderId], today)
                && book.rows == BookedRows(old(book.rows), e)
      ensures r.Ok? ==>
                var o := old(orders)[dto.orderId];
                && CheckFill(o, dto.fill).None? && o.cumQty + dto.fill.qty > 0
                && orders == old(orders)[dto.orderId := ApplyFill(o, dto.fill)]
    {
      if dto.orderId >= |orders| {
        return Err(OrderNotFound);
      }
      var o := orders[dto.orderId];
      var refusal := CheckFill(o, dto.fill);
      RefusedExactly(orders, executions, dto.orderId, dto.fill);
      if refusal.Some? {
        return Err(refusal.value);
      }
      var settlementDate := S.SettlementDate(today, S.BusinessDays(dto.settlementType.GetOr(S.Regular)));
      var e := Executed(dto, o, today, settlementDate);
      ExecutedColumns(dto, o, today, settlementDate);
      RecordKeepsOrders(orders, executions, e);
      TradesOfAppend(executions, e);
      RecordKeepsExecutions(orders, executions, e);
      hide Executed, AmountsOk, BookedRows, Columns, ApplyFill, OrdersOk, TradesOf, ExecutionsOk, CheckFill, QtyOf, FillsOf, Product, S.Settles, P.Applied, P.SavedRows, P.Replay, P.HoldingsOf, P.IndexOf;

      executions := executions + [e];
      orders := orders[dto.orderId := ApplyFill(o, dto.fill)];
      if o.portfolio.Some? {
        book.ApplyExecution(TradeOf(e));
      }
      r := Ok(e);
    }

    method GetTradingPnl(portfolio: string, date: Option<S.Date>) returns (pnl: TradingPnl)
      ensures pnl.buyVolume == Volume(executions, portfolio, date, true)
      ensures pnl.sellVolume == Volume(executions, portfolio, date, false)
      ensures pnl.realizedPnl == pnl.sellVolume - pnl.buyVolume
      ensures pnl.tradeCount == CountedNumber(executions, portfolio, date)
    {
      var buyVolume, sellVolume, count := 0.0, 0.0, 0;
      for i := 0 to |executions|
        invariant buyVolume == Volume(executions[..i], portfolio, date, true)
        invariant sellVolume == Volume(executions[..i], portfolio, date, false)
        invariant count == CountedNumber(executions[..i], portfolio, date)
      {
        assert executions[..i + 1][..i] == executions[..i];
        var e := executions[i];
        if Counted(e, portfolio, date) {
          count := count + 1;
          if e.side.Buy? {
            buyVolume := buyVolume + e.grossAmount;
          } else {
            sellVolume := sellVolume + e.grossAmount;
          }
        }
      }
      assert executions[..|executions|] == executions;
      return TradingPnl(sellVolume - buyVolume, count, buyVolume, sellVolume);
    }
  }

  // ----- Trading profit against realised profit -----

  function RealizedSum(hs: seq<P.Held>, portfolio: string): real {
    if hs == [] then 0.0 else
    var h := hs[|hs| - 1];
    RealizedSum(hs[..|hs| - 1], portfolio) + if h.key.portfolio == portfolio then h.holding.realizedPnl else 0.0
  }

  ghost predicate Flat(hs: seq<P.Held>, portfolio: string) {
    forall i :: 0 <= i < |hs| && hs[i].key.portfolio == portfolio ==> hs[i].holding.quantity == 0.0
  }

  lemma {:induction false} FlatBooksRealized(hs: seq<P.Held>, portfolio: string)
    requires Flat(hs, portfolio)
    ensures P.BookedSum(hs, portfolio) == RealizedSum(hs, portfolio)
  {
    if hs == [] {
    } else {
      FlatBooksRealized(hs[..|hs| - 1], portfolio);
      P.ProductOfDifference(hs[|hs| - 1].holding.avgCost, 0.0, 0.0);
    }
  }

  /** Quantity times price of the trades of a portfolio. */
  function Turnover(ts: seq<P.Trade>, portfolio: string): real {
    if ts == [] then 0.0 else
    var t := ts[|ts| - 1];
    Turnover(ts[..|ts| - 1], portfolio) + if t.key.portfolio == portfolio then Product(t.qty, t.price) else 0.0
  }

  lemma TurnoverAppend(ts: seq<P.Trade>, t: P.Trade, portfolio: string)
    ensures Turnover(ts + [t], portfolio)
         == Turnover(ts, portfolio) + if t.key.portfolio == portfolio then Product(t.qty, t.price) else 0.0
  {
    assert (ts + [t])[..|ts|] == ts;
  }

  /** When all executions are counted, the volumes differ by the cash of the trades and add up to their turnover. */
  lemma {:induction false} VolumeIsCash(es: seq<Execution>, portfolio: string)
    requires forall e :: e in es ==> AmountsOk(e)
    requires forall e :: e in es && e.portfolio == Some(portfolio) ==> Counted(e, portfolio, None)
    ensures Volume(es, portfolio, None, false) - Volume(es, portfolio, None, true)
         == P.PortfolioCash(TradesOf(es), portfolio)
    ensures Volume(es, portfolio, None, false) + Volume(es, portfolio, None, true) == Turnover(TradesOf(es), portfolio)
  {
    if es == [] {
    } else {
      var before, e := es[..|es| - 1], es[|es| - 1];
      VolumeIsCash(before, portfolio);
      VolumeOfLast(es, portfolio);
      assert es == before + [e] && e in es;
      TradesOfAppend(before, e);
      if e.portfolio.Some? {
        P.PortfolioCashAppend(TradesOf(before), TradeOf(e), portfolio);
        TurnoverAppend(TradesOf(before), TradeOf(e), portfolio);
      }
      assert e.grossAmount == Product(e.fill.qty as real, e.fill.px);
      hide AmountsOk, Volume, TradesOf, Product, Turnover, P.PortfolioCash;
    }
  }

  /** What an execution adds to sell volume less buy volume. */
  function NetVolume(e: Execution, portfolio: string): real {
    if !Counted(e, portfolio, None) then 0.0 else if e.side.Buy? then -e.grossAmount else e.grossAmount
  }

  lemma VolumeOfLast(es: seq<Execution>, portfolio: string)
    requires es != []
    ensures Volume(es, portfolio, None, false) - Volume(es, portfolio, None, true)
         == Volume(es[..|es| - 1], portfolio, None, false) - Volume(es[..|es| - 1], portfolio, None, true)
            + NetVolume(es[|es| - 1], portfolio)
    ensures Volume(es, portfolio, None, false) + Volume(es, portfolio, None, true)
         == Volume(es[..|es| - 1], portfolio, None, false) + Volume(es[..|es| - 1], portfolio, None, true)
            + if Counted(es[|es| - 1], portfolio, None) then es[|es| - 1].grossAmount else 0.0
  {
  }

  /**
   In any reachable state in which every position of the portfolio is flat and all
   its executions are of a counted type, the trading profit is the sum of realised
   profit plus the oversell gaps; without an oversell it is exactly that sum.
   */
  lemma TradingPnlIsRealized(desk: Desk, portfolio: string)
    requires desk.Valid()
    requires Flat(P.HoldingsOf(desk.book.rows), portfolio)
    requires forall e :: e in desk.executions && e.portfolio == Some(portfolio) ==> Counted(e, portfolio, None)
    ensures P.ValidTrades(desk.book.trades)
    ensures Volume(desk.executions, portfolio, None, false) - Volume(desk.executions, portfolio, None, true)
         == RealizedSum(P.HoldingsOf(desk.book.rows), portfolio) + P.PortfolioGaps(desk.book.trades, portfolio)
  {
    AllAmountsOk(desk.orders, desk.executions);
    VolumeIsCash(desk.executions, portfolio);
    P.PortfolioOfRun(desk.book.trades, portfolio);
    FlatBooksRealized(P.HoldingsOf(desk.book.rows), portfolio);
    hide RealizedSum, Volume;
  }

  lemma AllAmountsOk(orders: seq<Order>, es: seq<Execution>)
    requires ExecutionsOk(orders, es)
    ensures forall e :: e in es ==> AmountsOk(e)
  {
    hide AmountsOk;
  }

  // ----- One day, and commissions -----

  lemma CountedLast(es: seq<Execution>, portfolio: string, date: Option<S.Date>)
    requires es != []
    ensures CountedNumber(es, portfolio, date)
         == CountedNumber(es[..|es| - 1], portfolio, date) + if Counted(es[|es| - 1], portfolio, date) then 1 else 0
  {
  }

  ghost function CountedIn(es: seq<Execution>, portfolio: string, date: Option<S.Date>): set<nat> {
    set i: nat | i < |es| && Counted(es[i], portfolio, date)
  }

  lemma CountedInLast(es: seq<Execution>, portfolio: string, date: Option<S.Date>)
    requires es != []
    ensures var last, before := |es| - 1, CountedIn(es[..|es| - 1], portfolio, date);
            && last !in before
            && CountedIn(es, portfolio, date) == if Counted(es[last], portfolio, date) then before + {last} else before
  {
    hide Counted;
  }

  lemma {:induction false} NumberIsSize(es: seq<Execution>, portfolio: string, date: Option<S.Date>)
    ensures CountedNumber(es, portfolio, date) == |CountedIn(es, portfolio, date)|
  {
    if es == [] {
    } else {
      NumberIsSize(es[..|es| - 1], portfolio, date);
      CountedLast(es, portfolio, date);
      CountedInLast(es, portfolio, date);
      hide Counted, CountedNumber, CountedIn;
    }
  }

  /** The counted executions are the trades and fills of the portfolio, on the day if one is given. */
  lemma CountedAre(es: seq<Execution>, portfolio: string, date: Option<S.Date>)
    ensures CountedNumber(es, portfolio, date)
         == |set i: nat | i < |es| && es[i].portfolio == Some(portfolio)
                       && es[i].execType in {TradeExec, FullFill, PartialFill}
                       && (date == None || date == Some(es[i].tradeDate))|
  {
    NumberIsSize(es, portfolio, date);
    hide CountedNumber;
    var explicit := set i: nat | i < |es| && es[i].portfolio == Some(portfolio)
                                 && es[i].execType in {TradeExec, FullFill, PartialFill}
                                 && (date == None || date == Some(es[i].tradeDate));
    assert CountedIn(es, portfolio, date) == explicit;
  }

  /** Volume day by day over n days. */
  function VolumeOfDays(es: seq<Execution>, portfolio: string, from: S.Date, n: nat, buys: bool): real {
    if n == 0 then 0.0
    else VolumeOfDays(es, portfolio, from, n - 1, buys) + Volume(es, portfolio, Some(from + n - 1), buys)
  }

  lemma {:induction false} DaysOfNothing(portfolio: string, from: S.Date, n: nat, buys: bool)
    ensures VolumeOfDays([], portfolio, from, n, buys) == 0.0
  {
    if n == 0 {
    } else {
      DaysOfNothing(portfolio, from, n - 1, buys);
    }
  }

  lemma {:induction false} DaysAppend(
    es: seq<Execution>, e: Execution, portfolio: string, from: S.Date, n: nat, buys: bool)
    ensures VolumeOfDays(es + [e], portfolio, from, n, buys)
         == VolumeOfDays(es, portfolio, from, n, buys)
            + if from <= e.tradeDate < from + n && Counted(e, portfolio, None) && e.side.Buy? == buys
              then e.grossAmount else 0.0
  {
    if n == 0 {
    } else {
      DaysAppend(es, e, portfolio, from, n - 1, buys);
      assert (es + [e])[..|es|] == es;
    }
  }

  /** The volumes of single days add up to the volume of all days, whatever period holds the trade dates. */
  lemma {:induction false} DaysAddUp(es: seq<Execution>, portfolio: string, from: S.Date, n: nat, buys: bool)
    requires forall e :: e in es ==> from <= e.tradeDate < from + n
    ensures VolumeOfDays(es, portfolio, from, n, buys) == Volume(es, portfolio, None, buys)
  {
    if es == [] {
      DaysOfNothing(portfolio, from, n, buys);
    } else {
      var before, e := es[..|es| - 1], es[|es| - 1];
      assert es == before + [e] && e in es;
      DaysAddUp(before, portfolio, from, n, buys);
      DaysAppend(before, e, portfolio, from, n, buys);
      hide VolumeOfDays, Counted;
    }
  }

  /** Net amounts received less net amounts paid by a portfolio. */
  function NetProceeds(es: seq<Execution>, portfolio: string): real {
    if es == [] then 0.0 else
    var e := es[|es| - 1];
    NetProceeds(es[..|es| - 1], portfolio)
    + if e.portfolio != Some(portfolio) then 0.0 else if e.side.Buy? then -e.netAmount else e.netAmount
  }

  function Commissions(es: seq<Execution>, portfolio: string): real {
    if es == [] then 0.0 else
    var e := es[|es| - 1];
    Commissions(es[..|es| - 1], portfolio) + if e.portfolio == Some(portfolio) then e.commission else 0.0
  }

  /** Commission is paid on every side: net proceeds are the cash of the trades less all commissions. */
  lemma {:induction false} CommissionIsPaid(es: seq<Execution>, portfolio: string)
    requires forall e :: e in es ==> AmountsOk(e)
    ensures NetProceeds(es, portfolio) == P.PortfolioCash(TradesOf(es), portfolio) - Commissions(es, portfolio)
  {
    if es == [] {
    } else {
      var before, e := es[..|es| - 1], es[|es| - 1];
      CommissionIsPaid(before, portfolio);
      assert es == before + [e] && e in es;
      assert NetOk(e) by { hide S.Settles, Product; }
      CashOfExecution(before, e, portfolio);
      hide TradesOf, Product, P.PortfolioCash, AmountsOk;
    }
  }

  lemma CashOfExecution(es: seq<Execution>, e: Execution, portfolio: string)
    requires NetOk(e)
    ensures P.PortfolioCash(TradesOf(es + [e]), portfolio)
         == P.PortfolioCash(TradesOf(es), portfolio)
            + if e.portfolio != Some(portfolio) then 0.0
              else e.commission + if e.side.Buy? then -e.netAmount else e.netAmount
  {
    TradesOfAppend(es, e);
    if e.portfolio.Some? {
      P.PortfolioCashAppend(TradesOf(es), TradeOf(e), portfolio);
    }
    hide TradesOf, Product, P.PortfolioCash;
  }

  /**
   In any reachable state in which every position of the portfolio is flat, its net
   proceeds are the realised profit plus the oversell gaps less all commissions.
   */
  lemma ProfitAfterCommission(desk: Desk, portfolio: string)
    requires desk.Valid()
    requires Flat(P.HoldingsOf(desk.book.rows), portfolio)
    ensures P.ValidTrades(desk.book.trades)
    ensures NetProceeds(desk.executions, portfolio)
         == RealizedSum(P.HoldingsOf(desk.book.rows), portfolio) + P.PortfolioGaps(desk.book.trades, portfolio)
            - Commissions(desk.executions, portfolio)
  {
    AllAmountsOk(desk.orders, desk.executions);
    CommissionIsPaid(desk.executions, portfolio);
    P.PortfolioOfRun(desk.book.trades, portfolio);
    FlatBooksRealized(P.HoldingsOf(desk.book.rows), portfolio);
    hide RealizedSum, NetProceeds, Commissions;
  }

  /** In any reachable state the filled quantity of an order is the sum of its executions. */
  lemma FilledIsExecuted(desk: Desk, id: nat)
    requires desk.Valid() && id < |desk.orders|
    ensures desk.orders[id].cumQty == QtyOf(FillsOf(desk.executions, id)) <= desk.orders[id].orderQty
  {
  }
}
