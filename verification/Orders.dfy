/**
 The order management state machine.

 Quantities are integer counts of 10^-6 units, as stored; the average price is an
 integer count of 10^-6 currency units and is rounded at every fill. A rejected
 request leaves the order as it was.
 */
module Orders {
  import opened Arithmetic
  import opened Wrappers

  datatype Side = Buy | Sell | SellShort | BuyMinus

  datatype OrderType = Market | Limit | Stop | StopLimit | MarketOnClose | LimitOnClose | Pegged | Twap | Vwap

  datatype Status =
    | PendingNew | New | PartiallyFilled | Filled | DoneForDay | Cancelled
    | PendingCancel | Stopped | Rejected | Suspended | PendingReplace | Expired

  datatype Error =
    | OrderNotFound | InstrumentNotFound | InstrumentNotActive | PortfolioNotActive | LimitNeedsPrice | StopNeedsStopPrice
    | NotCancellable | NotOpen | QuantityNotAboveFilled | CannotReceiveFills | ExceedsRemaining | ConstraintViolated

  datatype Instrument = Instrument(active: bool, lotSize: int)

  datatype Request = Request(
    instrument: string, portfolio: Option<string>, side: Side, orderType: OrderType,
    orderQty: int, price: Option<int>, stopPrice: Option<int>)

  datatype Order = Order(
    instrument: string, portfolio: Option<string>, side: Side, orderType: OrderType,
    orderQty: int, cumQty: int, leavesQty: int, avgPx: Option<int>,
    price: Option<int>, stopPrice: Option<int>, status: Status)

  datatype Fill = Fill(qty: int, px: real)

  /** JavaScript truth of an optional number: present and not zero. */
  predicate Truthy(x: Option<int>) {
    x.Some? && x.value != 0
  }

  /** The pre-trade checks; `held` is the quantity of the portfolio's position, 0 if it has none. */
  predicate PassesCompliance(req: Request, lotSize: int, held: real) {
    && lotSize != 0 && req.orderQty % lotSize == 0
    && !(req.side.SellShort? && req.portfolio.Some? && held < req.orderQty as real)
    && !(Truthy(req.price) && req.price.value <= 0)
    && !(Truthy(req.stopPrice) && req.stopPrice.value <= 0)
  }

  function Place(req: Request, instrument: Option<Instrument>, portfolioActive: bool, held: real): Result<Order, Error> {
    if instrument.None? then Err(InstrumentNotFound)
    else if !instrument.value.active then Err(InstrumentNotActive)
    else if req.portfolio.Some? && !portfolioActive then Err(PortfolioNotActive)
    else if req.orderType.Limit? && !Truthy(req.price) then Err(LimitNeedsPrice)
    else if (req.orderType.Stop? || req.orderType.StopLimit?) && !Truthy(req.stopPrice) then Err(StopNeedsStopPrice)
    else if req.orderQty <= 0 then Err(ConstraintViolated)
    else
      Ok(Order(req.instrument, req.portfolio, req.side, req.orderType,
               req.orderQty, 0, req.orderQty, None, req.price, req.stopPrice,
               if PassesCompliance(req, instrument.value.lotSize, held) then New else Rejected))
  }

  function Cancel(o: Order): Result<Order, Error> {
    if o.status.New? || o.status.PartiallyFilled? || o.status.PendingNew? then
      Ok(o.(status := Cancelled, leavesQty := 0))
    else
      Err(NotCancellable)
  }

  function Modify(o: Order, orderQty: Option<int>, price: Option<int>, stopPrice: Option<int>): Result<Order, Error> {
    if !o.status.New? && !o.status.PartiallyFilled? then Err(NotOpen)
    else if orderQty.Some? && orderQty.value <= o.cumQty then Err(QuantityNotAboveFilled)
    else
      var resized := if orderQty.Some? then
                       o.(orderQty := orderQty.value, leavesQty := orderQty.value - o.cumQty)
                     else o;
      Ok(resized.(price := if price.Some? then price else o.price,
                  stopPrice := if stopPrice.Some? then stopPrice else o.stopPrice))
  }

  /** Volume-weighted price of the fills so far and one more, before rounding. */
  function NextAverage(o: Order, f: Fill): real
    requires o.cumQty + f.qty != 0
  {
    if o.cumQty == 0 then f.px
    else
      var previous := if o.avgPx.Some? then o.avgPx.value else 0;
      (previous as real * o.cumQty as real + f.px * f.qty as real) / (o.cumQty + f.qty) as real
  }

  function ApplyFill(o: Order, f: Fill): Order
    requires o.cumQty + f.qty != 0
  {
    var cumQty := o.cumQty + f.qty;
    var leaves := o.orderQty - cumQty;
    o.(cumQty := cumQty,
       leavesQty := if leaves > 0 then leaves else 0,
       avgPx := Some(Round(NextAverage(o, f))),
       status := if leaves <= 0 then Filled else PartiallyFilled)
  }

  /** The checks of `recordFill`, and the database's checks on a positive quantity and price. */
  function CheckFill(o: Order, f: Fill): Option<Error> {
    if o.status.Cancelled? || o.status.Rejected? || o.status.Filled? then Some(CannotReceiveFills)
    else if f.qty > o.leavesQty then Some(ExceedsRemaining)
    else if f.qty <= 0 || f.px <= 0.0 then Some(ConstraintViolated)
    else None
  }

  // ----- Runs -----

  datatype Event =
    | FillEvent(fill: Fill)
    | CancelEvent
    | ModifyEvent(orderQty: Option<int>, price: Option<int>, stopPrice: Option<int>)

  /** An order together with the fills it accepted. */
  datatype State = State(order: Order, fills: seq<Fill>)

  /** Every order that has come out of `Place` and the steps that follow. */
  ghost predicate Invariant(s: State) {
    && FillsPositive(s.fills)
    && 0 <= s.order.cumQty == QtyOf(s.fills) <= s.order.orderQty
    && 0 < s.order.orderQty
    && StatusOk(s.order)
    && (s.fills == [] <==> s.order.avgPx.None?)
    && AverageOk(s)
  }

  ghost predicate StatusOk(o: Order) {
    match o.status
    case New => o.cumQty == 0 && o.leavesQty == o.orderQty
    case PartiallyFilled => 0 < o.cumQty < o.orderQty && o.leavesQty == o.orderQty - o.cumQty
    case Filled => o.cumQty == o.orderQty && o.leavesQty == 0
    case Cancelled => o.cumQty < o.orderQty && o.leavesQty == 0
    case Rejected => o.cumQty == 0 && o.leavesQty == o.orderQty
    case _ => false
  }

  ghost predicate FillsPositive(fills: seq<Fill>) {
    forall i :: 0 <= i < |fills| ==> fills[i].qty > 0 && fills[i].px > 0.0
  }

  function QtyOf(fills: seq<Fill>): int {
    if fills == [] then 0 else QtyOf(fills[..|fills| - 1]) + fills[|fills| - 1].qty
  }

  /** Sum of price times quantity. */
  function NotionalOf(fills: seq<Fill>): real {
    if fills == [] then 0.0
    else NotionalOf(fills[..|fills| - 1]) + Product(fills[|fills| - 1].px, fills[|fills| - 1].qty as real)
  }

  /** The stored average is off the exact notional by at most half a unit of price per fill. */
  ghost predicate AverageOk(s: State) {
    s.order.avgPx.Some? ==>
      var error := Product(s.order.avgPx.value as real, s.order.cumQty as real) - NotionalOf(s.fills);
      var bound := Product(|s.fills| as real, s.order.cumQty as real);
      -bound <= 2.0 * error <= bound
  }

  function Step(s: State, e: Event): State {
    match e
    case FillEvent(f) =>
      if CheckFill(s.order, f).Some? || s.order.cumQty + f.qty == 0 then s
      else State(ApplyFill(s.order, f), s.fills + [f])
    case CancelEvent =>
      var r := Cancel(s.order);
      if r.Ok? then s.(order := r.value) else s
    case ModifyEvent(q, p, sp) =>
      var r := Modify(s.order, q, p, sp);
      if r.Ok? then s.(order := r.value) else s
  }

  function Run(s: State, events: seq<Event>): State {
    if events == [] then s else Step(Run(s, events[..|events| - 1]), events[|events| - 1])
  }

  lemma PlacedOrderOk(req: Request, instrument: Option<Instrument>, portfolioActive: bool, held: real)
    requires Place(req, instrument, portfolioActive, held).Ok?
    ensures Invariant(State(Place(req, instrument, portfolioActive, held).value, []))
    ensures Place(req, instrument, portfolioActive, held).value.status.Rejected?
            <==> !PassesCompliance(req, instrument.value.lotSize, held)
  {
  }

  // ----- The average price -----

  lemma QtyPositive(fills: seq<Fill>)
    requires FillsPositive(fills)
    ensures QtyOf(fills) >= 0 && (fills != [] ==> QtyOf(fills) > 0)
  {
    if fills != [] {
      QtyPositive(fills[..|fills| - 1]);
    }
  }

  lemma AppendFill(fills: seq<Fill>, f: Fill)
    ensures QtyOf(fills + [f]) == QtyOf(fills) + f.qty
    ensures NotionalOf(fills + [f]) == NotionalOf(fills) + Product(f.px, f.qty as real)
  {
    assert (fills + [f])[..|fills|] == fills;
  }

  /** Rounding x adds half a unit of price to an error already carried. */
  lemma AverageAlgebra(x: real, a: int, c: real, c': real, n': real, k: real, carried: real)
    requires 0.0 <= c <= c' && k >= 0.0 && a == Round(x)
    requires Product(x, c') - n' == carried
    requires -Product(k, c) <= 2.0 * carried <= Product(k, c)
    ensures var error := Product(a as real, c') - n';
            -Product(k + 1.0, c') <= 2.0 * error <= Product(k + 1.0, c')
  {
    var d := a as real - x;
    assert -1.0 <= 2.0 * d <= 1.0;
    ProductDistributes(d, x, c');
    ProductDistributes(k, 1.0, c');
    ProductMonotone(c, c', k);
    ProductUnitBound(d, c');
    hide Product;
  }

  lemma ProductMonotone(x: real, y: real, k: real)
    requires x <= y && k >= 0.0
    ensures Product(k, x) <= Product(k, y)
  {
    ProductNonNegative(k, y - x);
    ProductDistributes(y - x, x, k);
    assert y - x + x == y;
    hide Product;
  }

  lemma ProductUnitBound(d: real, c: real)
    requires -1.0 <= 2.0 * d <= 1.0 && c >= 0.0
    ensures -Product(1.0, c) <= 2.0 * Product(d, c) <= Product(1.0, c)
  {
    ProductNonNegative(0.5 - d, c);
    ProductNonNegative(0.5 + d, c);
    ProductOfOne(c);
    assert Product(0.5 - d, c) == 0.5 * c - Product(d, c);
    assert Product(0.5 + d, c) == 0.5 * c + Product(d, c);
  }

  /** The carried error is the error before the fill, whatever the fill. */
  lemma CarriedError(o: Order, f: Fill, n: real)
    requires o.cumQty >= 0 && f.qty > 0
    requires o.cumQty == 0 ==> n == 0.0
    requires o.cumQty > 0 ==> o.avgPx.Some?
    ensures Product(NextAverage(o, f), (o.cumQty + f.qty) as real) - (n + Product(f.px, f.qty as real))
         == if o.cumQty == 0 then 0.0 else Product(o.avgPx.value as real, o.cumQty as real) - n
  {
    if o.cumQty > 0 {
      QuotientTimes(o.avgPx.value as real * o.cumQty as real + f.px * f.qty as real, (o.cumQty + f.qty) as real);
    }
  }

  lemma FillKeepsAverage(s: State, f: Fill)
    requires Invariant(s) && CheckFill(s.order, f).None?
    ensures AverageOk(State(ApplyFill(s.order, f), s.fills + [f]))
  {
    var o, n, k := s.order, NotionalOf(s.fills), |s.fills| as real;
    AppendFill(s.fills, f);
    QtyPositive(s.fills);
    CarriedError(o, f, n);
    var x, c, c' := NextAverage(o, f), o.cumQty as real, (o.cumQty + f.qty) as real;
    var carried := if o.cumQty == 0 then 0.0 else Product(o.avgPx.value as real, c) - n;
    hide Product, NextAverage, Round, NotionalOf, QtyOf;
    ProductOfZero(k);
    AverageAlgebra(x, Round(x), c, c', n + Product(f.px, f.qty as real), k, carried);
  }

  // ----- Every run -----

  lemma StepKeepsInvariant(s: State, e: Event)
    requires Invariant(s)
    ensures Invariant(Step(s, e))
  {
    if e.FillEvent? && CheckFill(s.order, e.fill).None? {
      hide AverageOk;
      AppendFill(s.fills, e.fill);
      FillKeepsAverage(s, e.fill);
    }
  }

  lemma AcceptedFillSteps(s: State, f: Fill)
    requires Invariant(s) && CheckFill(s.order, f).None?
    ensures s.order.cumQty + f.qty > 0
    ensures Step(s, FillEvent(f)) == State(ApplyFill(s.order, f), s.fills + [f])
  {
    hide AverageOk, QtyOf, ApplyFill;
  }

  lemma {:induction false} RunKeepsInvariant(s: State, events: seq<Event>)
    requires Invariant(s)
    ensures Invariant(Run(s, events))
  {
    if events == [] {
    } else {
      RunKeepsInvariant(s, events[..|events| - 1]);
      StepKeepsInvariant(Run(s, events[..|events| - 1]), events[|events| - 1]);
    }
  }

  predicate IsOpen(o: Order) {
    o.status.New? || o.status.PartiallyFilled?
  }

  ghost predicate IsTerminal(o: Order) {
    o.status.Filled? || o.status.Cancelled? || o.status.Rejected?
  }

  /** Quantity-weighted price of the fills. */
  function Vwap(fills: seq<Fill>): real
    requires QtyOf(fills) > 0
  {
    NotionalOf(fills) / QtyOf(fills) as real
  }

  /**
   In every run of fills, cancels and modifications of a placed order: the filled
   quantity is the sum of its fills and never exceeds the ordered one; an open order
   has exactly the rest left, and some of it; an order is FILLED exactly when it was
   accepted and everything is filled; an order that is over has nothing left exactly
   when it was not rejected; and after k fills the stored average is within k half
   units of the exact volume-weighted price.
   */
  lemma RunOfPlacedOrder(
    req: Request, instrument: Option<Instrument>, portfolioActive: bool, held: real, events: seq<Event>)
    requires Place(req, instrument, portfolioActive, held).Ok?
    ensures var placed := Place(req, instrument, portfolioActive, held).value;
            var s := Run(State(placed, []), events);
            var o := s.order;
            && o.cumQty == QtyOf(s.fills) <= o.orderQty
            && (IsOpen(o) ==> o.leavesQty == o.orderQty - o.cumQty > 0)
            && (o.status.Filled? <==> !o.status.Rejected? && o.cumQty == o.orderQty)
            && (o.status.Rejected? <==> placed.status.Rejected?)
            && (IsOpen(o) || IsTerminal(o))
            && (IsTerminal(o) ==> (o.leavesQty == 0 <==> !o.status.Rejected?))
            && (s.fills != [] ==>
                  && o.avgPx.Some? && QtyOf(s.fills) > 0
                  && Abs(o.avgPx.value as real - Vwap(s.fills)) <= |s.fills| as real / 2.0)
  {
    var placed := Place(req, instrument, portfolioActive, held).value;
    PlacedOrderOk(req, instrument, portfolioActive, held);
    RunKeepsInvariant(State(placed, []), events);
    RejectedFixed(State(placed, []), events);
    var s := Run(State(placed, []), events);
    hide Run;
    QtyPositive(s.fills);
    if s.fills != [] {
      hide Product;
      ErrorPerUnit(s.order.avgPx.value as real, s.order.cumQty as real, NotionalOf(s.fills), |s.fills| as real);
    }
  }

  /** An order of 15 in lots of 10 is rejected, and keeps an open quantity of 15. */
  lemma RejectedKeepsQuantity()
    ensures var placed := Place(Request("bond", None, Buy, Market, 15, None, None), Some(Instrument(true, 10)), true, 0.0);
            placed.Ok? && placed.value.status.Rejected? && placed.value.leavesQty == 15
  {
    assert 15 % 10 == 5;
  }

  lemma ErrorPerUnit(a: real, c: real, n: real, k: real)
    requires c > 0.0
    requires -Product(k, c) <= 2.0 * (Product(a, c) - n) <= Product(k, c)
    ensures Abs(a - n / c) <= k / 2.0
  {
    var v := n / c;
    QuotientTimes(n, c);
    ProductDistributes(a - v, v, c);
    assert a - v + v == a;
    var d := 2.0 * (a - v);
    assert Product(d, c) == 2.0 * Product(a - v, c);
    hide Product;
    CancelFactor(d, k, c);
    CancelFactor(-d, k, c);
    ProductNegates(d, c);
  }

  lemma CancelFactor(x: real, y: real, c: real)
    requires c > 0.0
    ensures Product(x, c) <= Product(y, c) ==> x <= y
  {
    if x > y {
      ProductPositive(x - y, c);
      ProductDistributes(x - y, y, c);
      assert x - y + y == x;
    }
  }

  lemma {:induction false} RejectedFixed(s: State, events: seq<Event>)
    ensures Run(s, events).order.status.Rejected? <==> s.order.status.Rejected?
  {
    if events == [] {
    } else {
      RejectedFixed(s, events[..|events| - 1]);
    }
  }

  /** FILLED, CANCELLED and REJECTED are absorbing: no run changes anything about such an order. */
  lemma {:induction false} TerminalIsAbsorbing(s: State, events: seq<Event>)
    requires IsTerminal(s.order)
    ensures Run(s, events) == s
  {
    if events == [] {
    } else {
      TerminalIsAbsorbing(s, events[..|events| - 1]);
    }
  }

  /** What was ever filled stays filled: fills are only appended. */
  lemma {:induction false} FillsOnlyGrow(s: State, events: seq<Event>)
    ensures s.fills <= Run(s, events).fills
  {
    if events == [] {
    } else {
      FillsOnlyGrow(s, events[..|events| - 1]);
    }
  }

  // ----- What an order takes, and what it is afterwards -----

  /** In any reachable state a fill is taken exactly while the order is open and has that much left to fill. */
  lemma FillTaken(s: State, f: Fill)
    requires Invariant(s)
    ensures CheckFill(s.order, f).None?
            <==> IsOpen(s.order) && 0 < f.qty <= s.order.orderQty - QtyOf(s.fills) && f.px > 0.0
  {
    hide AverageOk, QtyOf;
  }

  /** Only an open order is cancelled; nothing but its status and open quantity changes. */
  lemma CancelTaken(s: State)
    requires Invariant(s)
    ensures IsOpen(s.order) ==> Cancel(s.order) == Ok(s.order.(status := Cancelled, leavesQty := 0))
    ensures !IsOpen(s.order) ==> Cancel(s.order) == Err(NotCancellable)
  {
    hide AverageOk, QtyOf;
  }

  /** A modification is taken while the order is open, unless its quantity is not above what is filled. */
  predicate Modifies(s: State, e: Event) {
    && e.ModifyEvent? && IsOpen(s.order)
    && (e.orderQty.Some? ==> e.orderQty.value > QtyOf(s.fills))
  }

  datatype Term = Quantity | LimitPrice | StopPrice

  function Given(e: Event, term: Term): Option<int>
    requires e.ModifyEvent?
  {
    match term
    case Quantity => e.orderQty
    case LimitPrice => e.price
    case StopPrice => e.stopPrice
  }

  function TermOf(o: Order, term: Term): Option<int> {
    match term
    case Quantity => Some(o.orderQty)
    case LimitPrice => o.price
    case StopPrice => o.stopPrice
  }

  /** The term as the latest modification that was taken and gave it, or as placed. */
  function LastGiven(s: State, events: seq<Event>, term: Term): Option<int> {
    if events == [] then TermOf(s.order, term)
    else
      var before, e := events[..|events| - 1], events[|events| - 1];
      if Modifies(Run(s, before), e) && Given(e, term).Some? then Given(e, term)
      else LastGiven(s, before, term)
  }

  lemma StepTerms(s: State, e: Event, term: Term)
    requires Invariant(s)
    ensures TermOf(Step(s, e).order, term)
         == if Modifies(s, e) && Given(e, term).Some? then Given(e, term) else TermOf(s.order, term)
    ensures Step(s, e).order.instrument == s.order.instrument && Step(s, e).order.portfolio == s.order.portfolio
    ensures Step(s, e).order.side == s.order.side && Step(s, e).order.orderType == s.order.orderType
  {
    hide AverageOk, QtyOf, NextAverage, Round;
  }

  /**
   In every run the ordered quantity, the limit price and the stop price are those
   of the latest modification that was taken and gave them, and nothing changes the
   instrument, the portfolio, the side or the type.
   */
  lemma {:induction false} TermsOfRun(s: State, events: seq<Event>, term: Term)
    requires Invariant(s)
    ensures var o := Run(s, events).order;
            && TermOf(o, term) == LastGiven(s, events, term)
            && o.instrument == s.order.instrument && o.portfolio == s.order.portfolio
            && o.side == s.order.side && o.orderType == s.order.orderType
  {
    if events == [] {
    } else {
      var before := events[..|events| - 1];
      TermsOfRun(s, before, term);
      RunKeepsInvariant(s, before);
      StepTerms(Run(s, before), events[|events| - 1], term);
      hide Invariant, Step, TermOf, Given, Modifies;
    }
  }
}
