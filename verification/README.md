# Verified model of the trading and banking platform

This project models the stateful and numeric core of the platform and proves what its
services promise, for all inputs and all runs. `dafny verify dfyconfig.toml` checks it.

| module | what it models |
|---|---|
| `BinomialTree` | Cox-Ross-Rubinstein option pricing: backward induction in one array, early exercise premium |
| `Cholesky`, `Matrices`, `Samples` | the Cholesky factorisation in place; mean, variance, covariance and correlation |
| `YieldCurve`, `GappedCurve` | bootstrapping a zero curve from par swap rates, interpolation, par rates; a curve with a missing maturity |
| `Amortization` | loan quotes and payment schedules, rounded to six decimals at every step |
| `Orders`, `Positions`, `AverageCost`, `TradingDesk`, `Settlement` | the order life cycle, executions, positions with average cost and realised profit, settlement dates |
| `Ledger`, `Statements` | double-entry journals, reversals, idempotency keys, the balance and hold triggers, monthly statements |
| `CircuitBreaker` | the breaker around provider calls, with overlapping calls |
| `Vrp`, `Calendar` | variable recurring payments under daily, weekly and monthly limits; the Gregorian calendar |
| `Webhooks` | subscriptions, the delivery queue, retries and dead letters |
| `Arithmetic`, `Money`, `Wrappers` | rounding and powers, currency codes, option and result types |

## How the model is built

- Services that update rows, fields or arrays are methods, most of them on classes. Each is
  tied to a function of its inputs and the old state, and the properties are proved about
  that function and about every run of its steps.
- Binary floating point, and the 20-digit limit of the decimal library, are abstracted to
  exact arithmetic. Where rounding to six decimals is the point (loans, average prices),
  amounts are integer counts of millionths and the rounding is written out, half away from zero.
- `exp`, `ln` and `sqrt` are parameters: any functions with exp positive, exp(ln y) = y for
  positive y (and ln(exp x) = x where logarithms of factors are compared), and a non-negative root whose square is its argument. In the tree, u, the step
  discount factor and the step growth are any positive numbers.
- Clock readings, generated identifiers, the outcome of a provider call or HTTP post and the
  result of a payment bridge call are parameters. A database transaction is one step.
- Serial runs are sequences of requests from an empty state; the circuit breaker takes every
  interleaving of call starts and call ends.

## Where the code differs from its own description

- The balance trigger runs before each insert and sums the table without the new row, so a
  balance lags by its newest entry; the entity's comment says it fires after the insert, and
  an integration test expects the new amount (`Ledger.BalanceLags`, `Ledger.FirstCreditNotVisible`).
  A balance is right exactly when the account has no entries (`Ledger.BalanceExactly`).
  Statements inherit the lag (`Statements.StatementReconciles`).
- A sell of more than an existing position keeps the old average cost, which breaks the profit
  identity by a stated amount unless the price is that cost (`Positions.ProfitIdentityExactly`,
  `Positions.OversellBreaksIdentity`). Any side other than BUY is treated as a sell, BUY_MINUS
  included (`TradingDesk.OnlyBuyRaises`, `TradingDesk.BuyMinusSells`).
- The circuit breaker's option comment counts failures within the window, but the record is
  pruned when a call starts and not when it fails (`CircuitBreaker.OpensExactly`,
  `CircuitBreaker.StaleFailureOpens`).
- The yield curve's comment announces log-linear interpolation of discount factors; the code
  interpolates zero rates linearly, which agrees only at the points and between equal rates
  (`YieldCurve.LogLinearExactly`, `YieldCurve.NotLogLinear`).
- A subscription's `retryCount` is described as cumulative failed attempts; it counts
  dead-lettered deliveries (`Webhooks.RetryCountMissesFailures`, `Webhooks.FailureNotCounted`).
  The 30-minute retry delay is never used, because the third failure goes to the dead letters
  (`Webhooks.DelaysUsed`).
- A limit's currency is never compared with a payment's currency (`Vrp.LimitIgnoresCurrency`,
  `Vrp.ForeignPaymentRefused`), and spending is summed by codes as written, although amounts
  normalise them: two spellings of one currency are limited apart (`Vrp.SpellingsExactly`,
  `Vrp.SpellingsBreakLimit`, `Vrp.OneSpellingWithinLimits`).
- The quoted total interest comes from the unrounded payment, so it is not the sum of the schedule
  (`Amortization.QuotedInterestExactly`, `Amortization.QuoteIsNotTheSchedule`), except that a
  loan at rate zero always agrees (`Amortization.FreeLoanIsQuotedExactly`).
- A spend limit can be broken when a new period starts between its check and the store and an
  earlier refund hid the size of the payment (`Vrp.NewPeriodExactly`, `Vrp.CrossingBreaksLimit`).
- An empty idempotency key is not looked up, and the unique index then refuses its second use
  (`Ledger.ReplayedExactly`, `Ledger.EmptyKeyNotReplayed`).
- An order rejected before trading keeps its open quantity (`Orders.RunOfPlacedOrder`,
  `Orders.RejectedKeepsQuantity`).
- Par rates are announced to be recovered from the curve; across a missing maturity they are
  only in the stated cases (`GappedCurve.GapReturnsExactly`, `GappedCurve.GapBreaksReturn`).

## Model

| member | source | states |
|---|---|---|
| `BinomialTree.Price` | apps/pricing-engine/src/modules/options/binomial-tree.service.ts:37-102 | the loop that overwrites one array returns, for a European option, df^n times the binomially weighted payoffs of spot * u^k * (1/u)^(n-k) against the strike, and for an American one the value of the root of the recursive tree; it fails exactly when the one-step growth is not between the two moves, and gives no number exactly when volatility is zero and growth is one; the American quote carries American minus European value, so flooring that premium at zero never changes it, and zero when waiting is free |
| `BinomialTree.UpIsProbability` | apps/pricing-engine/src/modules/options/binomial-tree.service.ts:51-59 | the range check on the up probability passes exactly when the one-step growth lies between the two moves |
| `BinomialTree.AmericanDominates` | apps/pricing-engine/src/modules/options/binomial-tree.service.ts:68-99 | at every node an American option is worth at least its European twin, and at least its intrinsic value |
| `BinomialTree.NoEarlyExercise` | apps/pricing-engine/src/modules/options/binomial-tree.service.ts:47-99 | when waiting is free (call without dividends and a rate of at least zero; put with carry and rate reversed) the American and European values agree at every node of a tree of any size |
| `BinomialTree.EuropeanBeatsIntrinsic` | apps/pricing-engine/src/modules/options/binomial-tree.service.ts:68-80 | when waiting is free a European option is worth at least its intrinsic value at every node |
| `BinomialTree.PutCallParity` | apps/pricing-engine/src/modules/options/binomial-tree.service.ts:47-80 | European call minus European put is the discounted forward at every node, for every probability |
| `BinomialTree.EuropeanIsBinomialAverage` | apps/pricing-engine/src/modules/options/binomial-tree.service.ts:61-82 | the European value is the discounted binomial average of the terminal payoffs below the node |
| `BinomialTree.EuropeanPrice` | apps/pricing-engine/src/modules/options/binomial-tree.service.ts:37-80 | the European price is the discounted binomial average of what the moved spot pays against the strike, in spot, strike, u, df, growth and the number of steps alone |
| `BinomialTree.PriceParity` | apps/pricing-engine/src/modules/options/binomial-tree.service.ts:47-80 | at the root, European call minus put is (df * growth)^n * spot - strike * df^n |
| `BinomialTree.AmericanCovers` | apps/pricing-engine/src/modules/options/binomial-tree.service.ts:68-80 | the American values are at least what exercise pays on the moved spot and at least their own discounted average, at every node |
| `BinomialTree.AmericanIsLeast` | apps/pricing-engine/src/modules/options/binomial-tree.service.ts:68-80 | and they are the least such values: no process that is at least both is lower at any node |
| `Cholesky.Factorise` | apps/risk-analytics/src/lib/statistics.ts:80-96 | the in-place fill returns a lower triangular factor with positive diagonal whose product with its transpose is the matrix (for any square input, the symmetric matrix with its lower triangle), or fails at row i exactly because the leading block of size i has a factor and the one of size i+1 has none; it succeeds if and only if that symmetric matrix is positive definite |
| `Cholesky.FillEntry` | apps/risk-analytics/src/lib/statistics.ts:84-93 | one entry is filled so that its equation holds and every earlier one still does; a pivot that is not positive shows that no factor exists |
| `Cholesky.FactorUnique` | apps/risk-analytics/src/lib/statistics.ts:79-96 | a matrix has at most one lower triangular factor with positive diagonal |
| `Cholesky.ProductRecoversFactor` | apps/risk-analytics/src/lib/statistics.ts:79-96 | for lower triangular M with positive diagonal, M is the one and only factor of M times its transpose |
| `Cholesky.FactoriseProduct` | apps/risk-analytics/src/lib/statistics.ts:79-96 | factorising M times its transpose never fails and returns exactly M, for every lower triangular M with positive diagonal |
| `Cholesky.PivotRefutes` | apps/risk-analytics/src/lib/statistics.ts:87-88 | a pivot that is not positive rules out every factor |
| `Cholesky.PivotNotDefinite` | apps/risk-analytics/src/lib/statistics.ts:87-88 | a pivot that is not positive gives a vector at which the quadratic form is not positive, so the error is raised for no positive definite matrix |
| `Cholesky.FactorIsDefinite` | apps/risk-analytics/src/lib/statistics.ts:79-96 | a matrix with a factor is positive definite: the form at any non-zero vector is positive |
| `Samples.CauchySchwarz` | apps/risk-analytics/src/lib/statistics.ts:69-77 | the squared cross sum never exceeds the product of the square sums |
| `Samples.CovarianceBound` | apps/risk-analytics/src/lib/statistics.ts:60-72 | covariance squared is at most the product of the variances, with equality exactly when one sample is affine in the other |
| `Samples.VarianceIsSelfCovariance` | apps/risk-analytics/src/lib/statistics.ts:60-72 | variance is the covariance of a sample with itself and is not negative |
| `Samples.CorrelationInRange` | apps/risk-analytics/src/lib/statistics.ts:74-77 | a correlation with non-zero deviations lies in [-1, 1] and is an end of the range exactly for affine samples |
| `Samples.PairsMeasureCovariance` | apps/risk-analytics/src/lib/statistics.ts:60-72 | the products of differences over all pairs of values add up to 2n(n-1) times the covariance, for one sample times the variance |
| `Samples.CorrelationSquared` | apps/risk-analytics/src/lib/statistics.ts:74-77 | the squared correlation times both variances is the squared covariance |
| `Samples.CorrelationSign` | apps/risk-analytics/src/lib/statistics.ts:74-77 | a correlation has the sign of the covariance |
| `Samples.CorrelationWithItself` | apps/risk-analytics/src/lib/statistics.ts:74-77 | a sample with a non-zero deviation has correlation 1 with itself |
| `Amortization.GenerateSchedule` | apps/banking-core/src/modules/loans/loans.service.ts:277-312 | the rows are a payment plan: interest is what is owed times the rate, rounded; every payment is principal plus interest, and before the last row it is the quoted payment; the last principal is what is owed; the balance shown is what was owed less the principal, never below zero |
| `Amortization.PlanIsUnique` | apps/banking-core/src/modules/loans/loans.service.ts:287-309 | a loan has one payment plan only |
| `Amortization.RowsNearFormula` | apps/banking-core/src/modules/loans/loans.service.ts:287-309 | while no row overpays, the balance shown in row k is within half of ((1+r)^k - 1)/r millionths of p(1+r)^k - m((1+r)^k - 1)/r |
| `Amortization.QuoteIsNearest` | apps/banking-core/src/modules/loans/loans.service.ts:250-274 | the quoted payment is the nearest millionth to the payment that exactly repays the loan, and the quoted interest to what that payment costs beyond the principal |
| `Arithmetic.RoundTies` | apps/banking-core/src/modules/loans/loans.service.ts:272-273 | a half is rounded away from zero, on both sides |
| `Amortization.ExactPaymentBalances` | apps/banking-core/src/modules/loans/loans.service.ts:255-266 | the unrounded payment, paid every month, accrues to exactly the grown principal, at zero and at positive rates |
| `Amortization.PrincipalIsConserved` | apps/banking-core/src/modules/loans/loans.service.ts:287-309 | the principal portions add up to the principal plus what was clipped at zero, hence to the principal exactly when nothing was clipped; the last balance is 0 |
| `Amortization.RoundingDrift` | apps/banking-core/src/modules/loans/loans.service.ts:287-296 | while nothing is clipped, each balance is within half an annuity of the unrounded recursion for the rounded payment |
| `Amortization.BalanceNearFormula` | apps/banking-core/src/modules/loans/loans.service.ts:287-296 | the same drift with everything written out: half of ((1+r)^k - 1)/r millionths after k months |
| `Amortization.FinalInstalment` | apps/banking-core/src/modules/loans/loans.service.ts:287-309 | the final instalment differs from the quoted payment by at most ((1+r)^n - 1)/r millionths |
| `Amortization.LargePaymentNeverClips` | apps/banking-core/src/modules/loans/loans.service.ts:295-296 | a quoted payment of at least ((1+r)^n - 1)/r millionths never clips, which makes the bounds unconditional for such loans |
| `Amortization.QuotedInterest` | apps/banking-core/src/modules/loans/loans.service.ts:268-274 | the interest a schedule charges stays within a stated bound of the total interest that was quoted from the unrounded payment |
| `Amortization.QuotedInterestExactly` | apps/banking-core/src/modules/loans/loans.service.ts:268-303 | for a schedule that never clips, the interest charged equals the quoted total if and only if the last payment is principal plus quoted interest less the other payments |
| `Amortization.FreeLoanIsQuotedExactly` | apps/banking-core/src/modules/loans/loans.service.ts:258-259 | at rate zero the schedule and the quote always agree: no interest |
| `Amortization.QuoteIsNotTheSchedule` | apps/banking-core/src/modules/loans/loans.service.ts:250-312 | a personal loan of 5000 over six months at 8.99% is quoted 131.919579 and charged 131.919578 |
| `Amortization.AnnuityClosedForm` | apps/banking-core/src/modules/loans/loans.service.ts:261-265 | the annuity recursion equals its closed form |
| `Orders.PlacedOrderOk` | apps/investment-banking/src/modules/orders/orders.service.ts:58-122 | every order that comes out of placement satisfies the invariant, rejected or not |
| `Orders.RejectedKeepsQuantity` | apps/investment-banking/src/modules/orders/orders.service.ts:85-108 | an order of 15 in lots of 10 is rejected and keeps an open quantity of 15 |
| `Orders.RunOfPlacedOrder` | apps/investment-banking/src/modules/orders/orders.service.ts:85-210 | in every run of fills, cancels and modifications: filled quantity is the sum of the fills and at most the order quantity; what is left is the difference and positive while open; FILLED exactly when an accepted order is fully filled; an order that is over has nothing left exactly when it was not rejected; after k fills the stored average is within k/2 millionths of the volume-weighted price |
| `Orders.StepKeepsInvariant` | apps/investment-banking/src/modules/orders/orders.service.ts:127-210 | every step keeps the order invariant |
| `Orders.FillKeepsAverage` | apps/investment-banking/src/modules/orders/orders.service.ts:192-207 | one more fill adds at most half a unit of rounding to the error of the average price |
| `Orders.TerminalIsAbsorbing` | apps/investment-banking/src/modules/orders/orders.service.ts:127-160 | FILLED, CANCELLED and REJECTED are absorbing: no run changes anything about such an order |
| `Orders.TermsOfRun` | apps/investment-banking/src/modules/orders/orders.service.ts:155-176 | in every run the ordered quantity, limit price and stop price are those of the latest modification that came while the order was open, with a quantity, if it gave one, above what was filled; instrument, portfolio, side and type never change |
| `Orders.FillTaken` | apps/investment-banking/src/modules/executions/executions.service.ts:44-57 | in any reachable state a fill is taken exactly while the order is open and has at least that quantity left, at a positive price |
| `Orders.CancelTaken` | apps/investment-banking/src/modules/orders/orders.service.ts:127-148 | only an open order is cancelled, which clears its open quantity and changes nothing else |
| `Orders.FillsOnlyGrow` | apps/investment-banking/src/modules/executions/executions.service.ts:71-96 | recorded fills are only appended |
| `Positions.TradeBooks` | apps/investment-banking/src/modules/positions/positions.service.ts:49-103 | one execution changes realised profit less signed cost by exactly its cash, less (qty - abs(quantity)) * (price - avgCost) for a sell beyond the size of an existing position |
| `Positions.PositionOfRun` | apps/investment-banking/src/modules/positions/positions.service.ts:49-111 | over every run of executions a position's quantity is the net signed quantity traded and realised profit less signed cost is net cash less the sum of those gaps |
| `Positions.TradeIsExact` | apps/investment-banking/src/modules/positions/positions.service.ts:84-103 | one execution books exactly its cash if and only if it is not a sell beyond the size of an existing position at a price other than its average cost |
| `Positions.ProfitIdentityExactly` | apps/investment-banking/src/modules/positions/positions.service.ts:49-111 | the identity holds after every execution of a run if and only if every oversell in it is at the average cost |
| `Positions.NoOversellNoGaps` | apps/investment-banking/src/modules/positions/positions.service.ts:97-103 | without an oversell the gaps are zero |
| `Positions.ProfitIdentity` | apps/investment-banking/src/modules/positions/positions.service.ts:49-111 | without an oversell the identity is exact, through short covers and flips from short to long |
| `Positions.OversellBreaksIdentity` | apps/investment-banking/src/modules/positions/positions.service.ts:97-103 | a concrete oversell for which the identity fails by 5 |
| `Positions.PortfolioOfRun` | apps/investment-banking/src/modules/positions/positions.service.ts:37-132 | the positions of a portfolio together book its cash, up to its gaps |
| `Positions.ReplayHasUniqueKeys` | apps/investment-banking/src/modules/positions/positions.service.ts:40-75 | there is one row per portfolio and instrument |
| `Positions.PositionBook.ApplyExecution` | apps/investment-banking/src/modules/positions/positions.service.ts:37-132 | the upsert keeps one row per key with the holding its trades lead to and columns that follow from it, marks the row at the price of the trade and leaves every other row as it was |
| `Positions.PositionBook.MarkToMarket` | apps/investment-banking/src/modules/positions/positions.service.ts:138-178 | exactly the rows of the portfolio whose instrument has a price are marked at it, others are untouched; holdings stay, every column follows from holding and mark; the count is their number and the total is the sum of quantity * (price - average cost) |
| `Positions.PositionBook.TotalProfit` | apps/investment-banking/src/modules/positions/positions.service.ts:105-111 | in every reachable state total profit is net cash plus quantity times the last mark, less the oversell gaps |
| `Positions.TotalOfRow` | apps/investment-banking/src/modules/positions/positions.service.ts:105-111 | total profit of a row is what is booked plus the signed value at its mark |
| `Positions.RowColumns` | apps/investment-banking/src/modules/positions/positions.service.ts:105-111 | unrealised profit of a row is its signed quantity times mark less average cost; cost basis and market value are abs(quantity) times cost and mark; total profit adds what is realised |
| `AverageCost.HoldingOfKey` | apps/investment-banking/src/modules/positions/positions.service.ts:37-75 | a position depends on the trades of its own portfolio and instrument only |
| `AverageCost.LongFollowsInventory` | apps/investment-banking/src/modules/positions/positions.service.ts:84-103 | a position that is never oversold follows the average cost method over any order of buys and sells: quantity, cost and realised profit are those of an inventory whose sells take out their share of the cost |
| `AverageCost.LongRoundTrip` | apps/investment-banking/src/modules/positions/positions.service.ts:84-103 | in any book, trades of a key that were flat, then buys, then sells of no more leave the rest at the average price of those buys, and the sells have realised their price less that average for each unit |
| `AverageCost.ShortRoundTrip` | apps/investment-banking/src/modules/positions/positions.service.ts:53-103 | a key opened by a sell and then bought back in part or in full holds the rest at the price of the sell, and the buys have realised that price less their own for each unit |
| `AverageCost.BuyForLong` | apps/investment-banking/src/modules/positions/positions.service.ts:84-90 | a buy for a position that is not short realises nothing and adds what was paid to the cost held |
| `AverageCost.SellFromLong` | apps/investment-banking/src/modules/positions/positions.service.ts:97-103 | a sell within a long position realises quantity times price less average cost and keeps the average until the position is flat |
| `AverageCost.SellKeepsAverage` | apps/investment-banking/src/modules/positions/positions.service.ts:97-103 | no sell of an existing position moves its average cost, except to zero when it becomes flat |
| `AverageCost.CoverShort` | apps/investment-banking/src/modules/positions/positions.service.ts:91-96 | a buy within a short position realises average cost less price for each unit and keeps the average |
| `AverageCost.FlipToLong` | apps/investment-banking/src/modules/positions/positions.service.ts:91-96 | a buy beyond a short position covers all of it and holds the rest at the price of the trade |
| `TradingDesk.Desk.Record` | apps/investment-banking/src/modules/executions/executions.service.ts:40-117 | a fill is refused for the stated reason and changes nothing, or inserts one execution with the order's instrument, portfolio and side, gross amount quantity * price, net amount plus commission on a buy and less commission otherwise, and the earliest settlement date with the required business days; the fill reaches its order and the trade its position |
| `TradingDesk.OnlyBuyRaises` | apps/investment-banking/src/modules/positions/positions.service.ts:49-99 | an execution raises its position if and only if its side is BUY, and lowers it otherwise |
| `TradingDesk.BuyMinusSells` | apps/investment-banking/src/modules/positions/positions.service.ts:49-58 | a BUY_MINUS execution of 10 opens a position of minus 10 |
| `TradingDesk.Desk.PlaceOrder` | apps/investment-banking/src/modules/orders/orders.service.ts:58-122 | a placed order is stored with the requested terms; it is NEW exactly when its quantity is a multiple of the lot size, a short sale for a portfolio is covered by what the earlier orders in that portfolio and instrument have bought less sold, and no price given is negative; otherwise it is REJECTED; an error stores nothing |
| `TradingDesk.Desk.CancelOrder` | apps/investment-banking/src/modules/orders/orders.service.ts:127-150 | cancelling an open order clears its open quantity and changes that order alone; any other is refused; every order stays consistent with its executions |
| `TradingDesk.Desk.ModifyOrder` | apps/investment-banking/src/modules/orders/orders.service.ts:155-176 | an open order takes the terms given, unless the quantity is not above what its executions have filled; what is left open is the new quantity less that; only that order changes and every order stays consistent with its executions |
| `TradingDesk.RecordKeepsOrders` | apps/investment-banking/src/modules/executions/executions.service.ts:71-96 | recording a fill keeps every order consistent with its own executions |
| `TradingDesk.FilledIsExecuted` | apps/investment-banking/src/modules/executions/executions.service.ts:71-96 | in any reachable state an order's filled quantity is the sum of its execution quantities and at most the order quantity |
| `TradingDesk.Desk.HeldIsFilled` | apps/investment-banking/src/modules/orders/orders.service.ts:273-278 | in every reachable state a position holds what the orders of its portfolio and instrument have filled, bought less everything else |
| `TradingDesk.Desk.GetTradingPnl` | apps/investment-banking/src/modules/executions/executions.service.ts:147-179 | the loop returns the buy and sell volumes of the counted executions, their difference and their number |
| `TradingDesk.VolumeIsCash` | apps/investment-banking/src/modules/executions/executions.service.ts:164-171 | sell volume less buy volume is the cash of the trades that reach the position book, and their sum is the turnover of those trades |
| `TradingDesk.CountedAre` | apps/investment-banking/src/modules/executions/executions.service.ts:153-162 | counted are exactly the executions of the portfolio of type TRADE, FILL or PARTIAL_FILL, on the given day if there is one |
| `TradingDesk.DaysAddUp` | apps/investment-banking/src/modules/executions/executions.service.ts:158-171 | the volumes of single days add up to the volume without a date, over any period that holds the trade dates |
| `TradingDesk.CommissionIsPaid` | apps/investment-banking/src/modules/executions/executions.service.ts:59-63 | net amounts received less net amounts paid are the cash of the trades less all commissions, on every side |
| `TradingDesk.TradingPnlIsRealized` | apps/investment-banking/src/modules/executions/executions.service.ts:147-179 | when every position of a portfolio is flat and all its executions are of a counted type, sell volume less buy volume equals the realised profit of its positions plus the oversell gaps, hence the realised profit alone when there are none |
| `TradingDesk.ProfitAfterCommission` | apps/investment-banking/src/modules/executions/executions.service.ts:59-117 | when every position of a portfolio is flat, its net proceeds are the realised profit plus the oversell gaps less all commissions |
| `Settlement.SettlementDate` | apps/investment-banking/src/modules/executions/executions.service.ts:181-198 | for every day count the loop ends, at the earliest date with exactly that many weekdays after the trade date |
| `Settlement.SettlesAtOffset` | apps/investment-banking/src/modules/executions/executions.service.ts:192-197 | that date is N + 2 * floor((w-1+N)/5) days after a weekday w; a Saturday or Sunday counts from the Friday before it, less 1 or 2 days |
| `Settlement.SettlesOnce` | apps/investment-banking/src/modules/executions/executions.service.ts:192-197 | the settlement date is unique |
| `Settlement.SettlesFromMonday` | apps/investment-banking/src/modules/executions/executions.service.ts:183-191 | a trade on a Monday settles on that day, Tuesday, Wednesday or Thursday for CASH, NEXT_DAY, REGULAR and SELLER_OPTION, and on the next Monday for T_PLUS_5 and FUTURE |
| `YieldCurve.GetZeroRate` | apps/pricing-engine/src/modules/yield-curve/yield-curve.service.ts:131-145 | the segment search and interpolation return the rate of the curve; an empty curve is the only error |
| `YieldCurve.ExactAtKnots` | apps/pricing-engine/src/modules/yield-curve/yield-curve.service.ts:131-145 | interpolation is exact at every point of a strictly increasing curve |
| `YieldCurve.FlatOutside` | apps/pricing-engine/src/modules/yield-curve/yield-curve.service.ts:131-145 | before the first point and after the last the rate is held flat |
| `YieldCurve.StraightBetween` | apps/pricing-engine/src/modules/yield-curve/yield-curve.service.ts:131-145 | between neighbouring points the rate is on the straight line through them |
| `YieldCurve.LogLinearExactly` | apps/pricing-engine/src/modules/yield-curve/yield-curve.service.ts:147-154 | on an increasing curve the discount factors are interpolated log-linearly, as announced, if and only if the tenor is one of the two neighbouring points or their rates are equal |
| `YieldCurve.NotLogLinear` | apps/pricing-engine/src/modules/yield-curve/yield-curve.service.ts:147-154 | between 1% at one year and 3% at two, the logarithm of the factor half-way is -0.03 where log-linear interpolation gives -0.035 |
| `YieldCurve.SortBySorts` | apps/pricing-engine/src/modules/yield-curve/yield-curve.service.ts:65-65 | sorting by tenor orders the inputs and loses none |
| `YieldCurve.BootstrapFromSwapRates` | apps/pricing-engine/src/modules/yield-curve/yield-curve.service.ts:59-105 | the loop builds exactly the points defined by solving the swaps one after the other, with the short first point when the curve starts late |
| `YieldCurve.ShortEnd` | apps/pricing-engine/src/modules/yield-curve/yield-curve.service.ts:92-105 | for any swaps: a point is added exactly when the earliest maturity is after 0.1 years, and at every tenor up to that maturity the rate is -ln(first solved factor) over it (at the maturity itself unless all of several swaps mature together) |
| `YieldCurve.EarliestIsFirst` | apps/pricing-engine/src/modules/yield-curve/yield-curve.service.ts:65-65 | the first swap solved is one of the earliest maturity |
| `YieldCurve.SwapIsWorthPar` | apps/pricing-engine/src/modules/yield-curve/yield-curve.service.ts:69-89 | for any swap on any curve so far: the coupons at 1, 2, ... n periods and at maturity, with the principal, are worth par at the interpolated factors and the solved one |
| `YieldCurve.FirstSwapFactor` | apps/pricing-engine/src/modules/yield-curve/yield-curve.service.ts:69-89 | the coupons of the first swap before its maturity are not discounted, whatever its tenor and frequency |
| `YieldCurve.OneCouponFactor` | apps/pricing-engine/src/modules/yield-curve/yield-curve.service.ts:88-89 | an earliest swap that pays once has the factor 1 / (1 + rate / frequency) |
| `YieldCurve.SolveFinalDf` | apps/pricing-engine/src/modules/yield-curve/yield-curve.service.ts:69-89 | the coupon loop solves for the final discount factor |
| `YieldCurve.CouponDates` | apps/pricing-engine/src/modules/yield-curve/yield-curve.service.ts:193-199 | the date loop ends and returns the dates dt, 2dt, ... up to the limit |
| `YieldCurve.GetParRate` | apps/pricing-engine/src/modules/yield-curve/yield-curve.service.ts:192-205 | the par rate is (1 - df) over the discounted coupons; no coupon dates gives an undefined quotient |
| `YieldCurve.ParRateIsPar` | apps/pricing-engine/src/modules/yield-curve/yield-curve.service.ts:192-205 | on any curve the par rate times the discounted coupon periods up to the tenor is 1 less the factor there; the quotient is undefined exactly when those add up to zero |
| `YieldCurve.CouponsOnGrid` | apps/pricing-engine/src/modules/yield-curve/yield-curve.service.ts:71-77 | between n and n+1 periods the date loop stops at exactly n dates, both for the limit tenor - dt/2 and for the limit tenor |
| `YieldCurve.LadderEquation` | apps/pricing-engine/src/modules/yield-curve/yield-curve.service.ts:79-94 | every solved factor satisfies the par equation: coupons discounted by the factors plus the final factor are worth 1 |
| `YieldCurve.FinishedCurve` | apps/pricing-engine/src/modules/yield-curve/yield-curve.service.ts:97-102 | the finished curve is strictly increasing and, with the extra short point, still discounts each maturity by its solved factor |
| `YieldCurve.ParRateReturns` | apps/pricing-engine/src/modules/yield-curve/yield-curve.service.ts:59-105 | bootstrapping and then asking for the par rate is the identity: for swaps in any order of one frequency f at 1/f, 2/f, ..., n/f with positive factors, the par rate at each maturity is the input rate |
| `YieldCurve.FactorPositiveExactly` | apps/pricing-engine/src/modules/yield-curve/yield-curve.service.ts:88-89 | after positive factors the next one is positive if and only if the coupons before its maturity are worth less than par |
| `YieldCurve.FactorsPositiveExactly` | apps/pricing-engine/src/modules/yield-curve/yield-curve.service.ts:79-94 | all factors of a ladder are positive if and only if that holds at every maturity |
| `GappedCurve.GapFactor` | apps/pricing-engine/src/modules/yield-curve/yield-curve.service.ts:79-89 | across a missing maturity the last factor is solved with the missing coupon discounted at the last rate so far |
| `GappedCurve.GapBetween` | apps/pricing-engine/src/modules/yield-curve/yield-curve.service.ts:131-145 | on the finished curve the missing date has the rate half-way between its neighbours |
| `GappedCurve.GapReturnsExactly` | apps/pricing-engine/src/modules/yield-curve/yield-curve.service.ts:59-105 | with one maturity missing before the last, the par rate there is the input rate if and only if that rate is zero or the solved zero rate continues the one before it |
| `GappedCurve.FlatExactly` | apps/pricing-engine/src/modules/yield-curve/yield-curve.service.ts:79-94 | which holds if and only if the input is the par rate of the earlier curve held flat |
| `GappedCurve.GapBreaksReturn` | apps/pricing-engine/src/modules/yield-curve/yield-curve.service.ts:59-105 | swaps at 0% for one year and 25% for three, whose three-year par rate is not 25% |
| `YieldCurve.ModerateRatesAreGood` | apps/pricing-engine/src/modules/yield-curve/yield-curve.service.ts:88-94 | a condition on the input rates alone, met by every ladder whose rates do not rise or stay below one over the previous maturity, makes every solved factor positive |
| `YieldCurve.ModerateParRateReturns` | apps/pricing-engine/src/modules/yield-curve/yield-curve.service.ts:59-105 | for such ladders the par rate at each maturity is the input rate, with no condition on the run |
| `Money.BlankHasNoCode` | packages/shared/src/types/money.ts:13-19 | a currency code is refused as blank exactly when trimming and upper-casing leave nothing of it |
| `Money.NormalisedExactly` | packages/shared/src/types/money.ts:13-19 | what is left of a code is the part between its outer white space, in capitals |
| `Ledger.ValidateBalance` | apps/banking-core/src/modules/ledger/journal.service.ts:165-194 | accepts exactly the requests whose codes are not blank and whose debits equal credits in every currency code; otherwise names a code and its unequal totals |
| `Ledger.CollectTotals` | apps/banking-core/src/modules/ledger/journal.service.ts:166-183 | the totals map holds the debits and credits of exactly the codes that occur |
| `Ledger.LedgerService.PostJournal` | apps/banking-core/src/modules/ledger/journal.service.ts:30-76 | posts, replays an accepted key, or refuses and leaves every table as it was; the blank key is not looked up but refused by the unique index |
| `Ledger.PostStores` | apps/banking-core/src/modules/ledger/journal.service.ts:30-76 | a post adds one POSTED journal with exactly the requested rows, as filed and at one time, when the request balances, its key is free and its rows can be written; it changes no hold, status, currency or overdraft; otherwise it changes nothing |
| `Ledger.LedgerService.ReverseJournal` | apps/banking-core/src/modules/ledger/journal.service.ts:78-133 | reverses a journal that is not reversed yet, and cannot fail otherwise: the swapped rows always pass the insert checks |
| `Ledger.ReverseStores` | apps/banking-core/src/modules/ledger/journal.service.ts:78-133 | a reversal marks its journal REVERSED and adds one POSTED journal with its rows, debits and credits swapped; an unknown or already reversed journal changes nothing |
| `Ledger.LedgerService.InsertRows` | packages/database/src/migrations/1700000000000-InitialSchema.ts:276-335 | inserting the rows of one journal runs the trigger on each, and is undone as a whole when a row is refused |
| `Ledger.StepKeeps` | apps/banking-core/src/modules/ledger/journal.service.ts:30-133 | posting, reversing, holds, releases, status changes and new accounts keep the invariant of the ledger |
| `Ledger.RunKeeps` | apps/banking-core/src/modules/ledger/journal.service.ts:30-133 | every state reached from the empty ledger satisfies the invariant |
| `Ledger.DebitsEqualCredits` | apps/banking-core/src/modules/ledger/journal.service.ts:30-133 | in every run total debits equal total credits in every currency code |
| `Ledger.ReversalNetsToZero` | apps/banking-core/src/modules/ledger/journal.service.ts:78-133 | in every run a journal is reversed at most once, exactly when it is marked so, and nets to zero with its reversal on every account in every code |
| `Ledger.NetOfSwapped` | apps/banking-core/src/modules/ledger/journal.service.ts:91-97 | swapping debits and credits negates the effect on every account |
| `Ledger.NetIsSigned` | packages/database/src/migrations/1700000000000-InitialSchema.ts:288-326 | for rows of one currency the net effect on an account is its credits less its debits, and nothing in any other currency |
| `Ledger.InsertAllSucceeds` | packages/database/src/migrations/1700000000000-InitialSchema.ts:194-213 | an insert is refused exactly for an unknown account, an amount that is not positive or a code that does not fit three characters |
| `Ledger.BalancedFiled` | packages/database/src/migrations/1700000000000-InitialSchema.ts:200-200 | a balanced request stays balanced when the currency column cuts trailing spaces and files different codes under one |
| `Ledger.BalanceExactly` | packages/database/src/migrations/1700000000000-InitialSchema.ts:288-326 | in every reachable state a balance is the signed sum of the account's entries if and only if the account has none |
| `Ledger.BalanceLags` | packages/database/src/migrations/1700000000000-InitialSchema.ts:288-326 | in every reachable state available = balance - hold + overdraft, the balance is the signed sum of the account's entries without the newest, and each balance_after leaves its own entry out |
| `Ledger.LagIsNewest` | packages/database/src/migrations/1700000000000-InitialSchema.ts:288-324 | the lagged sum is short of the true sum by exactly the newest entry |
| `Ledger.FirstCreditNotVisible` | packages/database/src/__tests__/integration/account.ledger.spec.ts:130-157 | after opening two accounts and posting one balanced journal, the account credited with 1000 has a balance of 0, where the integration test expects 1000 |
| `Ledger.HoldRoundTrip` | apps/banking-core/src/modules/accounts/accounts.service.ts:100-142 | a granted hold comes out of the available balance, never below zero, and releasing it restores the account |
| `Ledger.HoldOfRun` | apps/banking-core/src/modules/accounts/accounts.service.ts:100-142 | in every run the hold of an account is what was granted (active account, its currency, within the available balance) less what was released (its currency, at most what is held), and without negative amounts it is never negative |
| `Ledger.CurrencyErrors` | packages/shared/src/types/money.ts:185-193 | two codes agree exactly when they normalise to the same text that is not empty; an empty one is refused as blank, others as a mismatch |
| `Ledger.StatusOfRun` | apps/banking-core/src/modules/accounts/accounts.service.ts:75-98 | in every run an account is ACTIVE when opened and then has the latest status it could move to: any but a closed account may be closed, other moves go to or from ACTIVE, nothing returns to PENDING and a closed account stays closed |
| `Ledger.ColumnExactly` | packages/database/src/migrations/1700000000000-InitialSchema.ts:200-200 | a column of three characters keeps a code of at most three, or the first three when only spaces follow, and nothing else |
| `Ledger.LedgerService.CreateAccount` | apps/banking-core/src/modules/accounts/accounts.service.ts:28-45 | for an active customer a new account has the upper-cased code, an active status and zero amounts; a code that does not fit, a missing or an inactive customer is an error and stores nothing |
| `Ledger.LedgerService.PlaceHoldOn` | apps/banking-core/src/modules/accounts/accounts.service.ts:100-124 | placing a hold returns the rules' decision, stores it and keeps the invariant |
| `Ledger.LedgerService.ReleaseHoldOn` | apps/banking-core/src/modules/accounts/accounts.service.ts:126-142 | releasing a hold returns the rules' decision, stores it and keeps the invariant |
| `Ledger.LedgerService.UpdateAccountStatus` | apps/banking-core/src/modules/accounts/accounts.service.ts:75-98 | a status change follows the transition table, stores it and keeps the invariant |
| `Ledger.LaterRepeatsDoNotMatter` | apps/banking-core/src/modules/ledger/journal.service.ts:34-44 | once a key is accepted it stays so: deleting a later post under it, whatever comes between, leaves the same ledger |
| `Ledger.ReplayedExactly` | apps/banking-core/src/modules/ledger/journal.service.ts:34-44 | a repeat of an accepted key is answered with its journal if and only if the key is not empty |
| `Ledger.EmptyKeyNotReplayed` | apps/banking-core/src/modules/ledger/journal.service.ts:34-51 | a balanced journal under the empty key is accepted once and its repeat is refused |
| `Ledger.RunWithoutRepeats` | apps/banking-core/src/modules/ledger/journal.service.ts:34-44 | a run leaves the same ledger as the run with every later repeat of an accepted key deleted |
| `Statements.GenerateMonthlyStatement` | apps/banking-core/src/modules/statements/statements.service.ts:46-121 | the walk over the month's rows returns opening and closing snapshots, credits, debits and the times, kinds, amounts and balances of the lines; it fails exactly for an unknown account, a blank code, or a row in another currency, the first of which is reported |
| `Statements.PeriodHolds` | apps/banking-core/src/modules/statements/statements.service.ts:53-54 | the period of a statement holds exactly the instants whose local year and month are the statement's |
| `Statements.TotalsAddUp` | apps/banking-core/src/modules/statements/statements.service.ts:46-121 | every row counts once, as a credit or as a debit |
| `Statements.StatementReconciles` | apps/banking-core/src/modules/statements/statements.service.ts:53-103 | in every ledger reached under a clock that never runs backwards, and for any order the queries give to rows of one time, closing - (opening + credits - debits) is the lag of the opening snapshot less the lag of the closing one, and 0 for a month without entries |
| `Statements.LagIsTie` | apps/banking-core/src/modules/statements/statements.service.ts:65-72 | the lag of a newest snapshot is the sum of its row and of the entries inserted after it, all of which share its time |
| `Statements.DistinctReconciles` | apps/banking-core/src/modules/statements/statements.service.ts:53-103 | when the newest entry before each end of the month has a time of its own, the difference is the last signed entry before the month less the last one by its end |
| `Statements.FirstStatementIsOff` | apps/banking-core/src/modules/statements/statements.service.ts:65-103 | the first statement of an account that shows an entry never adds up when its newest entry has a time of its own |
| `Statements.ClosingIsNextOpening` | apps/banking-core/src/modules/statements/statements.service.ts:65-103 | each month's closing balance is the next month's opening balance when the newest time has one entry; in general they differ by the lags of the two rows the queries pick |
| `Statements.TiesBreakCarry` | apps/banking-core/src/modules/statements/statements.service.ts:65-103 | one journal that credits and debits 5 on one account lets a month close with 5 and the next one open with 0 |
| `Statements.MonthsAdd` | apps/banking-core/src/modules/statements/statements.service.ts:78-103 | over any number of consecutive months the totals account for every movement, whatever the order of rows of one time |
| `Statements.StatementsChain` | apps/banking-core/src/modules/statements/statements.service.ts:65-103 | over any number of consecutive months balances and totals differ only by the lag of the first snapshot less that of the last |
| `Statements.RunIsOrdered` | packages/database/src/migrations/1700000000000-InitialSchema.ts:203-203 | under a clock that never runs backwards the entries of every run are in the order of their times |
| `Statements.LastRowIsNewest` | apps/banking-core/src/modules/statements/statements.service.ts:57-72 | the last row of a month is one the next month's opening query may pick |
| `Calendar.NextMonth` | apps/banking-core/src/modules/statements/statements.service.ts:53-54 | each month starts where the one before it ends, leap years included |
| `Calendar.DayInMonth` | apps/open-banking/src/modules/vrp/vrp.service.ts:197-208 | a clock reading falls between the first of its month and the first of the next |
| `Calendar.MonthStarts` | apps/banking-core/src/modules/statements/statements.service.ts:53-54 | the first days of the twelve months of 1970 |
| `Calendar.LeapDays` | apps/banking-core/src/modules/statements/statements.service.ts:53-54 | February has 29 days in 2000 and 2024 and 28 in 2100 and 2023 |
| `Calendar.WeekdaysAdvance` | apps/open-banking/src/modules/vrp/vrp.service.ts:197-208 | weekdays follow one another from Thursday, the first of January 1970 |
| `CircuitBreaker.ClosedIsUnopened` | packages/integrations/src/circuit-breaker/circuit-breaker.ts:14-17 | in every trace CLOSED is the same as having no opening time, and leaves fewer failures on record than the threshold |
| `CircuitBreaker.RefusedExactlyAfterOpening` | packages/integrations/src/circuit-breaker/circuit-breaker.ts:32-40 | in every interleaving of starts and ends a call is refused exactly when the circuit opened, or opened again, less than recoveryMs before its recovery check |
| `CircuitBreaker.PrunedIsWindow` | packages/integrations/src/circuit-breaker/circuit-breaker.ts:87-90 | right after a start the record is exactly the failures since the last close that are newer than now - windowMs |
| `CircuitBreaker.OpensExactly` | packages/integrations/src/circuit-breaker/circuit-breaker.ts:64-77 | a failure of a closed circuit opens it exactly when the failures in the window plus the stale ones, which left it after the latest start, reach the threshold |
| `CircuitBreaker.StaleFailureOpens` | packages/integrations/src/circuit-breaker/circuit-breaker.ts:6-7 | two failures 200 seconds apart open a circuit set to open on two within 60 seconds |
| `CircuitBreaker.OpeningKept` | packages/integrations/src/circuit-breaker/circuit-breaker.ts:79-85 | outside CLOSED the stored opening time is the latest opening, and outside OPEN that is at least recoveryMs in the past |
| `CircuitBreaker.Breaker.BeginCall` | packages/integrations/src/circuit-breaker/circuit-breaker.ts:32-40 | pruning and the recovery check together admit a call exactly as stated above |
| `CircuitBreaker.Breaker.OnSuccess` | packages/integrations/src/circuit-breaker/circuit-breaker.ts:56-62 | a success closes a half-open circuit and changes nothing otherwise |
| `CircuitBreaker.Breaker.OnFailure` | packages/integrations/src/circuit-breaker/circuit-breaker.ts:64-77 | a failure is recorded and opens the circuit when it is half open or the record reaches the threshold |
| `Vrp.SpendWithinLimits` | apps/open-banking/src/modules/vrp/vrp.service.ts:138-177 | in every serial run with a clock that never runs backwards whose submissions are regular (no new period starts between check and store, or the amount alone is within the limit), what is spent under a consent in one spelling of a currency in a calendar day, Monday-to-Sunday week or month never exceeds any limit of that kind |
| `Vrp.SpellingsExactly` | apps/open-banking/src/modules/vrp/vrp.service.ts:210-220 | a stored payment keeps its currency's total, over all spellings of the code, within a limit if and only if what the check sees, its amount and what is spent in other spellings together do |
| `Vrp.OneSpellingWithinLimits` | apps/open-banking/src/modules/vrp/vrp.service.ts:138-177 | in every regular run that writes each currency in one way, every limit holds for the currency itself |
| `Vrp.SpellingsBreakLimit` | apps/open-banking/src/modules/vrp/vrp.service.ts:138-177 | a regular run at one clock reading that spends 100 'GBP' and 100 'gbp' on a day whose limit is 100 |
| `Vrp.LimitIgnoresCurrency` | apps/open-banking/src/modules/vrp/vrp.service.ts:141-151 | what a limit allows does not depend on the limit's own currency |
| `Vrp.ForeignPaymentRefused` | apps/open-banking/src/modules/vrp/vrp.service.ts:141-151 | a payment of 101 euros is refused by a limit of 100 pounds with nothing spent |
| `Vrp.OneReadingIsRegular` | apps/open-banking/src/modules/vrp/vrp.service.ts:130-146 | a run whose submissions see one clock reading each is regular, whatever the signs of its amounts |
| `Vrp.NonNegativeIsRegular` | apps/open-banking/src/modules/vrp/vrp.service.ts:130-177 | a run without negative amounts is regular, whenever its clock is read |
| `Vrp.NewPeriodExactly` | apps/open-banking/src/modules/vrp/vrp.service.ts:130-177 | when a period starts between the check of a limit and the store, the limit holds in the new period if and only if the amount alone is within it |
| `Vrp.CrossingBreaksLimit` | apps/open-banking/src/modules/vrp/vrp.service.ts:130-177 | a refund and a payment across midnight that together pass the check and break the daily limit |
| `Vrp.StartOfPeriod` | apps/open-banking/src/modules/vrp/vrp.service.ts:197-208 | the computed period start is the start of the one calendar period that holds the payment |
| `Vrp.PeriodHoldsNow` | apps/open-banking/src/modules/vrp/vrp.service.ts:197-208 | the computed start begins a calendar period that holds the clock reading |
| `Vrp.SumSinceStart` | apps/open-banking/src/modules/vrp/vrp.service.ts:210-220 | while nothing is stored after a period, the sum since its start is the period's total |
| `Vrp.StepKeeps` | apps/open-banking/src/modules/vrp/vrp.service.ts:64-189 | creating, authorising, deleting and regular submissions keep every limit of every consent |
| `Vrp.VrpService.SubmitVrpPayment` | apps/open-banking/src/modules/vrp/vrp.service.ts:111-189 | a payment is stored exactly when the consent is authorised and in its validity period, the code is not blank, no limit would be exceeded and the bridge accepts it; otherwise nothing is stored and the first reason is named |
| `Vrp.VrpService.CreateVrpConsent` | apps/open-banking/src/modules/vrp/vrp.service.ts:64-90 | a consent with a blank limit currency is refused and not stored; any other is stored with its limits and validity period and awaits authorisation |
| `Vrp.VrpService.DeleteVrpConsent` | apps/open-banking/src/modules/vrp/vrp.service.ts:98-109 | deleting revokes that consent alone; an unknown one is an error |
| `Vrp.TermsAsCreated` | apps/open-banking/src/modules/vrp/vrp.service.ts:64-90 | in every run what is stored of a consent are the limits and validity period given by the first request that could store it |
| `Vrp.StatusOfRun` | apps/open-banking/src/modules/vrp/vrp.service.ts:64-109 | in every run a consent is AUTHORISED if and only if, since the request that stored it, the latest authorisation or deletion of it is an authorisation, and REVOKED if and only if it is a deletion |
| `Vrp.PaymentsWereAuthorised` | apps/open-banking/src/modules/vrp/vrp.service.ts:111-135 | in every run each payment was submitted after its consent was authorised, with no deletion since, and within the validity period the consent was created with |
| `Vrp.CheckSeesPeriod` | apps/open-banking/src/modules/vrp/vrp.service.ts:138-151 | while submissions come in the order of the clock, what the check of a limit adds up is what was spent in the calendar period of its reading |
| `Webhooks.EachDeliveryOnce` | apps/open-banking/src/modules/webhooks/webhook-delivery.service.ts:36-122 | in every run each delivery is exactly one of one queued message, one success or one dead letter, is posted at most three times, and is dead-lettered only after three failures |
| `Webhooks.RetriesAreSpaced` | apps/open-banking/src/modules/webhooks/webhook-delivery.service.ts:70-107 | the second and third attempts come at least 60 and 300 seconds after the failures before them |
| `Webhooks.DelaysUsed` | apps/open-banking/src/modules/webhooks/webhook-delivery.service.ts:21-22 | in every run a message waits 60 seconds after its first failed post and 300 after its second; the third delay of 30 minutes is never used |
| `Webhooks.RetryCountIsDeadLetters` | apps/open-banking/src/modules/webhooks/webhook-subscription.store.ts:82-88 | while a subscription exists its retry count is the number of its dead-lettered deliveries |
| `Webhooks.RetryCountMissesFailures` | apps/open-banking/src/modules/webhooks/webhook-subscription.store.ts:26-26 | in every run the retry count is at most a third of the failed posts, and equals their number if and only if none has failed |
| `Webhooks.FailureNotCounted` | apps/open-banking/src/modules/webhooks/webhook-subscription.store.ts:26-26 | one failed post of one subscription leaves its retry count at 0 |
| `Webhooks.TakeUsesUp` | apps/open-banking/src/modules/webhooks/webhook-delivery.service.ts:67-121 | every post lowers the number of posts that remain; a message that is not due costs nothing and is put back |
| `Webhooks.QueueDrains` | apps/open-banking/src/modules/webhooks/webhook-delivery.service.ts:67-121 | taking due messages ends after at most three steps per message, whatever the outcomes, and never gets stuck before the queue is empty |
| `Webhooks.MatchingIsExact` | apps/open-banking/src/modules/webhooks/webhook-subscription.store.ts:63-67 | an event goes to exactly the active subscriptions that list it, once each |
| `Webhooks.StepKeeps` | apps/open-banking/src/modules/webhooks/webhook-delivery.service.ts:36-122 | every store and delivery step keeps the invariants above |
| `Webhooks.WebhookDeliveryService.QueueDelivery` | apps/open-banking/src/modules/webhooks/webhook-delivery.service.ts:36-64 | queues one first attempt, under the next identifier and for the subscription's own address, for each active subscription that lists the event, and changes nothing else |
| `Webhooks.WebhookDeliveryService.DeliverWebhook` | apps/open-banking/src/modules/webhooks/webhook-delivery.service.ts:67-122 | a message that is not due is put back; otherwise the post is logged and the message is gone on success, queued again 60 or 300 seconds after its first or second failure with the same address and event, or dead-lettered after the third with one more on the subscription's retry count |
| `Webhooks.WebhookSubscriptionStore.IncrementRetryCount` | apps/open-banking/src/modules/webhooks/webhook-subscription.store.ts:82-88 | adds one to the count of an existing subscription and ignores a missing one |
| `Webhooks.WebhookSubscriptionStore.CreateSubscription` | apps/open-banking/src/modules/webhooks/webhook-subscription.store.ts:36-53 | a new subscription is active with a zero count |
| `Webhooks.WebhookSubscriptionStore.SuspendSubscription` | apps/open-banking/src/modules/webhooks/webhook-subscription.store.ts:69-76 | suspending changes the status of that subscription alone |
| `Webhooks.WebhookSubscriptionStore.DeleteSubscription` | apps/open-banking/src/modules/webhooks/webhook-subscription.store.ts:78-80 | deleting removes that subscription alone and reports whether it existed |

## Left out

- Statements.GenerateMonthlyStatement: descriptions, references and formatted dates of the lines are not modelled, nor are entry times finer than a millisecond, the years 0 to 99, which JavaScript reads as 1900 to 1999, and changes of the local time zone.
- Vrp.SpendWithinLimits: covers serial runs; two submissions that overlap between check and store are not modelled. A period without any payment satisfies a negative limit only vacuously.
- Webhooks.EachDeliveryOnce: assumes a queue that hands over each message exactly once; redelivery is not modelled. Payloads and signatures are left out.
- Positions.PositionOfRun: quantities, costs and profits are exact; the rounding of stored columns to six decimals is not modelled, and day profit is left out because it does not compute a definite quantity.
- AverageCost.LongFollowsInventory: covers positions that are never oversold; beyond that the code keeps the old average, as AverageCost.SellKeepsAverage says.
- AverageCost.ShortRoundTrip: covers a short opened by the first sell of its key; a further sell of an existing short realises the difference to its average and keeps that average.
- Orders.RunOfPlacedOrder: quantities are taken to have at most six decimals. Statuses that no modelled method sets (suspended, expired and the like) never arise.
- YieldCurve.ParRateReturns: needs the solved discount factors to be positive, so that their logarithms exist; YieldCurve.FactorsPositiveExactly says when they are, and YieldCurve.ModerateRatesAreGood gives a condition on the rates alone that is enough.
- GappedCurve.GapReturnsExactly: covers one missing maturity, just before the last swap.
- YieldCurve.BootstrapFromSwapRates: takes swaps with a positive frequency and tenor and no division by zero; the not-a-number values of other inputs are not modelled.
- YieldCurve.SolveFinalDf: the same, one swap at a time.
- YieldCurve.GetParRate: takes a positive frequency; a negative one never ends the date loop and zero gives no number.
- BinomialTree.Price: takes at least one step; without steps the code divides by zero.
- Ledger.InsertAllSucceeds: amounts too large for the 20-digit columns, and idempotency keys longer than their 128 characters, are not modelled.
- Samples.CorrelationInRange: takes samples of at least two values and equal length, below which the code divides by zero.
- Amortization.ExactPaymentBalances: takes a term of at least one month and a rate of at least zero, the loans the service prices.
- Amortization.RoundingDrift: holds while no balance is clipped at zero; due dates are not modelled.
- Loan disbursement, loan payments and card flows: they post journals with a single entry, which balance validation rejects.
- Concurrent postings and database isolation levels: each request is one step.
- Binomial delta, gamma and theta, which are not differences on the tree.
- `percentile`, `cubicSpline`, flat curves, spot and forward rates: they would add only easy members.
- Black-Scholes, Monte Carlo, the normal distribution and credit default swaps.
- OAuth, consent screens, step-up checks, vault, access control, controllers, messaging wiring and provider clients.
- Compliance case handling, transfers, prime brokerage, treasury and wealth services.
