/**
 Level-payment loan schedules.

 Money is an integer count of 10^-6 currency units; every product that the service
 rounds to six decimals goes through `Round`. `r` is the monthly rate.
 */
module Amortization {
  import opened Arithmetic

  /** Amounts of one instalment. */
  datatype Row = Row(payment: int, principal: int, interest: int, balanceAfter: int)

  datatype Quote = Quote(monthlyPayment: int, totalInterest: int)

  function Interest(balance: int, r: real): int {
    Round(balance as real * r)
  }

  /** What the k-th regular instalment leaves, before a negative balance is set to zero. */
  function Unclipped(p: int, r: real, m: int, k: nat): int
    requires k > 0
    decreases k, 0
  {
    var b := Balance(p, r, m, k - 1);
    b - (m - Interest(b, r))
  }

  /** Balance after k regular instalments of m. */
  function Balance(p: int, r: real, m: int, k: nat): int
    decreases k, 1
  {
    if k == 0 then p else
    var b := Unclipped(p, r, m, k);
    if b < 0 then 0 else b
  }

  /** The i-th row, counted from zero, of a schedule of n instalments. */
  function ScheduleRow(p: int, r: real, m: int, n: nat, i: nat): Row
    requires i < n
  {
    var b := Balance(p, r, m, i);
    var interest := Interest(b, r);
    if i == n - 1 then Row(interest + b, b, interest, 0)
    else Row(m, m - interest, interest, Balance(p, r, m, i + 1))
  }

  /** What is owed before the i-th row, counted from zero. */
  function Owed(rows: seq<Row>, p: int, i: nat): int
    requires i <= |rows|
  {
    if i == 0 then p else rows[i - 1].balanceAfter
  }

  /**
   The rows of a payment plan, each from the balance the one before it leaves: interest on
   what is owed, the level payment in every row but the last, what is owed in the last,
   and never a negative balance.
   */
  ghost predicate IsPlan(rows: seq<Row>, p: int, r: real, m: int) {
    forall i: nat :: i < |rows| ==>
      && rows[i].interest == Round(Product(Owed(rows, p, i) as real, r))
      && rows[i].payment == rows[i].principal + rows[i].interest
      && (i < |rows| - 1 ==> rows[i].payment == m)
      && (i == |rows| - 1 ==> rows[i].principal == Owed(rows, p, i))
      && rows[i].balanceAfter == if Owed(rows, p, i) < rows[i].principal then 0 else Owed(rows, p, i) - rows[i].principal
  }

  lemma InterestIsRounded(balance: int, r: real)
    ensures Interest(balance, r) == Round(Product(balance as real, r))
  {
  }

  /** One row of a schedule fits its predecessor. */
  lemma ScheduleRowFits(p: int, r: real, m: int, n: nat, i: nat)
    requires i < n
    ensures var b, row := Balance(p, r, m, i), ScheduleRow(p, r, m, n, i);
            && row.interest == Round(Product(b as real, r))
            && row.payment == row.principal + row.interest
            && (i < n - 1 ==> row.payment == m && row.balanceAfter == Balance(p, r, m, i + 1))
            && (i == n - 1 ==> row.principal == b)
            && row.balanceAfter == if b < row.principal then 0 else b - row.principal
  {
    InterestIsRounded(Balance(p, r, m, i), r);
    hide Interest, Product, Round;
    if i < n - 1 {
      assert Unclipped(p, r, m, i + 1) == Balance(p, r, m, i) - (m - Interest(Balance(p, r, m, i), r));
    }
  }

  lemma OwedIsBalance(rows: seq<Row>, p: int, r: real, m: int, n: nat, i: nat)
    requires |rows| == n && i < n && forall k: nat :: k < n ==> rows[k] == ScheduleRow(p, r, m, n, k)
    ensures Owed(rows, p, i) == Balance(p, r, m, i)
  {
    if i > 0 {
      ScheduleRowFits(p, r, m, n, i - 1);
      hide ScheduleRow, Interest, Unclipped;
      assert rows[i - 1] == ScheduleRow(p, r, m, n, i - 1);
    }
  }

  /** The scheduled rows are a payment plan. */
  lemma ScheduleIsPlan(rows: seq<Row>, p: int, r: real, m: int, n: nat)
    requires |rows| == n && forall i: nat :: i < n ==> rows[i] == ScheduleRow(p, r, m, n, i)
    ensures IsPlan(rows, p, r, m)
  {
    hide ScheduleRow, Round, Owed, Product;
    forall i: nat | i < n
      ensures && rows[i].interest == Round(Product(Owed(rows, p, i) as real, r))
              && rows[i].payment == rows[i].principal + rows[i].interest
              && (i < n - 1 ==> rows[i].payment == m)
              && (i == n - 1 ==> rows[i].principal == Owed(rows, p, i))
              && rows[i].balanceAfter
                   == if Owed(rows, p, i) < rows[i].principal then 0 else Owed(rows, p, i) - rows[i].principal
    {
      ScheduleRowFits(p, r, m, n, i);
      OwedIsBalance(rows, p, r, m, n, i);
    }
  }

  /** A loan has one payment plan. */
  lemma {:induction false} PlanIsUnique(rows: seq<Row>, rows': seq<Row>, p: int, r: real, m: int, i: nat)
    requires IsPlan(rows, p, r, m) && IsPlan(rows', p, r, m) && |rows| == |rows'| && i < |rows|
    ensures rows[i] == rows'[i]
  {
    hide Round, Product, IsPlan;
    if i > 0 {
      PlanIsUnique(rows, rows', p, r, m, i - 1);
    }
    assert Owed(rows, p, i) == Owed(rows', p, i);
    hide Owed;
    PlanRow(rows, p, r, m, i);
    PlanRow(rows', p, r, m, i);
  }

  /** Each row follows from what is owed before it. */
  lemma PlanRow(rows: seq<Row>, p: int, r: real, m: int, i: nat)
    requires IsPlan(rows, p, r, m) && i < |rows|
    ensures var b, interest := Owed(rows, p, i), Round(Product(Owed(rows, p, i) as real, r));
            var principal := if i < |rows| - 1 then m - interest else b;
            rows[i] == Row(principal + interest, principal, interest, if b < principal then 0 else b - principal)
  {
    hide Round, Product, Owed;
  }

  /** The loop of the service: the last instalment repays whatever is left. */
  method GenerateSchedule(p: int, r: real, m: int, n: nat) returns (rows: seq<Row>)
    ensures |rows| == n && IsPlan(rows, p, r, m)
    ensures forall i: nat :: i < n ==> rows[i] == ScheduleRow(p, r, m, n, i)
  {
    hide Interest, IsPlan;
    rows := [];
    var balance := p;
    for i := 1 to n + 1
      invariant |rows| == i - 1
      invariant i <= n ==> balance == Balance(p, r, m, i - 1)
      invariant forall j: nat :: j < i - 1 ==> rows[j] == ScheduleRow(p, r, m, n, j)
    {
      var interest := Interest(balance, r);
      var principal := m - interest;
      if i == n {
        principal := balance;
      }
      balance := balance - principal;
      if balance < 0 {
        balance := 0;
      }
      rows := rows + [Row(interest + principal, principal, interest, balance)];
    }
    ScheduleIsPlan(rows, p, r, m, n);
  }

  /** p * r * g / (g - 1), where g is the growth of one unit over the term. */
  function LevelPayment(p: real, r: real, g: real): real
    requires g > 1.0
  {
    p * r * g / (g - 1.0)
  }

  /** The unrounded level payment that repays p in n months. */
  function ExactPayment(p: int, r: real, n: nat): real
    requires r >= 0.0 && n > 0
  {
    if r == 0.0 then p as real / n as real
    else
      GrowthExceedsOne(r, n);
      LevelPayment(p as real, r, Pow(1.0 + r, n))
  }

  function CalculateAmortization(p: int, r: real, n: nat): Quote
    requires r >= 0.0 && n > 0
  {
    var payment := ExactPayment(p, r, n);
    Quote(Round(payment), Round(Product(payment, n as real) - p as real))
  }

  // ----- Compound growth -----

  /** One month of interest at rate r. */
  function Accrue(r: real, x: real): real {
    (1.0 + r) * x
  }

  /** Value after k months of one unit paid each month. */
  function Annuity(r: real, k: nat): real {
    if k == 0 then 0.0 else Accrue(r, Annuity(r, k - 1)) + 1.0
  }

  lemma {:induction false} GrowthOfAnnuity(r: real, k: nat)
    ensures Pow(1.0 + r, k) == 1.0 + r * Annuity(r, k)
  {
    if k == 0 {
    } else {
      GrowthOfAnnuity(r, k - 1);
      GrowthStep(r, Annuity(r, k - 1), Pow(1.0 + r, k - 1));
    }
  }

  lemma GrowthStep(r: real, a: real, g: real)
    requires g == 1.0 + r * a
    ensures (1.0 + r) * g == 1.0 + r * ((1.0 + r) * a + 1.0)
  {
  }

  /** The closed form of the annuity. */
  function AnnuityFormula(r: real, k: nat): real
    requires r > 0.0
  {
    (Pow(1.0 + r, k) - 1.0) / r
  }

  lemma AnnuityClosedForm(r: real, k: nat)
    requires r > 0.0
    ensures Annuity(r, k) == AnnuityFormula(r, k)
  {
    GrowthOfAnnuity(r, k);
  }

  lemma {:induction false} AnnuityBounds(r: real, k: nat)
    requires r >= 0.0
    ensures Annuity(r, k) >= k as real
    ensures k > 0 ==> Annuity(r, k) >= Annuity(r, k - 1)
  {
    if k == 0 {
    } else {
      AnnuityBounds(r, k - 1);
      NonNegativeProduct(r, Annuity(r, k - 1));
    }
  }

  lemma NonNegativeProduct(x: real, y: real)
    requires x >= 0.0 && y >= 0.0
    ensures x * y >= 0.0
  {
  }

  lemma GrowthExceedsOne(r: real, n: nat)
    requires r > 0.0 && n > 0
    ensures Pow(1.0 + r, n) > 1.0
  {
    GrowthOfAnnuity(r, n);
    AnnuityBounds(r, n);
    assert r * Annuity(r, n) > 0.0;
  }

  /** The exact payment balances the loan: its annuity is the grown principal. */
  lemma ExactPaymentBalances(p: int, r: real, n: nat)
    requires r >= 0.0 && n > 0
    ensures ExactPayment(p, r, n) * Annuity(r, n) == p as real * Pow(1.0 + r, n)
  {
    GrowthOfAnnuity(r, n);
    if r == 0.0 {
      AnnuityOfZeroRate(n);
    } else {
      GrowthExceedsOne(r, n);
      hide LevelPayment, Pow, Annuity;
      PaymentAlgebra(p as real, r, Pow(1.0 + r, n), Annuity(r, n));
    }
  }

  lemma {:induction false} AnnuityOfZeroRate(n: nat)
    ensures Annuity(0.0, n) == n as real && Pow(1.0 + 0.0, n) == 1.0
  {
    if n == 0 {
    } else {
      AnnuityOfZeroRate(n - 1);
    }
  }

  lemma PaymentAlgebra(p: real, r: real, g: real, a: real)
    requires r > 0.0 && g == 1.0 + r * a && g > 1.0
    ensures LevelPayment(p, r, g) * a == p * g
  {
    var x := LevelPayment(p, r, g);
    assert x * (g - 1.0) == p * r * g;
    assert x * (r * a) == p * r * g;
    assert r * (x * a - p * g) == 0.0;
  }

  // ----- Conservation of principal -----

  /** Sum of the principal portions of the first k rows. */
  function PrincipalPaid(rows: seq<Row>, k: nat): int
    requires k <= |rows|
  {
    if k == 0 then 0 else PrincipalPaid(rows, k - 1) + rows[k - 1].principal
  }

  function InterestPaid(rows: seq<Row>, k: nat): int
    requires k <= |rows|
  {
    if k == 0 then 0 else InterestPaid(rows, k - 1) + rows[k - 1].interest
  }

  /** Total of the negative balances set to zero by the first k regular instalments. */
  function Clipped(p: int, r: real, m: int, k: nat): (c: nat) {
    if k == 0 then 0 else
    var b := Unclipped(p, r, m, k);
    Clipped(p, r, m, k - 1) + if b < 0 then -b else 0
  }

  /** No regular instalment overpays the loan. */
  ghost predicate NeverClips(p: int, r: real, m: int, n: nat) {
    forall k: nat :: 0 < k < n ==> Unclipped(p, r, m, k) >= 0
  }

  ghost predicate IsSchedule(rows: seq<Row>, p: int, r: real, m: int, n: nat) {
    |rows| == n && forall i: nat :: i < n ==> rows[i] == ScheduleRow(p, r, m, n, i)
  }

  lemma {:induction false} PrincipalOfRegularRows(rows: seq<Row>, p: int, r: real, m: int, n: nat, k: nat)
    requires IsSchedule(rows, p, r, m, n) && k < n
    ensures PrincipalPaid(rows, k) == p - Balance(p, r, m, k) + Clipped(p, r, m, k)
  {
    if k == 0 {
    } else {
      PrincipalOfRegularRows(rows, p, r, m, n, k - 1);
      assert rows[k - 1] == ScheduleRow(p, r, m, n, k - 1);
    }
  }

  lemma {:induction false} ClippedZero(p: int, r: real, m: int, k: nat)
    ensures Clipped(p, r, m, k) == 0 <==> NeverClips(p, r, m, k + 1)
  {
    if k == 0 {
    } else {
      ClippedZero(p, r, m, k - 1);
    }
  }

  /**
   The principal portions of any schedule add up to the principal plus whatever was
   clipped, hence to the principal exactly when nothing was; the last balance is 0.
   */
  lemma PrincipalIsConserved(rows: seq<Row>, p: int, r: real, m: int, n: nat)
    requires IsSchedule(rows, p, r, m, n) && n > 0
    ensures PrincipalPaid(rows, n) == p + Clipped(p, r, m, n - 1)
    ensures PrincipalPaid(rows, n) == p <==> NeverClips(p, r, m, n)
    ensures rows[n - 1].balanceAfter == 0
  {
    PrincipalOfRegularRows(rows, p, r, m, n, n - 1);
    assert rows[n - 1] == ScheduleRow(p, r, m, n, n - 1);
    ClippedZero(p, r, m, n - 1);
  }

  // ----- Distance from the closed form -----

  /** Balance after k payments of m without any rounding. */
  function Closed(p: real, r: real, m: real, k: nat): real {
    p * Pow(1.0 + r, k) - m * Annuity(r, k)
  }

  lemma ClosedStep(p: real, r: real, m: real, k: nat)
    ensures Closed(p, r, m, k + 1) == Accrue(r, Closed(p, r, m, k)) - m
  {
    var g, a := Pow(1.0 + r, k), Annuity(r, k);
    assert p * ((1.0 + r) * g) == (1.0 + r) * (p * g);
    assert m * ((1.0 + r) * a + 1.0) == (1.0 + r) * (m * a) + m;
  }

  /** x is within half of a of y. */
  ghost predicate Within(x: int, y: real, a: real) {
    -a <= 2.0 * (x as real - y) <= a
  }

  /**
   While nothing is clipped, the balance drifts from the closed form by at most
   half a unit of rounding per month, compounded.
   */
  lemma {:induction false} RoundingDrift(p: int, r: real, m: int, n: nat, k: nat)
    requires r >= 0.0 && k <= n && NeverClips(p, r, m, n)
    ensures k < n ==> Within(Balance(p, r, m, k), Closed(p as real, r, m as real, k), Annuity(r, k))
    ensures k > 0 ==> Within(Unclipped(p, r, m, k), Closed(p as real, r, m as real, k), Annuity(r, k))
  {
    if k == 0 {
      ClosedAtStart(p as real, r, m as real);
    } else {
      RoundingDrift(p, r, m, n, k - 1);
      DriftOfOneMonth(p, r, m, k);
    }
  }

  lemma DriftOfOneMonth(p: int, r: real, m: int, k: nat)
    requires r >= 0.0 && k > 0
    requires Within(Balance(p, r, m, k - 1), Closed(p as real, r, m as real, k - 1), Annuity(r, k - 1))
    ensures Within(Unclipped(p, r, m, k), Closed(p as real, r, m as real, k), Annuity(r, k))
  {
    hide *;
    ClosedStep(p as real, r, m as real, k - 1);
    UnfoldMonth(p, r, m, k);
    DriftStep(Balance(p, r, m, k - 1), r, m,
      Closed(p as real, r, m as real, k - 1), Annuity(r, k - 1), Unclipped(p, r, m, k),
      Closed(p as real, r, m as real, k), Annuity(r, k), Interest(Balance(p, r, m, k - 1), r));
  }

  lemma UnfoldMonth(p: int, r: real, m: int, k: nat)
    requires k > 0
    ensures Unclipped(p, r, m, k) == Balance(p, r, m, k - 1) - (m - Interest(Balance(p, r, m, k - 1), r))
    ensures Annuity(r, k) == Accrue(r, Annuity(r, k - 1)) + 1.0
  {
    hide Interest, Accrue;
  }

  lemma ClosedAtStart(p: real, r: real, m: real)
    ensures Closed(p, r, m, 0) == p
  {
  }

  lemma DriftStep(b: int, r: real, m: int, c: real, a: real, b': int, c': real, a': real, interest: int)
    requires r >= 0.0 && Within(b, c, a)
    requires interest == Interest(b, r) && b' == b - (m - interest)
    requires c' == Accrue(r, c) - m as real && a' == Accrue(r, a) + 1.0
    ensures Within(b', c', a')
  {
    var x := b as real;
    var d, rc, ra, xr := x - c, r * c, r * a, x * r;
    assert (1.0 + r) * c == c + rc && (1.0 + r) * a == a + ra;
    assert -0.5 <= interest as real - xr <= 0.5;
    ScaledBound(r, d, a, r * d);
    assert r * d == xr - rc;
  }

  lemma ScaledBound(r: real, d: real, a: real, rd: real)
    requires r >= 0.0 && -a <= 2.0 * d <= a && rd == r * d
    ensures -(r * a) <= 2.0 * rd <= r * a
  {
    NonNegativeProduct(r, a - 2.0 * d);
    NonNegativeProduct(r, a + 2.0 * d);
    assert r * (a - 2.0 * d) == r * a - 2.0 * (r * d);
    assert r * (a + 2.0 * d) == r * a + 2.0 * (r * d);
  }

  // ----- The final instalment -----

  lemma HalfUnit(payment: real)
    ensures -1.0 <= 2.0 * (payment - Round(payment) as real) <= 1.0
  {
  }

  /** With the quoted payment the closed form ends within half an annuity of zero. */
  lemma ClosedAtEnd(p: int, r: real, n: nat)
    requires r >= 0.0 && n > 0
    ensures var m := CalculateAmortization(p, r, n).monthlyPayment;
            -Annuity(r, n) <= 2.0 * Closed(p as real, r, m as real, n) <= Annuity(r, n)
  {
    hide ExactPayment, Annuity, Pow, Round;
    var x, a := ExactPayment(p, r, n), Annuity(r, n);
    ExactPaymentBalances(p, r, n);
    HalfUnit(x);
    AnnuityBounds(r, n);
    EndAlgebra(p as real, r, n, x, Round(x) as real, a);
  }

  lemma EndAlgebra(p: real, r: real, n: nat, x: real, m: real, a: real)
    requires a == Annuity(r, n) && a >= 0.0 && x * a == p * Pow(1.0 + r, n)
    requires -1.0 <= 2.0 * (x - m) <= 1.0
    ensures -a <= 2.0 * Closed(p, r, m, n) <= a
  {
    hide Annuity, Pow;
    ScaledBound(a, x - m, 1.0, a * (x - m));
    assert a * (x - m) == x * a - m * a;
  }

  /**
   The final instalment differs from the quoted payment by at most
   ((1 + r)^n - 1) / r units when nothing is clipped.
   */
  lemma FinalInstalment(p: int, r: real, n: nat, rows: seq<Row>)
    requires r >= 0.0 && n > 0
    requires var m := CalculateAmortization(p, r, n).monthlyPayment;
             IsSchedule(rows, p, r, m, n) && NeverClips(p, r, m, n)
    ensures var m := CalculateAmortization(p, r, n).monthlyPayment;
            Abs((rows[n - 1].payment - m) as real) <= Annuity(r, n)
  {
    var m := CalculateAmortization(p, r, n).monthlyPayment;
    RoundingDrift(p, r, m, n, n);
    ClosedAtEnd(p, r, n);
    assert rows[n - 1] == ScheduleRow(p, r, m, n, n - 1);
    assert rows[n - 1].payment - m == Unclipped(p, r, m, n);
  }

  /** p (1 + r)^k - m ((1 + r)^k - 1) / r */
  function BalanceFormula(p: real, r: real, m: real, k: nat): real
    requires r > 0.0
  {
    p * Pow(1.0 + r, k) - m * AnnuityFormula(r, k)
  }

  lemma ClosedIsFormula(p: real, r: real, m: real, k: nat)
    requires r > 0.0
    ensures Closed(p, r, m, k) == BalanceFormula(p, r, m, k)
  {
    AnnuityClosedForm(r, k);
    hide Annuity, AnnuityFormula, Pow;
  }

  /** The drift with everything written out: half of ((1 + r)^k - 1) / r units after k months. */
  lemma BalanceNearFormula(p: int, r: real, m: int, n: nat, k: nat)
    requires r > 0.0 && k < n && NeverClips(p, r, m, n)
    ensures Abs(Balance(p, r, m, k) as real - BalanceFormula(p as real, r, m as real, k)) <= AnnuityFormula(r, k) / 2.0
  {
    RoundingDrift(p, r, m, n, k);
    hide AnnuityFormula, BalanceFormula, Closed, Annuity, Balance;
    AnnuityClosedForm(r, k);
    ClosedIsFormula(p as real, r, m as real, k);
  }

  // ----- When nothing is clipped -----

  lemma AccrueMonotone(r: real, x: real, y: real)
    requires r >= 0.0
    ensures x <= y <==> Accrue(r, x) <= Accrue(r, y)
  {
    if x <= y {
      NonNegativeProduct(r, y - x);
    } else {
      NonNegativeProduct(r, x - y);
    }
    assert Accrue(r, y) - Accrue(r, x) == (y - x) + r * (y - x);
  }

  /** Before the last month an unrounded loan still owes at least a payment, less a month of interest. */
  lemma {:induction false} UnroundedOwes(p: real, r: real, x: real, n: nat, k: nat)
    requires r >= 0.0 && x >= 0.0 && k < n && Closed(p, r, x, n) == 0.0
    ensures Accrue(r, Closed(p, r, x, k)) >= x
    decreases n - k
  {
    hide Closed, Accrue;
    ClosedStep(p, r, x, k);
    if k < n - 1 {
      UnroundedOwes(p, r, x, n, k + 1);
      AccrueMonotone(r, 0.0, Closed(p, r, x, k + 1));
      AccrueZero(r);
    }
  }

  lemma AccrueZero(r: real)
    ensures Accrue(r, 0.0) == 0.0
  {
  }

  lemma {:induction false} AnnuityGrows(r: real, k: nat, n: nat)
    requires r >= 0.0 && k <= n
    ensures Annuity(r, k) <= Annuity(r, n)
  {
    if k < n {
      AnnuityGrows(r, k, n - 1);
      AnnuityBounds(r, n);
    }
  }

  lemma ExactPaymentSign(p: int, r: real, n: nat)
    requires p >= 0 && r >= 0.0 && n > 0
    ensures ExactPayment(p, r, n) >= 0.0
    ensures Closed(p as real, r, ExactPayment(p, r, n), n) == 0.0
  {
    hide ExactPayment, Annuity, Pow;
    ExactPaymentBalances(p, r, n);
    AnnuityBounds(r, n);
    GrowthPositive(r, n);
    QuotientSign(ExactPayment(p, r, n), Annuity(r, n), p as real, Pow(1.0 + r, n));
  }

  lemma GrowthPositive(r: real, n: nat)
    requires r >= 0.0
    ensures Pow(1.0 + r, n) > 0.0
  {
    PowPositive(1.0 + r, n);
  }

  lemma NegativeProduct(x: real, a: real, xa: real)
    requires x < 0.0 && a > 0.0 && xa == x * a
    ensures xa < 0.0
  {
  }

  lemma QuotientSign(x: real, a: real, p: real, g: real)
    requires a > 0.0 && p >= 0.0 && g > 0.0 && x * a == p * g
    ensures x >= 0.0
  {
    NonNegativeProduct(p, g);
    if x < 0.0 {
      NegativeProduct(x, a, x * a);
    }
  }

  /** A larger payment lowers the closed form by the annuity of the difference. */
  lemma ClosedOfPayments(p: real, r: real, x: real, m: real, k: nat)
    ensures Closed(p, r, m, k) == Closed(p, r, x, k) + Product(Annuity(r, k), x - m)
  {
    hide Annuity, Pow;
  }

  /**
   A quoted payment of at least ((1 + r)^n - 1) / r units never clips, so that for
   such loans the results above hold without a condition on the run.
   */
  lemma LargePaymentNeverClips(p: int, r: real, n: nat)
    requires p >= 0 && r >= 0.0 && n > 0
    requires CalculateAmortization(p, r, n).monthlyPayment as real >= Annuity(r, n)
    ensures NeverClips(p, r, CalculateAmortization(p, r, n).monthlyPayment, n)
  {
    forall k: nat | 0 < k < n
      ensures Unclipped(p, r, CalculateAmortization(p, r, n).monthlyPayment, k) >= 0
    {
      LargePaymentUnclipped(p, r, n, k);
    }
  }

  lemma {:induction false} LargePaymentUnclipped(p: int, r: real, n: nat, k: nat)
    requires p >= 0 && r >= 0.0 && 0 < k < n
    requires CalculateAmortization(p, r, n).monthlyPayment as real >= Annuity(r, n)
    ensures Unclipped(p, r, CalculateAmortization(p, r, n).monthlyPayment, k) >= 0
  {
    var m := CalculateAmortization(p, r, n).monthlyPayment;
    forall j: nat | 0 < j < k
      ensures Unclipped(p, r, m, j) >= 0
    {
      LargePaymentUnclipped(p, r, n, j);
    }
    assert NeverClips(p, r, m, k);
    assert m == Round(ExactPayment(p, r, n));
    hide *;
    RoundingDrift(p, r, m, k, k);
    LargePaymentOwes(p, r, n, m, k);
    DriftLeavesDebt(Unclipped(p, r, m, k), Closed(p as real, r, m as real, k), Annuity(r, k));
  }

  lemma LargePaymentOwes(p: int, r: real, n: nat, m: int, k: nat)
    requires p >= 0 && r >= 0.0 && 0 < k < n
    ensures m == Round(ExactPayment(p, r, n)) && m as real >= Annuity(r, n) ==>
              2.0 * Closed(p as real, r, m as real, k) >= Annuity(r, k)
  {
    hide *;
    var x := ExactPayment(p, r, n);
    ExactPaymentSign(p, r, n);
    HalfUnit(x);
    UnroundedOwes(p as real, r, x, n, k);
    AnnuityBounds(r, k);
    AnnuityGrows(r, k, n - 1);
    UnfoldAnnuity(r, n);
    AccrueMonotone(r, Annuity(r, k), Annuity(r, n - 1));
    AccrueMonotone(r, Annuity(r, k), Closed(p as real, r, x, k));
    ClosedOfPayments(p as real, r, x, m as real, k);
    if m == Round(x) {
      HalfUnitScaled(Annuity(r, k), x - m as real);
    }
  }

  lemma HalfUnitScaled(a: real, d: real)
    requires a >= 0.0 && -1.0 <= 2.0 * d <= 1.0
    ensures -a <= 2.0 * Product(a, d) <= a
  {
    ScaledBound(a, d, 1.0, Product(a, d));
  }

  lemma UnfoldAnnuity(r: real, n: nat)
    requires n > 0
    ensures Annuity(r, n) == Accrue(r, Annuity(r, n - 1)) + 1.0
  {
    hide Accrue;
  }

  lemma DriftLeavesDebt(u: int, c: real, a: real)
    requires Within(u, c, a) && 2.0 * c >= a
    ensures u >= 0
  {
  }

  // ----- The rows themselves -----

  /** No row overpays what is owed. */
  ghost predicate NeverOverpays(rows: seq<Row>, p: int) {
    forall i: nat :: i < |rows| ==> rows[i].principal <= Owed(rows, p, i)
  }

  lemma PlanIsSchedule(rows: seq<Row>, p: int, r: real, m: int)
    requires IsPlan(rows, p, r, m)
    ensures IsSchedule(rows, p, r, m, |rows|)
  {
    var n := |rows|;
    var schedule := seq(n, i requires 0 <= i < n => ScheduleRow(p, r, m, n, i));
    hide ScheduleRow, IsPlan, Round, Product;
    ScheduleIsPlan(schedule, p, r, m, n);
    forall i: nat | i < n
      ensures rows[i] == ScheduleRow(p, r, m, n, i)
    {
      PlanIsUnique(rows, schedule, p, r, m, i);
    }
  }

  lemma OverpaysExactly(rows: seq<Row>, p: int, r: real, m: int)
    requires IsPlan(rows, p, r, m) && NeverOverpays(rows, p)
    ensures NeverClips(p, r, m, |rows|)
  {
    var n := |rows|;
    PlanIsSchedule(rows, p, r, m);
    hide Round, Interest, IsPlan;
    forall k: nat | 0 < k < n
      ensures Unclipped(p, r, m, k) >= 0
    {
      OwedIsBalance(rows, p, r, m, n, k - 1);
      assert rows[k - 1] == ScheduleRow(p, r, m, n, k - 1);
    }
  }

  /**
   While no row overpays, the balance shown in each row before the last is within half of
   ((1 + r)^k - 1) / r units of p (1 + r)^k - m ((1 + r)^k - 1) / r.
   */
  lemma RowsNearFormula(rows: seq<Row>, p: int, r: real, m: int, k: nat)
    requires r > 0.0 && IsPlan(rows, p, r, m) && NeverOverpays(rows, p) && 0 < k < |rows|
    ensures Abs(rows[k - 1].balanceAfter as real - BalanceFormula(p as real, r, m as real, k)) <= AnnuityFormula(r, k) / 2.0
  {
    hide Round, Interest, IsPlan, ScheduleRow, BalanceFormula, AnnuityFormula;
    PlanIsSchedule(rows, p, r, m);
    OverpaysExactly(rows, p, r, m);
    OwedIsBalance(rows, p, r, m, |rows|, k);
    BalanceNearFormula(p, r, m, |rows|, k);
  }

  /** A quote is the nearest unit to the payment that exactly repays the loan, and to what it costs beyond the principal. */
  lemma QuoteIsNearest(p: int, r: real, n: nat, x: real)
    requires r >= 0.0 && n > 0 && Product(x, Annuity(r, n)) == Product(p as real, Pow(1.0 + r, n))
    ensures var quote := CalculateAmortization(p, r, n);
            && -0.5 <= quote.monthlyPayment as real - x <= 0.5
            && -0.5 <= quote.totalInterest as real - (Product(x, n as real) - p as real) <= 0.5
  {
    hide Annuity, ExactPayment, Pow, Product;
    ExactPaymentRepays(p, r, n);
    AnnuityBounds(r, n);
    SamePayment(x, ExactPayment(p, r, n), Annuity(r, n));
  }

  lemma ExactPaymentRepays(p: int, r: real, n: nat)
    requires r >= 0.0 && n > 0
    ensures Product(ExactPayment(p, r, n), Annuity(r, n)) == Product(p as real, Pow(1.0 + r, n))
  {
    hide Annuity, ExactPayment, Pow;
    ExactPaymentBalances(p, r, n);
  }

  lemma SamePayment(x: real, y: real, a: real)
    requires a > 0.0 && Product(x, a) == Product(y, a)
    ensures x == y
  {
    ProductDistributes(x - y, y, a);
    ProductVanishes(x - y, a);
    hide Product;
  }

  // ----- Interest -----

  lemma {:induction false} RegularPayments(rows: seq<Row>, p: int, r: real, m: int, n: nat, k: nat)
    requires IsSchedule(rows, p, r, m, n) && k < n
    ensures InterestPaid(rows, k) + PrincipalPaid(rows, k) == k * m
  {
    if k == 0 {
    } else {
      RegularPayments(rows, p, r, m, n, k - 1);
      assert rows[k - 1] == ScheduleRow(p, r, m, n, k - 1);
      assert k * m == (k - 1) * m + m;
    }
  }

  /**
   The interest a schedule charges differs from the quoted total by at most half a
   unit a payment, plus the error of the final instalment, plus half a unit.
   */
  lemma QuotedInterest(p: int, r: real, n: nat, rows: seq<Row>)
    requires r >= 0.0 && n > 0
    requires IsSchedule(rows, p, r, CalculateAmortization(p, r, n).monthlyPayment, n)
    requires NeverClips(p, r, CalculateAmortization(p, r, n).monthlyPayment, n)
    ensures Abs((InterestPaid(rows, n) - CalculateAmortization(p, r, n).totalInterest) as real)
         <= Annuity(r, n) + (n + 1) as real / 2.0
  {
    hide ExactPayment, Product, Round, Annuity, Interest, Unclipped, Balance, NeverClips, Clipped;
    var quote := CalculateAmortization(p, r, n);
    var m := quote.monthlyPayment;
    RegularPayments(rows, p, r, m, n, n - 1);
    PrincipalIsConserved(rows, p, r, m, n);
    FinalInstalment(p, r, n, rows);
    assert rows[n - 1] == ScheduleRow(p, r, m, n, n - 1);
    var f := rows[n - 1].payment;
    assert InterestPaid(rows, n) + PrincipalPaid(rows, n) == (n - 1) * m + f;
    var x := ExactPayment(p, r, n);
    assert m == Round(x) && quote.totalInterest == Round(Product(x, n as real) - p as real);
    hide *;
    HalfUnit(x);
    HalfUnit(Product(x, n as real) - p as real);
    HalfUnitScaled(n as real, x - m as real);
    TimesDifference(x, m, n);
    InterestAlgebra(InterestPaid(rows, n), p, n, m, f, Product(x, n as real), quote.totalInterest, Annuity(r, n),
      Product(n as real, x - m as real));
  }

  lemma TimesDifference(x: real, m: int, n: nat)
    ensures Product(n as real, x - m as real) == Product(x, n as real) - (n * m) as real
  {
    assert (n * m) as real == n as real * m as real;
  }

  lemma InterestAlgebra(i: int, p: int, n: nat, m: int, f: int, total: real, t: int, a: real, gap: real)
    requires n > 0 && i + p == (n - 1) * m + f
    requires Abs((f - m) as real) <= a
    requires -1.0 <= 2.0 * (total - p as real - t as real) <= 1.0
    requires gap == total - (n * m) as real && -(n as real) <= 2.0 * gap <= n as real
    ensures Abs((i - t) as real) <= a + (n + 1) as real / 2.0
  {
    assert (n - 1) * m == n * m - m;
  }

  /** A schedule that never clips charges the quoted interest exactly when its last payment makes up the difference. */
  lemma QuotedInterestExactly(p: int, r: real, n: nat, rows: seq<Row>)
    requires r >= 0.0 && n > 0
    requires IsSchedule(rows, p, r, CalculateAmortization(p, r, n).monthlyPayment, n)
    requires NeverClips(p, r, CalculateAmortization(p, r, n).monthlyPayment, n)
    ensures var quote := CalculateAmortization(p, r, n);
            InterestPaid(rows, n) == quote.totalInterest <==>
            rows[n - 1].payment == p + quote.totalInterest - (n - 1) * quote.monthlyPayment
  {
    hide CalculateAmortization, Interest, Unclipped, Balance, NeverClips, Clipped;
    var m := CalculateAmortization(p, r, n).monthlyPayment;
    RegularPayments(rows, p, r, m, n, n - 1);
    PrincipalIsConserved(rows, p, r, m, n);
    assert rows[n - 1] == ScheduleRow(p, r, m, n, n - 1);
  }

  /** Without interest the quote and the schedule always agree: both say zero. */
  lemma FreeLoanIsQuotedExactly(p: int, n: nat, rows: seq<Row>)
    requires n > 0 && IsSchedule(rows, p, 0.0, CalculateAmortization(p, 0.0, n).monthlyPayment, n)
    ensures InterestPaid(rows, n) == CalculateAmortization(p, 0.0, n).totalInterest == 0
  {
    var m := CalculateAmortization(p, 0.0, n).monthlyPayment;
    QuotientTimes(p as real, n as real);
    assert ExactPayment(p, 0.0, n) == p as real / n as real;
    hide CalculateAmortization, Product;
    NoInterestPaid(rows, p, m, n, n);
  }

  lemma {:induction false} NoInterestPaid(rows: seq<Row>, p: int, m: int, n: nat, k: nat)
    requires IsSchedule(rows, p, 0.0, m, n) && k <= n
    ensures InterestPaid(rows, k) == 0
  {
    if k == 0 {
    } else {
      NoInterestPaid(rows, p, m, n, k - 1);
      assert rows[k - 1] == ScheduleRow(p, 0.0, m, n, k - 1);
    }
  }

  // A personal loan of 5000 over six months at 8.99% a year.

  const LOAN := 5_000_000_000
  const LOAN_RATE := 899.0 / 120_000.0
  const LOAN_PAYMENT := 855_319_930
  const LOAN_INTEREST := [37_458_333, 31_331_187, 25_158_138, 18_938_842, 12_672_954, 6_360_124]

  lemma RoundIs(x: real, k: int)
    requires -0.5 < x - k as real < 0.5
    ensures Round(x) == k
  {
  }

  lemma LoanGrowth()
    ensures Pow(1.0 + LOAN_RATE, 6) == 3122743061054994413474171424601.0 / 2985984000000000000000000000000.0
  {
    var g := 1.0 + LOAN_RATE;
    assert g == 120_899.0 / 120_000.0;
    assert Pow(g, 0) == 1.0;
    assert Pow(g, 1) == g * Pow(g, 0);
    assert Pow(g, 2) == g * Pow(g, 1);
    assert Pow(g, 3) == g * Pow(g, 2);
    assert Pow(g, 4) == g * Pow(g, 3);
    assert Pow(g, 5) == g * Pow(g, 4);
  }

  lemma QuoteOfLoan()
    ensures CalculateAmortization(LOAN, LOAN_RATE, 6) == Quote(LOAN_PAYMENT, 131_919_579)
  {
    LoanGrowth();
    var x := ExactPayment(LOAN, LOAN_RATE, 6);
    hide Pow;
    assert x == LOAN as real * LOAN_RATE * 3122743061054994413474171424601.0 / 136759061054994413474171424601.0;
    hide ExactPayment;
    RoundIs(x, LOAN_PAYMENT);
    assert Product(x, 6.0) - LOAN as real == 6.0 * x - 5_000_000_000.0;
    RoundIs(6.0 * x - 5_000_000_000.0, 131_919_579);
  }

  lemma InterestIs(balance: int, interest: int)
    requires -60_000 < 899 * balance - 120_000 * interest < 60_000
    ensures Interest(balance, LOAN_RATE) == interest
  {
    RoundIs(balance as real * LOAN_RATE, interest);
  }

  lemma NextBalance(k: nat, balance: int, interest: int)
    requires k > 0
    ensures Balance(LOAN, LOAN_RATE, LOAN_PAYMENT, k - 1) == balance
            && Interest(balance, LOAN_RATE) == interest && balance + interest >= LOAN_PAYMENT ==>
              Balance(LOAN, LOAN_RATE, LOAN_PAYMENT, k) == balance + interest - LOAN_PAYMENT
  {
    hide Interest;
    UnfoldMonth(LOAN, LOAN_RATE, LOAN_PAYMENT, k);
  }

  lemma LoanInterest(i: nat)
    requires i < 6
    ensures ScheduleRow(LOAN, LOAN_RATE, LOAN_PAYMENT, 6, i).interest
         == LOAN_INTEREST[i]
  {
    hide Interest, Balance;
    LoanStarts();
    InterestIs(5000000000, 37458333);
    NextBalance(1, 5000000000, 37458333);
    InterestIs(4182138403, 31331187);
    NextBalance(2, 4182138403, 31331187);
    InterestIs(3358149660, 25158138);
    NextBalance(3, 3358149660, 25158138);
    InterestIs(2527987868, 18938842);
    NextBalance(4, 2527987868, 18938842);
    InterestIs(1691606780, 12672954);
    NextBalance(5, 1691606780, 12672954);
    InterestIs(848959804, 6360124);
  }

  lemma LoanStarts()
    ensures Balance(LOAN, LOAN_RATE, LOAN_PAYMENT, 0) == LOAN
  {
  }

  /** The quoted total is not the interest of the schedule: this loan is quoted 131.919579 and charged 131.919578. */
  lemma QuoteIsNotTheSchedule(rows: seq<Row>)
    requires IsSchedule(rows, LOAN, LOAN_RATE, LOAN_PAYMENT, 6)
    ensures CalculateAmortization(LOAN, LOAN_RATE, 6) == Quote(LOAN_PAYMENT, 131_919_579)
    ensures InterestPaid(rows, 6) == 131_919_578
  {
    hide ScheduleRow, CalculateAmortization;
    QuoteOfLoan();
    forall i: nat | i < 6
      ensures rows[i].interest == LOAN_INTEREST[i]
    {
      LoanInterest(i);
    }
    assert InterestPaid(rows, 1) == InterestPaid(rows, 0) + LOAN_INTEREST[0];
    assert InterestPaid(rows, 3) == InterestPaid(rows, 2) + LOAN_INTEREST[2];
    assert InterestPaid(rows, 5) == InterestPaid(rows, 4) + LOAN_INTEREST[4];
  }
}
