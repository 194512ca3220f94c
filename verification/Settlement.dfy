/**
 Settlement dates. A date is a day number counted from 1970-01-01, a Thursday;
 adding one to it is `setDate(getDate() + 1)`.
 */
module Settlement {
  import opened Calendar

  type Date = int

  datatype SettlementType = Cash | NextDay | Regular | TPlus5 | Future | SellerOption

  function BusinessDays(kind: SettlementType): nat {
    match kind
    case Cash => 0
    case NextDay => 1
    case Regular => 2
    case TPlus5 => 5
    case Future => 5
    case SellerOption => 3
  }

  predicate IsWeekday(d: Date) {
    DayOfWeek(d) != 0 && DayOfWeek(d) != 6
  }

  /** Number of weekdays after `start`, up to and including `end`. */
  function WeekdaysBetween(start: Date, end: Date): nat
    requires start <= end
    decreases end - start
  {
    if start == end then 0 else WeekdaysBetween(start, end - 1) + if IsWeekday(end) then 1 else 0
  }

  /** The earliest date with n weekdays after the trade date. */
  ghost predicate Settles(trade: Date, n: nat, d: Date) {
    && trade <= d
    && WeekdaysBetween(trade, d) == n
    && forall e :: trade <= e < d ==> WeekdaysBetween(trade, e) < n
  }

  method SettlementDate(trade: Date, days: nat) returns (d: Date)
    ensures Settles(trade, days, d)
  {
    d := trade;
    var count := 0;
    while count < days
      invariant trade <= d && count == WeekdaysBetween(trade, d) <= days
      invariant forall e :: trade <= e < d ==> WeekdaysBetween(trade, e) < days
      decreases 3 * (days - count) + if IsWeekday(d + 1) then 0 else if IsWeekday(d + 2) then 1 else 2
    {
      d := d + 1;
      if DayOfWeek(d) != 0 && DayOfWeek(d) != 6 {
        count := count + 1;
      }
    }
  }

  lemma SettlesOnce(trade: Date, n: nat, d: Date, d': Date)
    requires Settles(trade, n, d) && Settles(trade, n, d')
    ensures d == d'
  {
  }

  /** Calendar days added to a weekday w (Monday is 1) by n business days. */
  function WeekdayOffset(w: nat, n: nat): nat
    requires 1 <= w <= 5
  {
    n + 2 * ((w - 1 + n) / 5)
  }

  /** Calendar days added to any date: a weekend date counts from the Friday before it. */
  function Offset(trade: Date, n: nat): int {
    var w := DayOfWeek(trade);
    if n == 0 then 0
    else if w == 6 then WeekdayOffset(5, n) - 1
    else if w == 0 then WeekdayOffset(5, n) - 2
    else WeekdayOffset(w, n)
  }

  lemma DayOfWeekStep(d: Date, k: nat)
    requires k < 7
    ensures DayOfWeek(d + k) == if DayOfWeek(d) + k < 7 then DayOfWeek(d) + k else DayOfWeek(d) + k - 7
  {
  }

  lemma DivideStep(k: nat)
    ensures (k + 1) / 5 == if k % 5 == 4 then k / 5 + 1 else k / 5
    ensures (k + 1) % 5 == if k % 5 == 4 then 0 else k % 5 + 1
  {
  }

  /** The weekday counted from: a weekend date counts from the Friday before it. */
  function FirstWeekday(trade: Date): (w: nat)
    ensures 1 <= w <= 5
  {
    var w := DayOfWeek(trade);
    if w == 0 || w == 6 then 5 else w
  }

  /** Where in the working week n business days lead: Monday is 0 and Friday is 4. */
  function Position(trade: Date, n: nat): nat {
    (FirstWeekday(trade) - 1 + n) % 5
  }

  lemma PositionStep(trade: Date, n: nat)
    ensures Position(trade, n) < 5
    ensures Position(trade, n + 1) == if Position(trade, n) == 4 then 0 else Position(trade, n) + 1
  {
    DivideStep(FirstWeekday(trade) - 1 + n);
  }

  /** One more business day moves over the weekend exactly from a Friday. */
  lemma OffsetDelta(trade: Date, n: nat)
    requires n > 0 || IsWeekday(trade)
    ensures Offset(trade, n + 1) - Offset(trade, n) == if Position(trade, n) == 4 then 3 else 1
  {
    DivideStep(FirstWeekday(trade) - 1 + n);
  }

  lemma WeekendStart(trade: Date)
    requires !IsWeekday(trade)
    ensures Offset(trade, 0) == 0 && Offset(trade, 1) == if DayOfWeek(trade) == 6 then 2 else 1
    ensures Position(trade, 1) == 0
  {
  }

  /** After n business days the date is a weekday whose position is known. */
  lemma {:induction false} OffsetLandsOn(trade: Date, n: nat)
    requires n > 0 || IsWeekday(trade)
    ensures DayOfWeek(trade + Offset(trade, n)) == Position(trade, n) + 1
  {
    if n > 1 || (n == 1 && IsWeekday(trade)) {
      OffsetLandsOn(trade, n - 1);
      OffsetDelta(trade, n - 1);
      PositionStep(trade, n - 1);
      hide Offset, Position;
      LandOn(trade + Offset(trade, n - 1), Position(trade, n - 1), trade + Offset(trade, n));
    } else if n == 1 {
      WeekendStart(trade);
      hide Offset, Position;
      DayOfWeekStep(trade, 1);
      DayOfWeekStep(trade, 2);
    }
  }

  /** From the weekday at position k, one business day ahead. */
  lemma LandOn(d: Date, k: nat, d': Date)
    requires k < 5 && DayOfWeek(d) == k + 1 && d' == d + if k == 4 then 3 else 1
    ensures DayOfWeek(d') == if k == 4 then 1 else k + 2
    ensures k == 4 ==> !IsWeekday(d + 1) && !IsWeekday(d + 2)
  {
    DayOfWeekStep(d, 1);
    DayOfWeekStep(d, 2);
    DayOfWeekStep(d, 3);
    hide DayOfWeek;
  }

  /** The closed form is the settlement date, for every trade date and every count. */
  lemma {:induction false} SettlesAtOffset(trade: Date, n: nat)
    ensures Settles(trade, n, trade + Offset(trade, n))
  {
    if n == 0 {
    } else {
      SettlesAtOffset(trade, n - 1);
      OffsetStep(trade, n);
      hide Offset, IsWeekday;
      ExtendSettlement(trade, n, trade + Offset(trade, n - 1), trade + Offset(trade, n));
    }
  }

  lemma ExtendSettlement(trade: Date, n: nat, d: Date, d': Date)
    requires n > 0 && Settles(trade, n - 1, d) && d < d' <= d + 3 && IsWeekday(d')
    requires forall e :: d < e < d' ==> !IsWeekday(e)
    ensures Settles(trade, n, d')
  {
    hide IsWeekday;
    if d' >= d + 2 {
      assert WeekdaysBetween(trade, d + 1) == n - 1;
    }
    if d' == d + 3 {
      assert WeekdaysBetween(trade, d + 2) == n - 1;
    }
  }

  /** From one settlement date to the next there are only weekend days. */
  lemma OffsetStep(trade: Date, n: nat)
    requires n > 0
    ensures var d, d' := trade + Offset(trade, n - 1), trade + Offset(trade, n);
            && d < d' <= d + 3
            && IsWeekday(d')
            && forall e :: d < e < d' ==> !IsWeekday(e)
  {
    var d := trade + Offset(trade, n - 1);
    if n > 1 || IsWeekday(trade) {
      OffsetLandsOn(trade, n - 1);
      OffsetDelta(trade, n - 1);
      PositionStep(trade, n - 1);
      hide Offset, Position;
      hide DayOfWeek;
      LandOn(d, Position(trade, n - 1), trade + Offset(trade, n));
    } else {
      WeekendStart(trade);
      hide Offset, Position;
      DayOfWeekStep(trade, 1);
      DayOfWeekStep(trade, 2);
      hide DayOfWeek;
    }
  }

  /** What the settlement types mean for a trade on a Monday. */
  lemma SettlesFromMonday(trade: Date)
    requires DayOfWeek(trade) == 1
    ensures Settles(trade, BusinessDays(Cash), trade)
    ensures Settles(trade, BusinessDays(NextDay), trade + 1)
    ensures Settles(trade, BusinessDays(Regular), trade + 2)
    ensures Settles(trade, BusinessDays(SellerOption), trade + 3)
    ensures Settles(trade, BusinessDays(TPlus5), trade + 7) && Settles(trade, BusinessDays(Future), trade + 7)
  {
    hide Settles, DayOfWeek, Offset;
    SettlesFrom(trade, 0, 0);
    SettlesFrom(trade, 1, 1);
    SettlesFrom(trade, 2, 2);
    SettlesFrom(trade, 3, 3);
    SettlesFrom(trade, 5, 7);
  }

  lemma SettlesFrom(trade: Date, n: nat, days: nat)
    requires DayOfWeek(trade) == 1 && days == n + 2 * (n / 5)
    ensures Settles(trade, n, trade + days)
  {
    SettlesAtOffset(trade, n);
    hide Settles, DayOfWeek;
  }
}
