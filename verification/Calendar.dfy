/**
 The proleptic Gregorian calendar behind JavaScript's local `Date`, without time
 zone changes. A day is counted from 1970-01-01, a Thursday; a month is counted from
 January of year 0, so that month arithmetic never needs a separate carry.
 */
module Calendar {

  const DAY_MS := 86_400_000
  const EPOCH_DAY := 719_528

  predicate IsLeap(year: int) {
    year % 4 == 0 && (year % 100 != 0 || year % 400 == 0)
  }

  /** Days from the first of January of year 0. */
  function DaysBeforeYear(year: int): int {
    365 * year + (year + 3) / 4 - (year + 99) / 100 + (year + 399) / 400
  }

  lemma YearLength(year: int)
    ensures DaysBeforeYear(year + 1) - DaysBeforeYear(year) == if IsLeap(year) then 366 else 365
  {
    FourYears(year);
    HundredYears(year);
    FourHundredYears(year);
    CenturiesAreFourths(year);
    FourCenturiesAreCenturies(year);
  }

  lemma CenturiesAreFourths(x: int)
    ensures x % 100 == 0 ==> x % 4 == 0
  {
    if x % 100 == 0 {
      MultipleOfFour(x, 25 * (x / 100));
    }
  }

  lemma MultipleOfFour(x: int, k: int)
    requires x == 4 * k
    ensures x % 4 == 0
  {
  }

  lemma FourCenturiesAreCenturies(x: int)
    ensures x % 400 == 0 ==> x % 100 == 0
  {
    if x % 400 == 0 {
      MultipleOfHundred(x, 4 * (x / 400));
    }
  }

  lemma MultipleOfHundred(x: int, k: int)
    requires x == 100 * k
    ensures x % 100 == 0
  {
  }

  lemma FourYears(x: int)
    ensures (x + 4) / 4 - (x + 3) / 4 == if x % 4 == 0 then 1 else 0
  {
  }

  lemma HundredYears(x: int)
    ensures (x + 100) / 100 - (x + 99) / 100 == if x % 100 == 0 then 1 else 0
  {
    var q, r := x / 100, x % 100;
    assert x == 100 * q + r;
    QuotientOfHundred(x + 100, q + 1, r);
    if r == 0 {
      QuotientOfHundred(x + 99, q, 99);
    } else {
      QuotientOfHundred(x + 99, q + 1, r - 1);
    }
  }

  lemma QuotientOfHundred(x: int, q: int, r: int)
    requires x == 100 * q + r && 0 <= r < 100
    ensures x / 100 == q
  {
  }

  lemma FourHundredYears(x: int)
    ensures (x + 400) / 400 - (x + 399) / 400 == if x % 400 == 0 then 1 else 0
  {
    var q, r := x / 400, x % 400;
    assert x == 400 * q + r;
    QuotientOfFourHundred(x + 400, q + 1, r);
    if r == 0 {
      QuotientOfFourHundred(x + 399, q, 399);
    } else {
      QuotientOfFourHundred(x + 399, q + 1, r - 1);
    }
  }

  lemma QuotientOfFourHundred(x: int, q: int, r: int)
    requires x == 400 * q + r && 0 <= r < 400
    ensures x / 400 == q
  {
  }

  function DaysInMonth(year: int, month: nat): nat
    requires month < 12
  {
    if month == 1 then (if IsLeap(year) then 29 else 28)
    else if month == 3 || month == 5 || month == 8 || month == 10 then 30
    else 31
  }

  function DaysBeforeMonth(year: int, month: nat): nat
    requires month <= 12
  {
    if month == 0 then 0 else DaysBeforeMonth(year, month - 1) + DaysInMonth(year, month - 1)
  }

  /** Day number of the first of a month; months may run past a year, as `new Date(y, m, 1)` allows. */
  function FirstOfMonth(month: int): int {
    DaysBeforeYear(month / 12) + DaysBeforeMonth(month / 12, month % 12) - EPOCH_DAY
  }

  lemma DaysInYear(year: int)
    ensures DaysBeforeMonth(year, 12) == if IsLeap(year) then 366 else 365
  {
    hide IsLeap;
    assert DaysBeforeMonth(year, 1) == 31;
    assert DaysBeforeMonth(year, 2) == 31 + DaysInMonth(year, 1);
    assert DaysBeforeMonth(year, 4) == DaysBeforeMonth(year, 2) + 61;
    assert DaysBeforeMonth(year, 6) == DaysBeforeMonth(year, 4) + 61;
    assert DaysBeforeMonth(year, 8) == DaysBeforeMonth(year, 6) + 62;
    assert DaysBeforeMonth(year, 10) == DaysBeforeMonth(year, 8) + 61;
    assert DaysBeforeMonth(year, 12) == DaysBeforeMonth(year, 10) + 61;
  }

  /** Each month starts where the one before it ends. */
  lemma NextMonth(month: int)
    ensures FirstOfMonth(month + 1) == FirstOfMonth(month) + DaysInMonth(month / 12, month % 12)
  {
    var y, m := month / 12, month % 12;
    hide DaysBeforeYear, IsLeap, DaysInMonth;
    if m < 11 {
      assert (month + 1) / 12 == y && (month + 1) % 12 == m + 1;
    } else {
      assert (month + 1) / 12 == y + 1 && (month + 1) % 12 == 0;
      YearLength(y);
      DaysInYear(y);
    }
  }

  lemma EpochYear()
    ensures DaysBeforeYear(1970) == EPOCH_DAY
  {
  }

  /** Day 0 is the first of January 1970. */
  lemma EpochIsDayZero()
    ensures FirstOfMonth(12 * 1970) == 0
  {
    EpochYear();
    hide DaysBeforeYear;
    assert (12 * 1970) / 12 == 1970 && (12 * 1970) % 12 == 0;
    assert DaysBeforeMonth(1970, 0) == 0;
  }

  lemma {:induction false} MonthsIncrease(m: int, n: int)
    requires m < n
    ensures FirstOfMonth(m) + 28 <= FirstOfMonth(n)
    decreases n - m
  {
    hide FirstOfMonth;
    NextMonth(n - 1);
    if m < n - 1 {
      MonthsIncrease(m, n - 1);
    }
  }

  /** Sunday is 0 and Saturday is 6. */
  function DayOfWeek(day: int): (w: nat)
    ensures w < 7
  {
    (day + 4) % 7
  }

  /** A local clock reading; months count from 0 and days of the month from 1. */
  datatype LocalTime = LocalTime(year: int, month: nat, date: nat, ms: nat) {
    predicate Valid() {
      month < 12 && 1 <= date <= DaysInMonth(year, month) && ms < DAY_MS
    }

    function MonthNumber(): int {
      12 * year + month
    }

    function Day(): int {
      FirstOfMonth(MonthNumber()) + date - 1
    }

    /** Milliseconds since the start of 1970. */
    function Instant(): int {
      Day() * DAY_MS + ms
    }
  }

  /** A clock reading falls in its own month. */
  lemma DayInMonth(t: LocalTime)
    requires t.Valid()
    ensures FirstOfMonth(t.MonthNumber()) <= t.Day() < FirstOfMonth(t.MonthNumber() + 1)
  {
    assert t.MonthNumber() / 12 == t.year && t.MonthNumber() % 12 == t.month;
    NextMonth(t.MonthNumber());
    hide FirstOfMonth;
  }

  /** Weekdays follow one another from Thursday, the first of January 1970. */
  lemma WeekdaysAdvance(day: int)
    ensures DayOfWeek(0) == 4
    ensures DayOfWeek(day + 1) == if DayOfWeek(day) == 6 then 0 else DayOfWeek(day) + 1
  {
  }

  lemma MonthOfYear(year: int, month: nat)
    requires month < 12
    ensures FirstOfMonth(12 * year + month) == DaysBeforeYear(year) + DaysBeforeMonth(year, month) - EPOCH_DAY
  {
    hide DaysBeforeYear, DaysBeforeMonth;
    assert (12 * year + month) / 12 == year && (12 * year + month) % 12 == month;
  }

  /** The first days of the months of 1970. */
  lemma MonthStarts(month: nat)
    requires month < 12
    ensures FirstOfMonth(12 * 1970 + month) == [0, 31, 59, 90, 120, 151, 181, 212, 243, 273, 304, 334][month]
  {
    EpochYear();
    MonthOfYear(1970, month);
    hide FirstOfMonth, DaysBeforeYear;
    assert DaysBeforeMonth(1970, 2) == 59;
    assert DaysBeforeMonth(1970, 4) == 120;
    assert DaysBeforeMonth(1970, 6) == 181;
    assert DaysBeforeMonth(1970, 8) == 243;
    assert DaysBeforeMonth(1970, 10) == 304;
  }

  /** February has 29 days in 2000 and 2024, and 28 in 2100 and 2023. */
  lemma LeapDays()
    ensures FirstOfMonth(12 * 2000 + 1) == 10_988 && FirstOfMonth(12 * 2000 + 2) == 11_017
    ensures FirstOfMonth(12 * 2024 + 1) == 19_754 && FirstOfMonth(12 * 2024 + 2) == 19_783
    ensures FirstOfMonth(12 * 2100 + 1) == 47_513 && FirstOfMonth(12 * 2100 + 2) == 47_541
    ensures FirstOfMonth(12 * 2023 + 1) == 19_389 && FirstOfMonth(12 * 2023 + 2) == 19_417
  {
    hide FirstOfMonth;
    MarchOf(2000);
    MarchOf(2024);
    MarchOf(2100);
    MarchOf(2023);
  }

  lemma MarchOf(year: int)
    ensures FirstOfMonth(12 * year + 1) == DaysBeforeYear(year) + 31 - EPOCH_DAY
    ensures FirstOfMonth(12 * year + 2)
         == DaysBeforeYear(year) + 31 + (if year % 4 == 0 && (year % 100 != 0 || year % 400 == 0) then 29 else 28) - EPOCH_DAY
  {
    MonthOfYear(year, 1);
    MonthOfYear(year, 2);
    hide FirstOfMonth, DaysBeforeYear;
  }

  /** A clock reading falls in a month exactly when its year and month say so. */
  lemma MonthOfReading(t: LocalTime, month: int)
    requires t.Valid()
    ensures FirstOfMonth(month) * DAY_MS <= t.Instant() <==> month <= t.MonthNumber()
  {
    DayInMonth(t);
    InstantOfDay(FirstOfMonth(month), t.Day(), t.ms);
    hide FirstOfMonth, DaysInMonth;
    if month <= t.MonthNumber() {
      MonthsOrder(month, t.MonthNumber());
    } else {
      MonthsOrder(t.MonthNumber() + 1, month);
    }
  }

  lemma InstantOfDay(d: int, day: int, ms: nat)
    requires ms < DAY_MS
    ensures d * DAY_MS <= day * DAY_MS + ms <==> d <= day
  {
  }

  lemma MonthsOrder(m: int, n: int)
    requires m <= n
    ensures FirstOfMonth(m) <= FirstOfMonth(n)
  {
    hide FirstOfMonth;
    if m < n {
      MonthsIncrease(m, n);
    }
  }
}
