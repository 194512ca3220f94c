/**
 Variable recurring payments: spend limits per calendar day, week and month.

 A submitted payment is checked, handed to the payment bridge and stored in one step,
 which reads the clock for the validity check, once for each limit and again to store
 the payment. Authorising a consent is a step of the environment.
 */
module Vrp {
  import opened Wrappers
  import opened Money
  import opened Calendar

  datatype PeriodKind = Day | Week | Month

  datatype Limit = Limit(period: PeriodKind, maxAmount: real, currency: string)

  datatype ConsentStatus = AwaitingAuthorisation | Authorised | Revoked

  /** The validity period runs between two instants, both included. */
  datatype Consent = Consent(status: ConsentStatus, limits: seq<Limit>, validFrom: int, validTo: int)

  datatype PaymentStatus = Pending | AcceptedInProcess | AcceptedCompleted | Rejected

  datatype Payment = Payment(consentId: string, status: PaymentStatus, amount: real, currency: string, createdAt: int)

  datatype Store = Store(consents: map<string, Consent>, payments: seq<Payment>)

  /** `limitAt` is the reading for each limit, by position; `storedAt` is the last reading of all. */
  datatype Submission = Submission(
    consentId: string, amount: real, currency: string, bridgeAccepts: bool,
    at: LocalTime, limitAt: nat -> LocalTime, storedAt: LocalTime)

  datatype Error =
    | ConsentNotFound | NotAuthorised | NotStarted | Expired | BlankCurrency
    | LimitExceeded(limit: Limit) | BridgeFailed

  // ----- Calendar periods -----

  /** The day on which the current period starts; a week starts on Monday. */
  function PeriodStartDay(kind: PeriodKind, t: LocalTime): int {
    var month := FirstOfMonth(t.MonthNumber());
    match kind
    case Day => month + t.date - 1
    case Week =>
      var w := DayOfWeek(t.Day());
      month + (t.date - w + if w == 0 then -6 else 1) - 1
    case Month => month
  }

  function PeriodStart(kind: PeriodKind, t: LocalTime): int {
    PeriodStartDay(kind, t) * DAY_MS
  }

  /** The days from `first` up to but not including `end` are one calendar day, week or month. */
  ghost predicate IsPeriod(kind: PeriodKind, first: int, end: int) {
    match kind
    case Day => end == first + 1
    case Week => DayOfWeek(first) == 1 && end == first + 7
    case Month => exists m: int :: first == FirstOfMonth(m) && end == FirstOfMonth(m + 1)
  }

  predicate Falls(createdAt: int, first: int, end: int) {
    first * DAY_MS <= createdAt < end * DAY_MS
  }

  lemma FallsOnDay(t: LocalTime, first: int, end: int)
    requires t.Valid()
    ensures Falls(t.Instant(), first, end) <==> first <= t.Day() < end
  {
    hide FirstOfMonth;
  }

  lemma MondayBefore(day: int, first: int)
    requires DayOfWeek(first) == 1 && first <= day < first + 7
    ensures first == day - DayOfWeek(day) + if DayOfWeek(day) == 0 then -6 else 1
  {
    var k := day - first;
    assert (first + 4) % 7 == 1;
    assert (first + 4 + k) % 7 == (1 + k) % 7;
  }

  lemma {:induction false} SameMonth(m: int, n: int, day: int)
    ensures FirstOfMonth(m) <= day < FirstOfMonth(m + 1) && FirstOfMonth(n) <= day < FirstOfMonth(n + 1) ==> m == n
  {
    hide FirstOfMonth;
    if m + 1 < n {
      MonthsIncrease(m + 1, n);
    }
    if n + 1 < m {
      MonthsIncrease(n + 1, m);
    }
  }

  /** A payment falls in one period of each kind, and that period starts at the computed start. */
  lemma StartOfPeriod(kind: PeriodKind, t: LocalTime, first: int, end: int)
    requires t.Valid() && IsPeriod(kind, first, end) && Falls(t.Instant(), first, end)
    ensures first == PeriodStartDay(kind, t)
  {
    hide FirstOfMonth, DayOfWeek;
    FallsOnDay(t, first, end);
    match kind
    case Day =>
    case Week =>
      MondayBefore(t.Day(), first);
    case Month =>
      var m: int :| first == FirstOfMonth(m) && end == FirstOfMonth(m + 1);
      DayInMonth(t);
      SameMonth(m, t.MonthNumber(), t.Day());
  }

  lemma WeekStartsOnMonday(day: int)
    ensures var first := day - DayOfWeek(day) + if DayOfWeek(day) == 0 then -6 else 1;
            DayOfWeek(first) == 1 && first <= day < first + 7
  {
    var w := DayOfWeek(day);
    assert (day + 4) % 7 == w;
    assert (day + 4 - w) % 7 == 0;
  }

  /** The computed start begins a calendar period that holds the clock reading. */
  lemma PeriodHoldsNow(kind: PeriodKind, t: LocalTime)
    requires t.Valid()
    ensures exists end: int :: IsPeriod(kind, PeriodStartDay(kind, t), end) && Falls(t.Instant(), PeriodStartDay(kind, t), end)
  {
    hide FirstOfMonth, DayOfWeek;
    var first := PeriodStartDay(kind, t);
    var end := match kind
      case Day => first + 1
      case Week => first + 7
      case Month => FirstOfMonth(t.MonthNumber() + 1);
    WeekStartsOnMonday(t.Day());
    DayInMonth(t);
    FallsOnDay(t, first, end);
    assert IsPeriod(kind, first, end);
  }

  // ----- Totals -----

  predicate Counts(p: Payment, consentId: string, currency: string) {
    p.consentId == consentId && p.currency == currency && !p.status.Rejected?
  }

  /** What is spent under a consent in one currency since an instant. */
  function SumSince(ps: seq<Payment>, consentId: string, currency: string, start: int): real {
    if ps == [] then 0.0 else
    var p := ps[|ps| - 1];
    SumSince(ps[..|ps| - 1], consentId, currency, start)
    + if Counts(p, consentId, currency) && p.createdAt >= start then p.amount else 0.0
  }

  /** What is spent in a period of days. */
  function SumIn(ps: seq<Payment>, consentId: string, currency: string, first: int, end: int): real {
    if ps == [] then 0.0 else
    var p := ps[|ps| - 1];
    SumIn(ps[..|ps| - 1], consentId, currency, first, end)
    + if Counts(p, consentId, currency) && Falls(p.createdAt, first, end) then p.amount else 0.0
  }

  ghost predicate AnyIn(ps: seq<Payment>, consentId: string, currency: string, first: int, end: int) {
    exists k :: 0 <= k < |ps| && Counts(ps[k], consentId, currency) && Falls(ps[k].createdAt, first, end)
  }

  /** While nothing is stored after a period's end, the sum since its start is its total. */
  lemma {:induction false} SumSinceStart(ps: seq<Payment>, consentId: string, currency: string, first: int, end: int)
    requires forall k :: 0 <= k < |ps| ==> ps[k].createdAt < end * DAY_MS
    ensures SumSince(ps, consentId, currency, first * DAY_MS) == SumIn(ps, consentId, currency, first, end)
  {
    if ps == [] {
    } else {
      SumSinceStart(ps[..|ps| - 1], consentId, currency, first, end);
    }
  }

  lemma {:induction false} NothingSpent(ps: seq<Payment>, consentId: string, currency: string, first: int, end: int)
    requires !AnyIn(ps, consentId, currency, first, end)
    ensures SumIn(ps, consentId, currency, first, end) == 0.0
  {
    if ps == [] {
    } else {
      assert !(Counts(ps[|ps| - 1], consentId, currency) && Falls(ps[|ps| - 1].createdAt, first, end));
      NothingSpent(ps[..|ps| - 1], consentId, currency, first, end);
    }
  }

  // ----- Steps -----

  function Spent(s: Store, sub: Submission, kind: PeriodKind, now: LocalTime): real {
    SumSince(s.payments, sub.consentId, sub.currency, PeriodStart(kind, now))
  }

  /** The amounts are compared whatever currency the limit is in. */
  predicate Exceeds(s: Store, sub: Submission, limit: Limit, now: LocalTime) {
    Spent(s, sub, limit.period, now) + sub.amount > limit.maxAmount
  }

  ghost predicate WithinLimits(s: Store, sub: Submission, limits: seq<Limit>) {
    forall i: nat :: i < |limits| ==> !Exceeds(s, sub, limits[i], sub.limitAt(i))
  }

  predicate Payable(s: Store, sub: Submission) {
    && sub.consentId in s.consents
    && s.consents[sub.consentId].status.Authorised?
    && s.consents[sub.consentId].validFrom <= sub.at.Instant() <= s.consents[sub.consentId].validTo
    && !Blank(sub.currency)
  }

  ghost predicate Accepted(s: Store, sub: Submission) {
    Payable(s, sub) && WithinLimits(s, sub, s.consents[sub.consentId].limits) && sub.bridgeAccepts
  }

  function PaymentOf(sub: Submission): Payment {
    Payment(sub.consentId, AcceptedInProcess, sub.amount, sub.currency, sub.storedAt.Instant())
  }

  datatype Request =
    | Create(id: string, limits: seq<Limit>, validFrom: int, validTo: int)
    | Authorise(id: string)
    | Delete(id: string)
    | Submit(sub: Submission)

  predicate AnyBlank(limits: seq<Limit>) {
    exists i :: 0 <= i < |limits| && Blank(limits[i].currency)
  }

  function WithStatus(s: Store, id: string, status: ConsentStatus): Store {
    if id in s.consents then s.(consents := s.consents[id := s.consents[id].(status := status)]) else s
  }

  /** A consent takes an identifier that is not in use. */
  ghost function Step(s: Store, r: Request): Store {
    match r
    case Create(id, limits, validFrom, validTo) =>
      if id in s.consents || AnyBlank(limits) then s
      else s.(consents := s.consents[id := Consent(AwaitingAuthorisation, limits, validFrom, validTo)])
    case Authorise(id) => WithStatus(s, id, Authorised)
    case Delete(id) => WithStatus(s, id, Revoked)
    case Submit(sub) => if Accepted(s, sub) then s.(payments := s.payments + [PaymentOf(sub)]) else s
  }

  const EMPTY := Store(map[], [])

  ghost function Run(rs: seq<Request>): Store {
    if |rs| == 0 then EMPTY else Step(Run(rs[..|rs| - 1]), rs[|rs| - 1])
  }

  /** The latest clock reading. */
  function ClockAfter(clock: Option<int>, r: Request): Option<int> {
    if r.Submit? then Some(r.sub.storedAt.Instant()) else clock
  }

  function Clock(rs: seq<Request>): Option<int> {
    if |rs| == 0 then None else ClockAfter(Clock(rs[..|rs| - 1]), rs[|rs| - 1])
  }

  /** The readings of a submission follow the clock and come before its last one. */
  ghost predicate OnTime(clock: Option<int>, r: Request) {
    r.Submit? ==>
      && r.sub.at.Valid() && r.sub.storedAt.Valid()
      && (clock.None? || clock.value <= r.sub.at.Instant())
      && r.sub.at.Instant() <= r.sub.storedAt.Instant()
      && forall i: nat :: InOrder(r.sub, r.sub.limitAt(i))
  }

  predicate InOrder(sub: Submission, now: LocalTime) {
    now.Valid() && sub.at.Instant() <= now.Instant() <= sub.storedAt.Instant()
  }

  /** The clock never runs backwards. */
  ghost predicate Timely(rs: seq<Request>) {
    |rs| == 0 || (Timely(rs[..|rs| - 1]) && OnTime(Clock(rs[..|rs| - 1]), rs[|rs| - 1]))
  }

  /** Two readings fall in the same period. */
  predicate SamePeriod(kind: PeriodKind, t: LocalTime, t': LocalTime) {
    PeriodStartDay(kind, t) == PeriodStartDay(kind, t')
  }

  /**
   A submission is regular when, for every limit, no new period starts between the
   limit's check and the store, or its amount alone is within the limit.
   */
  ghost predicate Regular(sub: Submission, limits: seq<Limit>) {
    forall i: nat :: i < |limits| ==> RegularFor(sub, limits[i], sub.limitAt(i))
  }

  predicate RegularFor(sub: Submission, limit: Limit, now: LocalTime) {
    SamePeriod(limit.period, now, sub.storedAt) || sub.amount <= limit.maxAmount
  }

  ghost predicate RegularStep(s: Store, r: Request) {
    r.Submit? && Accepted(s, r.sub) ==> Regular(r.sub, s.consents[r.sub.consentId].limits)
  }

  /** Every accepted submission is regular. */
  ghost predicate RegularRun(rs: seq<Request>) {
    |rs| == 0 || (RegularRun(rs[..|rs| - 1]) && RegularStep(Run(rs[..|rs| - 1]), rs[|rs| - 1]))
  }

  // ----- Limits hold in every run -----

  /** One limit of a consent, in one currency and one calendar period. */
  ghost predicate LimitKept(ps: seq<Payment>, consentId: string, limit: Limit, currency: string, first: int, end: int) {
    AnyIn(ps, consentId, currency, first, end) ==> SumIn(ps, consentId, currency, first, end) <= limit.maxAmount
  }

  ghost predicate LimitsKept(ps: seq<Payment>, consentId: string, limits: seq<Limit>) {
    forall i, currency: string, first: int, end: int ::
      0 <= i < |limits| && IsPeriod(limits[i].period, first, end) ==>
      LimitKept(ps, consentId, limits[i], currency, first, end)
  }

  ghost predicate AllLimitsKept(s: Store) {
    forall id :: id in s.consents ==> LimitsKept(s.payments, id, s.consents[id].limits)
  }

  /** Payments belong to consents and none comes after the clock. */
  ghost predicate Booked(s: Store, clock: Option<int>) {
    && (forall k :: 0 <= k < |s.payments| ==> s.payments[k].consentId in s.consents)
    && Past(s.payments, clock)
  }

  ghost predicate Past(ps: seq<Payment>, clock: Option<int>) {
    forall k :: 0 <= k < |ps| ==> clock.Some? && ps[k].createdAt <= clock.value
  }

  lemma SumInAppend(ps: seq<Payment>, p: Payment, consentId: string, currency: string, first: int, end: int)
    ensures SumIn(ps + [p], consentId, currency, first, end)
         == SumIn(ps, consentId, currency, first, end)
            + if Counts(p, consentId, currency) && Falls(p.createdAt, first, end) then p.amount else 0.0
    ensures AnyIn(ps + [p], consentId, currency, first, end) <==>
            AnyIn(ps, consentId, currency, first, end)
            || (Counts(p, consentId, currency) && Falls(p.createdAt, first, end))
  {
    assert (ps + [p])[..|ps|] == ps;
    assert (ps + [p])[|ps|] == p;
    assert forall k :: 0 <= k < |ps| ==> (ps + [p])[k] == ps[k];
  }

  /** A reading before a period that holds a later one comes before all of it. */
  lemma EarlierPeriod(kind: PeriodKind, t: LocalTime, stored: LocalTime, first: int, end: int)
    requires t.Valid() && stored.Valid() && t.Instant() <= stored.Instant()
    ensures IsPeriod(kind, first, end) && Falls(stored.Instant(), first, end) ==>
              && first == PeriodStartDay(kind, stored)
              && (SamePeriod(kind, t, stored) <==> Falls(t.Instant(), first, end))
              && (!SamePeriod(kind, t, stored) ==> t.Instant() < first * DAY_MS)
  {
    hide IsPeriod, PeriodStartDay, LocalTime.Instant, LocalTime.Valid;
    if IsPeriod(kind, first, end) && Falls(stored.Instant(), first, end) {
      StartOfPeriod(kind, stored, first, end);
      if Falls(t.Instant(), first, end) {
        StartOfPeriod(kind, t, first, end);
      }
      PeriodHoldsNow(kind, t);
      if SamePeriod(kind, t, stored) {
        var end' :| IsPeriod(kind, first, end') && Falls(t.Instant(), first, end');
      }
    }
  }

  lemma {:induction false} NothingYet(ps: seq<Payment>, consentId: string, currency: string, first: int, end: int)
    requires forall k :: 0 <= k < |ps| ==> ps[k].createdAt < first * DAY_MS
    ensures SumIn(ps, consentId, currency, first, end) == 0.0
  {
    if ps == [] {
    } else {
      NothingYet(ps[..|ps| - 1], consentId, currency, first, end);
    }
  }

  /** A regular accepted payment keeps one limit in one period. */
  lemma AcceptedKeepsLimit(
    s: Store, clock: Option<int>, sub: Submission, limit: Limit, now: LocalTime, currency: string, first: int, end: int)
    requires OnTime(clock, Submit(sub)) && InOrder(sub, now) && Past(s.payments, clock)
    ensures !Exceeds(s, sub, limit, now) && RegularFor(sub, limit, now) && IsPeriod(limit.period, first, end)
            && LimitKept(s.payments, sub.consentId, limit, currency, first, end)
            ==> LimitKept(s.payments + [PaymentOf(sub)], sub.consentId, limit, currency, first, end)
  {
    hide SumIn, SumSince, AnyIn, IsPeriod, PeriodStartDay, LocalTime.Instant, LocalTime.Valid;
    SumInAppend(s.payments, PaymentOf(sub), sub.consentId, currency, first, end);
    if IsPeriod(limit.period, first, end) && currency == sub.currency && Falls(sub.storedAt.Instant(), first, end) {
      EarlierPeriod(limit.period, now, sub.storedAt, first, end);
      if SamePeriod(limit.period, now, sub.storedAt) {
        SumSinceStart(s.payments, sub.consentId, currency, first, end);
      } else {
        NothingYet(s.payments, sub.consentId, currency, first, end);
      }
    }
  }

  /** A submission checked at one reading is stored in a calendar period after all earlier payments. */
  ghost predicate StoredIn(
    s: Store, clock: Option<int>, sub: Submission, now: LocalTime, kind: PeriodKind, first: int, end: int)
  {
    && OnTime(clock, Submit(sub)) && InOrder(sub, now) && Past(s.payments, clock)
    && IsPeriod(kind, first, end) && Falls(sub.storedAt.Instant(), first, end)
  }

  /**
   The first payment stored in a new period keeps a limit of that period exactly when
   its own amount is within the limit, whatever the check saw of the period before.
   */
  lemma NewPeriodExactly(
    s: Store, clock: Option<int>, sub: Submission, limit: Limit, now: LocalTime, first: int, end: int)
    ensures StoredIn(s, clock, sub, now, limit.period, first, end) && !SamePeriod(limit.period, now, sub.storedAt) ==>
              (LimitKept(s.payments + [PaymentOf(sub)], sub.consentId, limit, sub.currency, first, end) <==>
               sub.amount <= limit.maxAmount)
  {
    hide SumIn, SumSince, AnyIn, IsPeriod, PeriodStartDay, LocalTime.Instant, LocalTime.Valid;
    if StoredIn(s, clock, sub, now, limit.period, first, end) && !SamePeriod(limit.period, now, sub.storedAt) {
      SumInAppend(s.payments, PaymentOf(sub), sub.consentId, sub.currency, first, end);
      EarlierPeriod(limit.period, now, sub.storedAt, first, end);
      NothingYet(s.payments, sub.consentId, sub.currency, first, end);
    }
  }

  lemma OthersKeepLimits(ps: seq<Payment>, p: Payment, consentId: string, limits: seq<Limit>)
    requires LimitsKept(ps, consentId, limits) && p.consentId != consentId
    ensures LimitsKept(ps + [p], consentId, limits)
  {
    hide SumIn, AnyIn, IsPeriod;
    forall i, currency: string, first: int, end: int
      | 0 <= i < |limits| && IsPeriod(limits[i].period, first, end)
      ensures LimitKept(ps + [p], consentId, limits[i], currency, first, end)
    {
      assert LimitKept(ps, consentId, limits[i], currency, first, end);
      SumInAppend(ps, p, consentId, currency, first, end);
    }
  }

  lemma SubmitKeeps(s: Store, clock: Option<int>, sub: Submission)
    requires AllLimitsKept(s) && Booked(s, clock) && OnTime(clock, Submit(sub)) && Accepted(s, sub)
    requires Regular(sub, s.consents[sub.consentId].limits)
    ensures AllLimitsKept(s.(payments := s.payments + [PaymentOf(sub)]))
  {
    hide LimitKept, IsPeriod, Exceeds, RegularFor, InOrder, LocalTime.Instant, LocalTime.Valid;
    var ps := s.payments + [PaymentOf(sub)];
    forall id | id in s.consents
      ensures LimitsKept(ps, id, s.consents[id].limits)
    {
      if id != sub.consentId {
        OthersKeepLimits(s.payments, PaymentOf(sub), id, s.consents[id].limits);
      } else {
        var limits := s.consents[id].limits;
        forall i, currency: string, first: int, end: int
          | 0 <= i < |limits| && IsPeriod(limits[i].period, first, end)
          ensures LimitKept(ps, id, limits[i], currency, first, end)
        {
          AcceptedKeepsLimit(s, clock, sub, limits[i], sub.limitAt(i), currency, first, end);
        }
      }
    }
  }

  lemma NoPaymentsKeepLimits(ps: seq<Payment>, consentId: string, limits: seq<Limit>)
    requires forall k :: 0 <= k < |ps| ==> ps[k].consentId != consentId
    ensures LimitsKept(ps, consentId, limits)
  {
    hide SumIn, IsPeriod;
  }

  lemma StepBooks(s: Store, clock: Option<int>, r: Request)
    requires Booked(s, clock) && OnTime(clock, r)
    ensures Booked(Step(s, r), ClockAfter(clock, r))
  {
    hide LocalTime.Instant, LocalTime.Valid, Blank, WithinLimits;
  }

  /** Every step with a regular submission keeps every limit of every consent. */
  lemma StepKeeps(s: Store, clock: Option<int>, r: Request)
    requires AllLimitsKept(s) && Booked(s, clock) && OnTime(clock, r) && RegularStep(s, r)
    ensures AllLimitsKept(Step(s, r))
  {
    hide LimitsKept, LocalTime.Instant, LocalTime.Valid, Blank, Regular, WithinLimits;
    match r
    case Create(id, limits, _, _) =>
      if id !in s.consents {
        NoPaymentsKeepLimits(s.payments, id, limits);
      }
    case Authorise(_) =>
    case Delete(_) =>
    case Submit(sub) =>
      if Accepted(s, sub) {
        SubmitKeeps(s, clock, sub);
      }
  }

  lemma {:induction false} RunBooks(rs: seq<Request>)
    requires Timely(rs)
    ensures Booked(Run(rs), Clock(rs))
  {
    if |rs| == 0 {
    } else {
      RunBooks(rs[..|rs| - 1]);
      hide Booked, Step, OnTime;
      StepBooks(Run(rs[..|rs| - 1]), Clock(rs[..|rs| - 1]), rs[|rs| - 1]);
    }
  }

  lemma {:induction false} RunKeeps(rs: seq<Request>)
    requires Timely(rs) && RegularRun(rs)
    ensures AllLimitsKept(Run(rs))
  {
    if |rs| == 0 {
    } else {
      RunKeeps(rs[..|rs| - 1]);
      RunBooks(rs[..|rs| - 1]);
      hide AllLimitsKept, Booked, Step, OnTime, RegularStep;
      StepKeeps(Run(rs[..|rs| - 1]), Clock(rs[..|rs| - 1]), rs[|rs| - 1]);
    }
  }

  /**
   In every serial run of regular submissions with a clock that never runs backwards,
   whatever is spent under a consent in one currency in a calendar day, Monday-to-Sunday
   week or month stays within each of the consent's limits of that kind, however the
   payments are spread.
   */
  lemma SpendWithinLimits(
    rs: seq<Request>, consentId: string, limit: Limit, currency: string, first: int, end: int)
    requires Timely(rs) && RegularRun(rs)
    ensures var s := Run(rs);
            IsPeriod(limit.period, first, end) && consentId in s.consents && limit in s.consents[consentId].limits ==>
              (AnyIn(s.payments, consentId, currency, first, end) || limit.maxAmount >= 0.0 ==>
                 SumIn(s.payments, consentId, currency, first, end) <= limit.maxAmount)
  {
    hide IsPeriod, SumIn, AnyIn, Run, Timely, RegularRun;
    RunKeeps(rs);
    var s := Run(rs);
    if IsPeriod(limit.period, first, end) && consentId in s.consents && limit in s.consents[consentId].limits {
      var i :| 0 <= i < |s.consents[consentId].limits| && s.consents[consentId].limits[i] == limit;
      assert LimitKept(s.payments, consentId, limit, currency, first, end);
      if !AnyIn(s.payments, consentId, currency, first, end) {
        NothingSpent(s.payments, consentId, currency, first, end);
      }
    }
  }

  // ----- Which runs are regular -----

  /** Every reading of each submission is the same. */
  ghost predicate OneReading(rs: seq<Request>) {
    forall k :: 0 <= k < |rs| && rs[k].Submit? ==> forall i: nat :: rs[k].sub.limitAt(i) == rs[k].sub.storedAt
  }

  ghost predicate NoNegativeAmounts(rs: seq<Request>) {
    forall k :: 0 <= k < |rs| && rs[k].Submit? ==> rs[k].sub.amount >= 0.0
  }

  lemma {:induction false} OneReadingIsRegular(rs: seq<Request>)
    requires OneReading(rs)
    ensures RegularRun(rs)
  {
    if |rs| == 0 {
    } else {
      OneReadingIsRegular(rs[..|rs| - 1]);
      hide Accepted, PeriodStartDay;
    }
  }

  lemma {:induction false} SumNonNegative(ps: seq<Payment>, consentId: string, currency: string, start: int)
    requires forall k :: 0 <= k < |ps| ==> ps[k].amount >= 0.0
    ensures SumSince(ps, consentId, currency, start) >= 0.0
  {
    if ps == [] {
    } else {
      SumNonNegative(ps[..|ps| - 1], consentId, currency, start);
    }
  }

  ghost predicate AmountsNonNegative(ps: seq<Payment>) {
    forall k :: 0 <= k < |ps| ==> ps[k].amount >= 0.0
  }

  /** With no refunds on record, an accepted amount is within every limit by itself. */
  lemma AcceptedIsRegular(s: Store, sub: Submission)
    requires Accepted(s, sub) && AmountsNonNegative(s.payments)
    ensures Regular(sub, s.consents[sub.consentId].limits)
  {
    hide SumSince, PeriodStart, SamePeriod;
    var limits := s.consents[sub.consentId].limits;
    forall i: nat | i < |limits|
      ensures RegularFor(sub, limits[i], sub.limitAt(i))
    {
      assert !Exceeds(s, sub, limits[i], sub.limitAt(i));
      SumNonNegative(s.payments, sub.consentId, sub.currency, PeriodStart(limits[i].period, sub.limitAt(i)));
    }
  }

  lemma {:induction false} NoNegativeAmountsStay(rs: seq<Request>)
    requires NoNegativeAmounts(rs)
    ensures AmountsNonNegative(Run(rs).payments)
  {
    if |rs| == 0 {
    } else {
      NoNegativeAmountsStay(rs[..|rs| - 1]);
      hide Accepted, AnyBlank;
    }
  }

  /** Runs without negative amounts are regular, whenever their clocks are read. */
  lemma {:induction false} NonNegativeIsRegular(rs: seq<Request>)
    requires NoNegativeAmounts(rs)
    ensures RegularRun(rs)
  {
    if |rs| == 0 {
    } else {
      var init, r := rs[..|rs| - 1], rs[|rs| - 1];
      NonNegativeIsRegular(init);
      NoNegativeAmountsStay(init);
      hide Regular, Run;
      if r.Submit? && Accepted(Run(init), r.sub) {
        AcceptedIsRegular(Run(init), r.sub);
      }
    }
  }

  /** What the check of a limit adds up is what was spent so far in the calendar period of its clock reading. */
  lemma CheckSeesPeriod(
    s: Store, clock: Option<int>, sub: Submission, kind: PeriodKind, now: LocalTime, first: int, end: int)
    requires OnTime(clock, Submit(sub)) && InOrder(sub, now)
    ensures Past(s.payments, clock) && IsPeriod(kind, first, end) && Falls(now.Instant(), first, end) ==>
              SumSince(s.payments, sub.consentId, sub.currency, PeriodStart(kind, now))
                == SumIn(s.payments, sub.consentId, sub.currency, first, end)
  {
    hide SumIn, SumSince, IsPeriod, PeriodStartDay, LocalTime.Instant, LocalTime.Valid;
    if Past(s.payments, clock) && IsPeriod(kind, first, end) && Falls(now.Instant(), first, end) {
      StartOfPeriod(kind, now, first, end);
      SumSinceStart(s.payments, sub.consentId, sub.currency, first, end);
    }
  }

  // ----- One currency under several spellings -----

  /** A payment in a currency, however its code was written. */
  predicate CountsAlike(p: Payment, consentId: string, code: string) {
    p.consentId == consentId && Normalised(p.currency) == code && !p.status.Rejected?
  }

  /** What is spent in a period in a currency, over all spellings of its code. */
  function SumAlike(ps: seq<Payment>, consentId: string, code: string, first: int, end: int): real {
    if ps == [] then 0.0 else
    var p := ps[|ps| - 1];
    SumAlike(ps[..|ps| - 1], consentId, code, first, end)
    + if CountsAlike(p, consentId, code) && Falls(p.createdAt, first, end) then p.amount else 0.0
  }

  /** What is spent in a period under other spellings of a code. */
  function SumOther(ps: seq<Payment>, consentId: string, currency: string, first: int, end: int): real {
    if ps == [] then 0.0 else
    var p := ps[|ps| - 1];
    SumOther(ps[..|ps| - 1], consentId, currency, first, end)
    + if CountsAlike(p, consentId, Normalised(currency)) && p.currency != currency && Falls(p.createdAt, first, end)
      then p.amount else 0.0
  }

  lemma {:induction false} AlikeSplits(ps: seq<Payment>, consentId: string, currency: string, first: int, end: int)
    ensures SumAlike(ps, consentId, Normalised(currency), first, end)
         == SumIn(ps, consentId, currency, first, end) + SumOther(ps, consentId, currency, first, end)
  {
    hide Normalised, Falls;
    if ps == [] {
    } else {
      AlikeSplits(ps[..|ps| - 1], consentId, currency, first, end);
    }
  }

  lemma SumAlikeAppend(ps: seq<Payment>, p: Payment, consentId: string, code: string, first: int, end: int)
    ensures SumAlike(ps + [p], consentId, code, first, end)
         == SumAlike(ps, consentId, code, first, end)
            + if CountsAlike(p, consentId, code) && Falls(p.createdAt, first, end) then p.amount else 0.0
  {
    assert (ps + [p])[..|ps|] == ps;
  }

  /**
   A stored payment keeps its currency's total within a limit exactly when what was
   spent in its own spelling, which the check sees, its amount, and what was spent in
   other spellings, which the check does not see, together stay within the limit.
   */
  lemma SpellingsExactly(
    s: Store, clock: Option<int>, sub: Submission, limit: Limit, now: LocalTime, first: int, end: int)
    ensures StoredIn(s, clock, sub, now, limit.period, first, end) && SamePeriod(limit.period, now, sub.storedAt) ==>
              (SumAlike(s.payments + [PaymentOf(sub)], sub.consentId, Normalised(sub.currency), first, end)
               <= limit.maxAmount
               <==> Spent(s, sub, limit.period, now) + sub.amount
                    + SumOther(s.payments, sub.consentId, sub.currency, first, end) <= limit.maxAmount)
  {
    hide SumIn, SumSince, SumAlike, SumOther, IsPeriod, PeriodStartDay, LocalTime.Instant, LocalTime.Valid, Normalised;
    if StoredIn(s, clock, sub, now, limit.period, first, end) && SamePeriod(limit.period, now, sub.storedAt) {
      SumAlikeAppend(s.payments, PaymentOf(sub), sub.consentId, Normalised(sub.currency), first, end);
      AlikeSplits(s.payments, sub.consentId, sub.currency, first, end);
      EarlierPeriod(limit.period, now, sub.storedAt, first, end);
      SumSinceStart(s.payments, sub.consentId, sub.currency, first, end);
    }
  }

  /** Submissions whose codes normalise alike write them alike. */
  ghost predicate OneSpelling(rs: seq<Request>) {
    forall j, k :: 0 <= j < |rs| && 0 <= k < |rs| && rs[j].Submit? && rs[k].Submit? ==>
      SpeltAlike(rs[j].sub.currency, rs[k].sub.currency)
  }

  predicate SpeltAlike(a: string, b: string) {
    Normalised(a) == Normalised(b) ==> a == b
  }

  ghost predicate Submitted(rs: seq<Request>, currency: string) {
    exists k :: 0 <= k < |rs| && rs[k].Submit? && rs[k].sub.currency == currency
  }

  lemma {:induction false} PaymentsWereSubmitted(rs: seq<Request>)
    ensures forall p :: p in Run(rs).payments ==> Submitted(rs, p.currency)
  {
    if |rs| == 0 {
    } else {
      var init, r := rs[..|rs| - 1], rs[|rs| - 1];
      PaymentsWereSubmitted(init);
      hide Accepted, AnyBlank;
      forall p | p in Run(rs).payments
        ensures Submitted(rs, p.currency)
      {
        if p in Run(init).payments {
          var k :| 0 <= k < |init| && init[k].Submit? && init[k].sub.currency == p.currency;
          assert rs[k] == init[k];
        } else {
          assert r.Submit? && p == PaymentOf(r.sub);
        }
      }
    }
  }

  ghost predicate OneSpellingPaid(ps: seq<Payment>, currency: string) {
    forall p :: p in ps ==> SpeltAlike(p.currency, currency)
  }

  lemma {:induction false} NoOtherSpelling(ps: seq<Payment>, consentId: string, currency: string, first: int, end: int)
    requires OneSpellingPaid(ps, currency)
    ensures SumOther(ps, consentId, currency, first, end) == 0.0
  {
    hide Normalised;
    if ps == [] {
    } else {
      NoOtherSpelling(ps[..|ps| - 1], consentId, currency, first, end);
      assert ps[|ps| - 1] in ps;
    }
  }

  lemma {:induction false} NothingAlike(ps: seq<Payment>, consentId: string, code: string, first: int, end: int)
    requires forall p :: p in ps ==> !(CountsAlike(p, consentId, code) && Falls(p.createdAt, first, end))
    ensures SumAlike(ps, consentId, code, first, end) == 0.0
  {
    if ps == [] {
    } else {
      NothingAlike(ps[..|ps| - 1], consentId, code, first, end);
      assert ps[|ps| - 1] in ps;
    }
  }

  ghost predicate AnyAlike(ps: seq<Payment>, consentId: string, code: string, first: int, end: int) {
    exists p :: p in ps && CountsAlike(p, consentId, code) && Falls(p.createdAt, first, end)
  }

  /**
   When each currency is written in one way, every limit of a consent also holds for the
   currency itself, in every regular run.
   */
  lemma OneSpellingWithinLimits(
    rs: seq<Request>, consentId: string, limit: Limit, code: string, first: int, end: int)
    requires Timely(rs) && RegularRun(rs)
    ensures var s := Run(rs);
            OneSpelling(rs) && IsPeriod(limit.period, first, end)
            && consentId in s.consents && limit in s.consents[consentId].limits ==>
              (AnyAlike(s.payments, consentId, code, first, end) || limit.maxAmount >= 0.0 ==>
                 SumAlike(s.payments, consentId, code, first, end) <= limit.maxAmount)
  {
    hide IsPeriod, SumIn, SumAlike, SumOther, Run, Timely, RegularRun, Normalised, Falls;
    var ps := Run(rs).payments;
    if !OneSpelling(rs) {
    } else if p :| p in ps && CountsAlike(p, consentId, code) && Falls(p.createdAt, first, end) {
      PaymentsWereSubmitted(rs);
      var k :| 0 <= k < |ps| && ps[k] == p;
      assert Counts(ps[k], consentId, p.currency) && AnyIn(ps, consentId, p.currency, first, end);
      assert OneSpellingPaid(ps, p.currency);
      NoOtherSpelling(ps, consentId, p.currency, first, end);
      AlikeSplits(ps, consentId, p.currency, first, end);
      SpendWithinLimits(rs, consentId, limit, p.currency, first, end);
    } else {
      NothingAlike(ps, consentId, code, first, end);
    }
  }

  /** What a limit allows does not depend on the limit's own currency. */
  lemma LimitIgnoresCurrency(s: Store, sub: Submission, limit: Limit, now: LocalTime, code: string)
    ensures Exceeds(s, sub, limit, now) <==> Exceeds(s, sub, limit.(currency := code), now)
  {
  }

  // ----- Consents over a request list -----

  /** A request that stores a consent when its identifier is free. */
  predicate Creates(r: Request, id: string) {
    r.Create? && r.id == id && forall i :: 0 <= i < |r.limits| ==> !Blank(r.limits[i].currency)
  }

  /** The first such request for an identifier. */
  ghost predicate FirstCreates(rs: seq<Request>, id: string, c: nat) {
    c < |rs| && Creates(rs[c], id) && forall k :: 0 <= k < c ==> !Creates(rs[k], id)
  }

  /** After the consent was stored it was authorised, and not deleted since. */
  ghost predicate StandsAuthorised(rs: seq<Request>, id: string) {
    exists c: nat, k: nat :: AuthorisedAt(rs, id, c, k)
  }

  ghost predicate AuthorisedAt(rs: seq<Request>, id: string, c: nat, k: nat) {
    && FirstCreates(rs, id, c) && c < k < |rs|
    && rs[k].Authorise? && rs[k].id == id
    && forall j :: k < j < |rs| ==> !(rs[j].Delete? && rs[j].id == id)
  }

  ghost predicate StandsRevoked(rs: seq<Request>, id: string) {
    exists c: nat, k: nat :: RevokedAt(rs, id, c, k)
  }

  ghost predicate RevokedAt(rs: seq<Request>, id: string, c: nat, k: nat) {
    && FirstCreates(rs, id, c) && c < k < |rs|
    && rs[k].Delete? && rs[k].id == id
    && forall j :: k < j < |rs| ==> !(rs[j].Authorise? && rs[j].id == id)
  }

  lemma FirstStays(rs: seq<Request>, r: Request, id: string, c: nat)
    ensures FirstCreates(rs + [r], id, c) <==>
            FirstCreates(rs, id, c)
            || (c == |rs| && Creates(r, id) && forall k :: 0 <= k < |rs| ==> !Creates(rs[k], id))
  {
    hide Creates;
    assert forall k :: 0 <= k < |rs| ==> (rs + [r])[k] == rs[k];
  }

  lemma OnlyOneFirst(rs: seq<Request>, id: string, c: nat, c': nat)
    requires FirstCreates(rs, id, c) && FirstCreates(rs, id, c')
    ensures c == c'
  {
    hide Creates;
  }

  /** In every run, what is stored of a consent was given by the first request that could store it. */
  lemma {:induction false} TermsAsCreated(rs: seq<Request>, id: string)
    ensures id in Run(rs).consents <==> exists c: nat :: FirstCreates(rs, id, c)
    ensures forall c: nat :: FirstCreates(rs, id, c) ==>
              && id in Run(rs).consents
              && Run(rs).consents[id].limits == rs[c].limits
              && Run(rs).consents[id].validFrom == rs[c].validFrom
              && Run(rs).consents[id].validTo == rs[c].validTo
  {
    if |rs| == 0 {
    } else {
      var init, r := rs[..|rs| - 1], rs[|rs| - 1];
      TermsAsCreated(init, id);
      assert rs == init + [r];
      NoneCreated(init, id);
      forall c: nat
        ensures FirstCreates(rs, id, c) <==>
                FirstCreates(init, id, c)
                || (c == |init| && Creates(r, id) && forall k :: 0 <= k < |init| ==> !Creates(init[k], id))
      {
        FirstStays(init, r, id, c);
      }
      FirstIsInside(init, id);
      StepOnConsent(Run(init), r, id);
      hide FirstCreates, Step, Creates;
      if c: nat :| FirstCreates(init, id, c) {
        assert FirstCreates(rs, id, c);
      } else if Creates(r, id) {
        assert FirstCreates(rs, id, |init|);
      }
    }
  }

  lemma FirstIsInside(rs: seq<Request>, id: string)
    ensures forall c: nat :: FirstCreates(rs, id, c) ==> c < |rs|
  {
  }

  lemma {:induction false} NoneCreated(rs: seq<Request>, id: string)
    ensures (exists c: nat :: FirstCreates(rs, id, c)) <==> exists k :: 0 <= k < |rs| && Creates(rs[k], id)
  {
    if k :| 0 <= k < |rs| && Creates(rs[k], id) {
      FirstBefore(rs, id, k);
    }
  }

  lemma {:induction false} FirstBefore(rs: seq<Request>, id: string, k: nat)
    requires k < |rs| && Creates(rs[k], id)
    ensures exists c: nat :: FirstCreates(rs, id, c)
  {
    hide Creates;
    if j: nat :| j < k && Creates(rs[j], id) {
      FirstBefore(rs, id, j);
    } else {
      assert FirstCreates(rs, id, k);
    }
  }

  /** What one request does to one consent. */
  lemma StepOnConsent(s: Store, r: Request, id: string)
    ensures id in s.consents ==>
              && id in Step(s, r).consents
              && Step(s, r).consents[id]
                   == s.consents[id].(status :=
                        if r.Authorise? && r.id == id then Authorised
                        else if r.Delete? && r.id == id then Revoked
                        else s.consents[id].status)
    ensures id !in s.consents ==>
              if Creates(r, id)
              then && id in Step(s, r).consents
                   && Step(s, r).consents[id] == Consent(AwaitingAuthorisation, r.limits, r.validFrom, r.validTo)
              else id !in Step(s, r).consents
  {
    hide Accepted, Blank;
  }

  /** One request keeps or changes where a consent stands. */
  lemma StandsAfter(rs: seq<Request>, r: Request, id: string)
    requires exists c: nat :: FirstCreates(rs, id, c)
    ensures StandsAuthorised(rs + [r], id) <==>
            (r.Authorise? && r.id == id) || (StandsAuthorised(rs, id) && !(r.Delete? && r.id == id))
    ensures StandsRevoked(rs + [r], id) <==>
            (r.Delete? && r.id == id) || (StandsRevoked(rs, id) && !(r.Authorise? && r.id == id))
  {
    var c: nat :| FirstCreates(rs, id, c);
    FirstStays(rs, r, id, c);
    var after := rs + [r];
    assert forall k :: 0 <= k < |rs| ==> after[k] == rs[k];
    assert after[|rs|] == r;
    forall d: nat, k: nat
      ensures AuthorisedAt(after, id, d, k) <==>
              d == c && ((k == |rs| && r.Authorise? && r.id == id)
                         || (AuthorisedAt(rs, id, d, k) && !(r.Delete? && r.id == id)))
      ensures RevokedAt(after, id, d, k) <==>
              d == c && ((k == |rs| && r.Delete? && r.id == id)
                         || (RevokedAt(rs, id, d, k) && !(r.Authorise? && r.id == id)))
    {
      StandsAt(rs, r, id, c, d, k);
    }
    hide AuthorisedAt, RevokedAt;
    assert r.Authorise? && r.id == id ==> AuthorisedAt(after, id, c, |rs|);
    assert r.Delete? && r.id == id ==> RevokedAt(after, id, c, |rs|);
    forall d: nat, k: nat
      ensures AuthorisedAt(rs, id, d, k) ==> d == c
      ensures RevokedAt(rs, id, d, k) ==> d == c
    {
      StandsSince(rs, id, c, d, k);
    }
  }

  lemma StandsSince(rs: seq<Request>, id: string, c: nat, d: nat, k: nat)
    requires FirstCreates(rs, id, c)
    ensures AuthorisedAt(rs, id, d, k) ==> d == c
    ensures RevokedAt(rs, id, d, k) ==> d == c
  {
    hide Creates;
  }

  lemma StandsAt(rs: seq<Request>, r: Request, id: string, c: nat, d: nat, k: nat)
    requires FirstCreates(rs, id, c)
    ensures AuthorisedAt(rs + [r], id, d, k) <==>
            d == c && ((k == |rs| && r.Authorise? && r.id == id)
                       || (AuthorisedAt(rs, id, d, k) && !(r.Delete? && r.id == id)))
    ensures RevokedAt(rs + [r], id, d, k) <==>
            d == c && ((k == |rs| && r.Delete? && r.id == id)
                       || (RevokedAt(rs, id, d, k) && !(r.Authorise? && r.id == id)))
  {
    var after := rs + [r];
    FirstStays(rs, r, id, c);
    FirstStays(rs, r, id, d);
    hide Creates;
    assert forall j :: 0 <= j < |rs| ==> after[j] == rs[j];
    assert after[|rs|] == r;
    if FirstCreates(after, id, d) {
      OnlyOneFirst(after, id, c, d);
    }
  }

  /**
   In every run a consent is AUTHORISED exactly when, since the request that stored it,
   the latest authorisation or deletion of it is an authorisation, REVOKED when it is a
   deletion, and otherwise awaits authorisation.
   */
  lemma {:induction false} StatusOfRun(rs: seq<Request>, id: string)
    requires id in Run(rs).consents
    ensures Run(rs).consents[id].status.Authorised? <==> StandsAuthorised(rs, id)
    ensures Run(rs).consents[id].status.Revoked? <==> StandsRevoked(rs, id)
  {
    if |rs| == 0 {
    } else {
      var init, r := rs[..|rs| - 1], rs[|rs| - 1];
      assert rs == init + [r];
      TermsAsCreated(init, id);
      StepOnConsent(Run(init), r, id);
      hide Step, StandsAuthorised, StandsRevoked;
      if id in Run(init).consents {
        StatusOfRun(init, id);
        hide Run;
        StandsAfter(init, r, id);
      } else {
        NotYetStanding(init, r, id);
      }
    }
  }

  lemma NotYetStanding(rs: seq<Request>, r: Request, id: string)
    requires !exists c: nat :: FirstCreates(rs, id, c)
    ensures !StandsAuthorised(rs + [r], id) && !StandsRevoked(rs + [r], id)
  {
    forall c: nat, k: nat
      ensures !AuthorisedAt(rs + [r], id, c, k) && !RevokedAt(rs + [r], id, c, k)
    {
      FirstStays(rs, r, id, c);
      hide FirstCreates;
    }
  }

  /** The request at position k submitted the payment, under a consent that stood authorised and was valid then. */
  ghost predicate PaidUnder(rs: seq<Request>, p: Payment, k: nat, c: nat) {
    && k < |rs| && rs[k].Submit?
    && var sub := rs[k].sub;
    && p == Payment(sub.consentId, AcceptedInProcess, sub.amount, sub.currency, sub.storedAt.Instant())
    && StandsAuthorised(rs[..k], sub.consentId)
    && FirstCreates(rs[..k], sub.consentId, c)
    && rs[c].validFrom <= sub.at.Instant() <= rs[c].validTo
  }

  lemma PaidUnderStays(rs: seq<Request>, r: Request, p: Payment, k: nat, c: nat)
    requires PaidUnder(rs, p, k, c)
    ensures PaidUnder(rs + [r], p, k, c)
  {
    hide StandsAuthorised, LocalTime.Instant;
    assert (rs + [r])[..k] == rs[..k];
    assert (rs + [r])[k] == rs[k];
    assert c < k && (rs + [r])[c] == rs[c];
  }

  /** In every run each payment was submitted after its consent was authorised and not deleted since, while it was valid. */
  lemma {:induction false} PaymentsWereAuthorised(rs: seq<Request>, i: nat)
    requires i < |Run(rs).payments|
    ensures exists k: nat, c: nat :: PaidUnder(rs, Run(rs).payments[i], k, c)
  {
    if |rs| == 0 {
    } else {
      var init, r := rs[..|rs| - 1], rs[|rs| - 1];
      var p := Run(rs).payments[i];
      assert rs == init + [r];
      if i < |Run(init).payments| {
        PaymentsWereAuthorised(init, i);
        assert p == Run(init).payments[i];
        var k: nat, c: nat :| PaidUnder(init, p, k, c);
        PaidUnderStays(init, r, p, k, c);
      } else {
        hide WithinLimits, LocalTime.Instant, Blank, AnyBlank;
        assert r.Submit? && Accepted(Run(init), r.sub) && p == PaymentOf(r.sub);
        TermsAsCreated(init, r.sub.consentId);
        StatusOfRun(init, r.sub.consentId);
        var c: nat :| FirstCreates(init, r.sub.consentId, c);
        assert rs[..|init|] == init && rs[c] == init[c];
        hide StandsAuthorised, FirstCreates;
        assert PaidUnder(rs, p, |init|, c);
      }
    }
  }

  // ----- Limits that do not hold -----

  // Submissions under one consent with a daily limit of 100, checked just before midnight,
  // one request at a time.

  const EVENING := LocalTime(1970, 0, 1, DAY_MS - 1)
  const MIDNIGHT := LocalTime(1970, 0, 2, 0)
  const DAILY := Limit(Day, 100.0, "GBP")
  const CREATE := Create("c", [DAILY], 0, 2 * DAY_MS)
  const AUTHORISE := Authorise("c")
  const CONSENT := Consent(Authorised, [DAILY], 0, 2 * DAY_MS)

  function Evening(amount: real, currency: string): Submission {
    Submission("c", amount, currency, true, EVENING, _ => EVENING, EVENING)
  }

  function Refund(): Submission {
    Evening(-50.0, "GBP")
  }

  function Spending(): Submission {
    Submission("c", 120.0, "GBP", true, EVENING, _ => EVENING, MIDNIGHT)
  }

  lemma EveningReads()
    ensures EVENING.Valid() && EVENING.Instant() == DAY_MS - 1 && PeriodStart(Day, EVENING) == 0
  {
    EpochIsDayZero();
    hide FirstOfMonth, DayOfWeek;
    assert EVENING.MonthNumber() == 12 * 1970;
    assert EVENING.Day() == 0;
  }

  lemma MidnightReads()
    ensures MIDNIGHT.Valid() && MIDNIGHT.Instant() == DAY_MS
  {
    EpochIsDayZero();
    hide FirstOfMonth, DayOfWeek;
    assert MIDNIGHT.MonthNumber() == 12 * 1970;
    assert MIDNIGHT.Day() == 1;
  }

  lemma FirstDays()
    ensures EVENING.Valid() && EVENING.Instant() == DAY_MS - 1 && PeriodStart(Day, EVENING) == 0
    ensures MIDNIGHT.Valid() && MIDNIGHT.Instant() == DAY_MS
  {
    EveningReads();
    MidnightReads();
  }

  lemma RunOn(rs: seq<Request>, s: Store, r: Request)
    requires Run(rs) == s
    ensures Run(rs + [r]) == Step(s, r)
    ensures Clock(rs + [r]) == ClockAfter(Clock(rs), r)
    ensures Timely(rs + [r]) <==> Timely(rs) && OnTime(Clock(rs), r)
  {
    hide Step, OnTime;
    assert (rs + [r])[..|rs|] == rs;
  }

  lemma ConsentAuthorised()
    ensures Run([CREATE, AUTHORISE]) == Store(map["c" := CONSENT], [])
    ensures Timely([CREATE, AUTHORISE]) && Clock([CREATE, AUTHORISE]) == None
  {
    assert Run([]) == EMPTY && Timely([]) && Clock([]) == None;
    assert !Blank("GBP") by {
      assert "GBP"[0] == 'G';
    }
    hide Run, Timely, Clock, Blank;
    RunOn([], EMPTY, CREATE);
    assert [] + [CREATE] == [CREATE];
    RunOn([CREATE], Step(EMPTY, CREATE), AUTHORISE);
    assert [CREATE] + [AUTHORISE] == [CREATE, AUTHORISE];
  }

  /** Checked in the evening, under a code that is not blank. */
  ghost predicate EveningCheck(sub: Submission) {
    sub.consentId == "c" && sub.at == EVENING && sub.limitAt(0) == EVENING && sub.bridgeAccepts && !Blank(sub.currency)
  }

  lemma CodesAreNotBlank()
    ensures !Blank("GBP") && !Blank("gbp") && !Blank("EUR")
  {
    assert "GBP"[0] == 'G' && "gbp"[0] == 'g' && "EUR"[0] == 'E';
  }

  lemma SubmissionAccepted(s: Store, sub: Submission)
    requires EveningCheck(sub) && s.consents == map["c" := CONSENT]
    ensures Accepted(s, sub) <==> SumSince(s.payments, "c", sub.currency, 0) + sub.amount <= 100.0
  {
    hide SumSince, PeriodStart, LocalTime.Instant, LocalTime.Valid, Blank;
    EveningReads();
    assert s.consents["c"] == CONSENT && CONSENT.limits == [DAILY];
    assert WithinLimits(s, sub, [DAILY]) <==> !Exceeds(s, sub, DAILY, EVENING);
  }

  lemma RefundAccepted()
    ensures Run([CREATE, AUTHORISE, Submit(Refund())]) == Store(map["c" := CONSENT], [PaymentOf(Refund())])
    ensures Timely([CREATE, AUTHORISE, Submit(Refund())])
    ensures Clock([CREATE, AUTHORISE, Submit(Refund())]) == Some(DAY_MS - 1)
  {
    FirstDays();
    ConsentAuthorised();
    hide Run, Timely, Clock, LocalTime.Instant, LocalTime.Valid, Accepted, Blank;
    var s := Store(map["c" := CONSENT], []);
    assert SumSince([], "c", "GBP", 0) == 0.0;
    CodesAreNotBlank();
    SubmissionAccepted(s, Refund());
    RunOn([CREATE, AUTHORISE], s, Submit(Refund()));
    assert Step(s, Submit(Refund())).payments == [] + [PaymentOf(Refund())];
    assert [CREATE, AUTHORISE] + [Submit(Refund())] == [CREATE, AUTHORISE, Submit(Refund())];
    assert [] + [PaymentOf(Refund())] == [PaymentOf(Refund())];
  }

  /** A timely run that is not regular: 120 is spent on a day whose limit is 100. */
  lemma CrossingBreaksLimit()
    ensures var rs := [CREATE, AUTHORISE, Submit(Refund()), Submit(Spending())];
            && Timely(rs)
            && Run(rs).consents == map["c" := CONSENT]
            && IsPeriod(Day, 1, 2) && SumIn(Run(rs).payments, "c", "GBP", 1, 2) == 120.0 > DAILY.maxAmount
  {
    FirstDays();
    RefundAccepted();
    var s := Store(map["c" := CONSENT], [PaymentOf(Refund())]);
    TotalsOfTwo();
    hide Run, Timely, Clock, LocalTime.Instant, LocalTime.Valid, SumSince, SumIn, Accepted, Blank;
    CodesAreNotBlank();
    SubmissionAccepted(s, Spending());
    RunOn([CREATE, AUTHORISE, Submit(Refund())], s, Submit(Spending()));
    assert [CREATE, AUTHORISE, Submit(Refund())] + [Submit(Spending())]
        == [CREATE, AUTHORISE, Submit(Refund()), Submit(Spending())];
    assert [PaymentOf(Refund())] + [PaymentOf(Spending())] == [PaymentOf(Refund()), PaymentOf(Spending())];
  }

  lemma TotalsOfTwo()
    ensures SumSince([PaymentOf(Refund())], "c", "GBP", 0) == -50.0
    ensures SumIn([PaymentOf(Refund()), PaymentOf(Spending())], "c", "GBP", 1, 2) == 120.0
  {
    FirstDays();
    hide LocalTime.Instant, LocalTime.Valid;
    var refund, spending := PaymentOf(Refund()), PaymentOf(Spending());
    assert [refund][..0] == [];
    assert SumSince([refund], "c", "GBP", 0) == SumSince([], "c", "GBP", 0) + -50.0;
    assert [refund, spending] == [refund] + [spending];
    SumInAppend([], refund, "c", "GBP", 1, 2);
    assert [] + [refund] == [refund];
    SumInAppend([refund], spending, "c", "GBP", 1, 2);
  }

  lemma SameCurrency()
    ensures Normalised("GBP") == Normalised("gbp") == "GBP"
  {
    assert TrimStart("GBP") == "GBP" && TrimEnd("GBP") == "GBP";
    assert TrimStart("gbp") == "gbp" && TrimEnd("gbp") == "gbp";
    hide TrimStart, TrimEnd;
    assert Upper("GBP") == "GBP" && Upper("gbp") == "GBP";
  }

  /** The first payment of the evening, in one spelling. */
  lemma UpperCaseAccepted()
    ensures var rs := [CREATE, AUTHORISE, Submit(Evening(100.0, "GBP"))];
            && Run(rs) == Store(map["c" := CONSENT], [PaymentOf(Evening(100.0, "GBP"))])
            && Timely(rs) && Clock(rs) == Some(DAY_MS - 1)
  {
    FirstDays();
    ConsentAuthorised();
    CodesAreNotBlank();
    hide Run, Timely, Clock, LocalTime.Instant, LocalTime.Valid, Accepted, Blank;
    var s, sub := Store(map["c" := CONSENT], []), Evening(100.0, "GBP");
    assert SumSince([], "c", "GBP", 0) == 0.0;
    SubmissionAccepted(s, sub);
    RunOn([CREATE, AUTHORISE], s, Submit(sub));
    assert [CREATE, AUTHORISE] + [Submit(sub)] == [CREATE, AUTHORISE, Submit(sub)];
    assert Step(s, Submit(sub)).payments == [] + [PaymentOf(sub)];
  }

  lemma TotalsOfSpellings()
    ensures SumSince([PaymentOf(Evening(100.0, "GBP"))], "c", "gbp", 0) == 0.0
    ensures SumAlike([PaymentOf(Evening(100.0, "GBP")), PaymentOf(Evening(100.0, "gbp"))], "c", "GBP", 0, 1) == 200.0
  {
    FirstDays();
    SameCurrency();
    hide LocalTime.Instant, LocalTime.Valid, Normalised;
    var upper, lower := PaymentOf(Evening(100.0, "GBP")), PaymentOf(Evening(100.0, "gbp"));
    assert [upper][..0] == [];
    assert "GBP"[0] != "gbp"[0];
    assert SumSince([upper], "c", "gbp", 0) == SumSince([], "c", "gbp", 0);
    SumAlikeAppend([], upper, "c", "GBP", 0, 1);
    assert [] + [upper] == [upper];
    SumAlikeAppend([upper], lower, "c", "GBP", 0, 1);
    assert [upper, lower] == [upper] + [lower];
  }

  /** A regular run at one clock reading: 200 pounds are spent on a day whose limit is 100, in two spellings. */
  lemma SpellingsBreakLimit()
    ensures var rs := [CREATE, AUTHORISE, Submit(Evening(100.0, "GBP")), Submit(Evening(100.0, "gbp"))];
            && Timely(rs) && RegularRun(rs)
            && Run(rs).consents == map["c" := CONSENT]
            && IsPeriod(Day, 0, 1) && SumAlike(Run(rs).payments, "c", "GBP", 0, 1) == 200.0 > DAILY.maxAmount
  {
    FirstDays();
    UpperCaseAccepted();
    TotalsOfSpellings();
    CodesAreNotBlank();
    hide Run, Timely, Clock, LocalTime.Instant, LocalTime.Valid, SumSince, SumAlike, Accepted, Blank, RegularRun;
    var upper, lower := Evening(100.0, "GBP"), Evening(100.0, "gbp");
    var s := Store(map["c" := CONSENT], [PaymentOf(upper)]);
    SubmissionAccepted(s, lower);
    RunOn([CREATE, AUTHORISE, Submit(upper)], s, Submit(lower));
    assert [CREATE, AUTHORISE, Submit(upper)] + [Submit(lower)] == [CREATE, AUTHORISE, Submit(upper), Submit(lower)];
    assert [PaymentOf(upper)] + [PaymentOf(lower)] == [PaymentOf(upper), PaymentOf(lower)];
    OneReadingIsRegular([CREATE, AUTHORISE, Submit(upper), Submit(lower)]);
  }

  /** A payment of 101 euros is refused by a limit of 100 pounds, with nothing spent. */
  lemma ForeignPaymentRefused()
    ensures DAILY.currency == "GBP" && Run([CREATE, AUTHORISE]).payments == []
    ensures !Accepted(Run([CREATE, AUTHORISE]), Evening(101.0, "EUR"))
  {
    ConsentAuthorised();
    CodesAreNotBlank();
    hide Run, Blank, Accepted;
    assert SumSince([], "c", "EUR", 0) == 0.0;
    SubmissionAccepted(Store(map["c" := CONSENT], []), Evening(101.0, "EUR"));
  }

  // ----- The service -----

  class VrpService {
    var consents: map<string, Consent>
    var payments: seq<Payment>
    ghost var clock: Option<int>

    ghost predicate Valid()
      reads this
    {
      Booked(Stored(), clock)
    }

    /** Every consent's limits hold in every period. */
    ghost predicate LimitsHold()
      reads this
    {
      AllLimitsKept(Stored())
    }

    function Stored(): Store
      reads this
    {
      Store(consents, payments)
    }

    constructor ()
      ensures Valid() && LimitsHold() && Stored() == EMPTY && clock == None
    {
      consents, payments, clock := map[], [], None;
    }

    method CreateVrpConsent(
      id: string, limits: seq<Limit>, validFrom: int, validTo: int) returns (r: Result<Consent, Error>)
      requires Valid() && id !in consents
      modifies this
      ensures Valid() && clock == old(clock) && (old(LimitsHold()) ==> LimitsHold())
      ensures Stored() == Step(old(Stored()), Create(id, limits, validFrom, validTo))
      ensures if exists i :: 0 <= i < |limits| && Blank(limits[i].currency)
              then r == Err(BlankCurrency) && Stored() == old(Stored())
              else && r == Ok(Consent(AwaitingAuthorisation, limits, validFrom, validTo))
                   && Stored() == old(Stored()).(consents := old(consents)[id := r.value])
    {
      hide Booked, AllLimitsKept;
      var request := Create(id, limits, validFrom, validTo);
      StepBooks(Stored(), clock, request);
      if LimitsHold() {
        StepKeeps(Stored(), clock, request);
      }
      for i := 0 to |limits|
        invariant forall j :: 0 <= j < i ==> !Blank(limits[j].currency)
      {
        if Blank(limits[i].currency) {
          return Err(BlankCurrency);
        }
      }
      var consent := Consent(AwaitingAuthorisation, limits, validFrom, validTo);
      consents := consents[id := consent];
      return Ok(consent);
    }

    method DeleteVrpConsent(id: string) returns (r: Result<(), Error>)
      requires Valid()
      modifies this
      ensures Valid() && clock == old(clock) && (old(LimitsHold()) ==> LimitsHold())
      ensures Stored() == Step(old(Stored()), Delete(id))
      ensures if id !in old(consents) then r == Err(ConsentNotFound) && Stored() == old(Stored())
              else && r == Ok(()) && payments == old(payments)
                   && consents == old(consents)[id := old(consents)[id].(status := Revoked)]
    {
      hide Booked, AllLimitsKept;
      StepBooks(Stored(), clock, Delete(id));
      if LimitsHold() {
        StepKeeps(Stored(), clock, Delete(id));
      }
      if id !in consents {
        return Err(ConsentNotFound);
      }
      consents := consents[id := consents[id].(status := Revoked)];
      return Ok(());
    }

    method SubmitVrpPayment(sub: Submission) returns (r: Result<Payment, Error>)
      requires Valid() && OnTime(clock, Submit(sub))
      modifies this
      ensures Valid() && clock == Some(sub.storedAt.Instant())
      ensures old(LimitsHold()) && RegularStep(old(Stored()), Submit(sub)) ==> LimitsHold()
      ensures Stored() == Step(old(Stored()), Submit(sub)) && consents == old(consents)
      ensures r.Ok? <==>
              && sub.consentId in consents
              && var c := consents[sub.consentId];
              && c.status == Authorised && c.validFrom <= sub.at.Instant() <= c.validTo
              && !Blank(sub.currency) && sub.bridgeAccepts
              && forall i: nat :: i < |c.limits| ==>
                   SumSince(old(payments), sub.consentId, sub.currency, PeriodStart(c.limits[i].period, sub.limitAt(i)))
                   + sub.amount <= c.limits[i].maxAmount
      ensures r.Ok? ==>
                && r.value == Payment(sub.consentId, AcceptedInProcess, sub.amount, sub.currency, sub.storedAt.Instant())
                && payments == old(payments) + [r.value]
      ensures r.Err? ==> payments == old(payments)
      ensures sub.consentId !in consents ==> r == Err(ConsentNotFound)
      ensures sub.consentId in consents ==>
                var c := consents[sub.consentId];
                && (c.status != Authorised ==> r == Err(NotAuthorised))
                && (c.status == Authorised && sub.at.Instant() < c.validFrom ==> r == Err(NotStarted))
                && (c.status == Authorised && c.validFrom <= sub.at.Instant() && c.validTo < sub.at.Instant() ==>
                      r == Err(Expired))
                && (c.status == Authorised && c.validFrom <= sub.at.Instant() <= c.validTo && Blank(sub.currency) ==>
                      r == Err(BlankCurrency))
      ensures r.Err? && sub.consentId in consents ==>
                var c := consents[sub.consentId];
                c.status == Authorised && c.validFrom <= sub.at.Instant() <= c.validTo && !Blank(sub.currency) ==>
                  || (r.error == BridgeFailed && WithinLimits(old(Stored()), sub, c.limits))
                  || (r.error.LimitExceeded? && exists i: nat ::
                        && i < |c.limits| && c.limits[i] == r.error.limit
                        && SumSince(old(payments), sub.consentId, sub.currency, PeriodStart(c.limits[i].period, sub.limitAt(i)))
                           + sub.amount > c.limits[i].maxAmount
                        && WithinLimits(old(Stored()), sub, c.limits[..i]))
    {
      hide Booked, AllLimitsKept, OnTime, RegularStep, LocalTime.Instant, LocalTime.Valid, Blank, SumSince, PeriodStart;
      StepBooks(Stored(), clock, Submit(sub));
      if LimitsHold() && RegularStep(Stored(), Submit(sub)) {
        StepKeeps(Stored(), clock, Submit(sub));
      }
      clock := Some(sub.storedAt.Instant());
      if sub.consentId !in consents {
        return Err(ConsentNotFound);
      }
      var consent := consents[sub.consentId];
      if !consent.status.Authorised? {
        return Err(NotAuthorised);
      }
      if sub.at.Instant() < consent.validFrom {
        return Err(NotStarted);
      }
      if sub.at.Instant() > consent.validTo {
        return Err(Expired);
      }
      if Blank(sub.currency) {
        return Err(BlankCurrency);
      }
      for i := 0 to |consent.limits|
        invariant WithinLimits(Stored(), sub, consent.limits[..i])
      {
        if Exceeds(Stored(), sub, consent.limits[i], sub.limitAt(i)) {
          return Err(LimitExceeded(consent.limits[i]));
        }
      }
      if !sub.bridgeAccepts {
        return Err(BridgeFailed);
      }
      payments := payments + [PaymentOf(sub)];
      return Ok(PaymentOf(sub));
    }
  }
}
