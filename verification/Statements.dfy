/**
 Monthly statements, derived from the balance_after snapshots of an account's entries.

 Times are local milliseconds; a month runs from the first instant of its first day to
 the last millisecond before the next month. The rows of the month and the row before it
 are answers of the database: sorted by time, in any order among rows of the same time.
 */
module Statements {
  import opened Wrappers
  import opened Calendar
  import opened Money
  import opened Ledger

  datatype Line = Line(at: int, kind: EntryType, amount: int, balance: int)

  datatype Statement = Statement(
    accountId: string, currency: string, opening: int, closing: int,
    totalCredits: int, totalDebits: int, lines: seq<Line>)

  // ----- Queries -----

  datatype Range = Before(t: int) | Between(lo: int, hi: int) {
    predicate Contains(t: int) {
      match this
      case Before(end) => t < end
      case Between(lo, hi) => lo <= t <= hi
    }
  }

  function OfAccount(es: seq<Entry>, id: string): seq<Entry> {
    if es == [] then [] else
    var e := es[|es| - 1];
    OfAccount(es[..|es| - 1], id) + if e.accountId == id then [e] else []
  }

  function InRange(es: seq<Entry>, r: Range): seq<Entry> {
    if es == [] then [] else
    var e := es[|es| - 1];
    InRange(es[..|es| - 1], r) + if r.Contains(e.createdAt) then [e] else []
  }

  function PeriodStart(year: int, month: int): int {
    FirstOfMonth(12 * year + month - 1) * DAY_MS
  }

  /** The period of a statement; months count from 1 and may run past a year. */
  function Period(year: int, month: int): Range {
    Between(PeriodStart(year, month), PeriodStart(year, month + 1) - 1)
  }

  /** The period of a month holds exactly the instants whose local year and month are those of the statement. */
  lemma PeriodHolds(t: LocalTime, year: int, month: int)
    requires t.Valid() && 1 <= month <= 12
    ensures Period(year, month).Contains(t.Instant()) <==> t.year == year && t.month + 1 == month
    ensures t.Instant() < PeriodStart(year, month) <==> t.year < year || (t.year == year && t.month + 1 < month)
  {
    hide FirstOfMonth, DaysInMonth;
    MonthOfReading(t, 12 * year + month - 1);
    MonthOfReading(t, 12 * year + month);
    assert month + 1 - 1 == month;
    MonthNumberIs(t, 12 * year + month - 1, year, month);
    hide *;
  }

  lemma MonthNumberIs(t: LocalTime, n: int, year: int, month: int)
    requires t.month < 12 && 1 <= month <= 12 && n == 12 * year + month - 1
    ensures t.MonthNumber() == n <==> t.year == year && t.month + 1 == month
    ensures t.MonthNumber() < n <==> t.year < year || (t.year == year && t.month + 1 < month)
  {
  }

  /** The account's entries before a month, in the order they were inserted. */
  function EntriesBefore(db: Db, id: string, year: int, month: int): seq<Entry> {
    InRange(OfAccount(db.entries, id), Before(PeriodStart(year, month)))
  }

  function EntriesIn(db: Db, id: string, year: int, month: int): seq<Entry> {
    InRange(OfAccount(db.entries, id), Period(year, month))
  }

  /** The rows are in the order of their times. */
  ghost predicate Ordered(rows: seq<Entry>) {
    forall i, j :: 0 <= i < j < |rows| ==> rows[i].createdAt <= rows[j].createdAt
  }

  /** What the query for the month's rows may answer. */
  ghost predicate RowsAnswer(rows: seq<Entry>, db: Db, id: string, year: int, month: int) {
    Ordered(rows) && multiset(rows) == multiset(EntriesIn(db, id, year, month))
  }

  /** A newest one of some entries, or none when there are none. */
  ghost predicate IsNewest(row: Option<Entry>, pre: seq<Entry>) {
    if pre == [] then row.None?
    else row.Some? && row.value in pre && forall e :: e in pre ==> e.createdAt <= row.value.createdAt
  }

  /** What the query for the last row before the month may answer. */
  ghost predicate OpeningAnswer(row: Option<Entry>, db: Db, id: string, year: int, month: int) {
    IsNewest(row, EntriesBefore(db, id, year, month))
  }

  // ----- The statement -----

  function KindTotal(rows: seq<Entry>, kind: EntryType): int {
    if rows == [] then 0 else
    var e := rows[|rows| - 1];
    KindTotal(rows[..|rows| - 1], kind) + if e.kind == kind then e.amount else 0
  }

  function LineOf(e: Entry): Line {
    Line(e.createdAt, e.kind, e.amount, e.balanceAfter)
  }

  function OpeningOf(opening: Option<Entry>): int {
    if opening.Some? then opening.value.balanceAfter else 0
  }

  function ClosingOf(rows: seq<Entry>, opening: Option<Entry>): int {
    if rows == [] then OpeningOf(opening) else rows[|rows| - 1].balanceAfter
  }

  ghost predicate SameCurrency(rows: seq<Entry>, account: Account) {
    forall k :: 0 <= k < |rows| ==> CheckCurrencies(rows[k].currency, account).None?
  }

  /** The error of the first row whose currency is not the account's. */
  ghost predicate FirstMismatch(rows: seq<Entry>, account: Account, error: Ledger.Error) {
    exists k :: 0 <= k < |rows|
      && SameCurrency(rows[..k], account) && CheckCurrencies(rows[k].currency, account) == Some(error)
  }

  /** The statement made of the two answers. */
  method GenerateMonthlyStatement(db: Db, id: string, rows: seq<Entry>, opening: Option<Entry>)
    returns (r: Result<Statement, Ledger.Error>)
    ensures id !in db.accounts ==> r == Err(AccountNotFound)
    ensures id in db.accounts && Blank(db.accounts[id].currency) ==> r == Err(BlankCurrency)
    ensures id in db.accounts && !Blank(db.accounts[id].currency) ==>
              && (r.Err? <==> !SameCurrency(rows, db.accounts[id]))
              && (r.Err? ==> FirstMismatch(rows, db.accounts[id], r.error))
    ensures r.Ok? ==>
              && r.value.accountId == id && r.value.currency == db.accounts[id].currency
              && r.value.opening == (if opening.Some? then opening.value.balanceAfter else 0)
              && r.value.closing == (if rows == [] then r.value.opening else rows[|rows| - 1].balanceAfter)
              && r.value.totalCredits == KindTotal(rows, Credit)
              && r.value.totalDebits == KindTotal(rows, Debit)
              && |r.value.lines| == |rows|
              && forall k :: 0 <= k < |rows| ==>
                   r.value.lines[k] == Line(rows[k].createdAt, rows[k].kind, rows[k].amount, rows[k].balanceAfter)
  {
    hide Blank, Normalised;
    if id !in db.accounts {
      return Err(AccountNotFound);
    }
    var account := db.accounts[id];
    if Blank(account.currency) {
      return Err(BlankCurrency);
    }
    var totalCredits, totalDebits := 0, 0;
    var lines := [];
    for i := 0 to |rows|
      invariant totalCredits == KindTotal(rows[..i], Credit) && totalDebits == KindTotal(rows[..i], Debit)
      invariant forall k :: 0 <= k < i ==> CheckCurrencies(rows[k].currency, account).None?
      invariant |lines| == i && forall k :: 0 <= k < i ==> lines[k] == LineOf(rows[k])
    {
      var e := rows[i];
      assert rows[..i + 1][..i] == rows[..i];
      var mismatch := CheckCurrencies(e.currency, account);
      if mismatch.Some? {
        return Err(mismatch.value);
      }
      if e.kind.Credit? {
        totalCredits := totalCredits + e.amount;
      } else {
        totalDebits := totalDebits + e.amount;
      }
      lines := lines + [LineOf(e)];
    }
    assert rows[..|rows|] == rows;
    return Ok(Statement(
      id, account.currency, OpeningOf(opening), ClosingOf(rows, opening), totalCredits, totalDebits, lines));
  }

  // ----- Rows in time order -----

  /** A prefix holding exactly the rows before a time. */
  ghost predicate CutsAt(rows: seq<Entry>, t: int, pre: seq<Entry>) {
    && |pre| <= |rows| && pre == rows[..|pre|]
    && (forall k :: 0 <= k < |pre| ==> rows[k].createdAt < t)
    && forall k :: |pre| <= k < |rows| ==> rows[k].createdAt >= t
  }

  lemma CutsAllTheWay(rows: seq<Entry>, t: int, pre: seq<Entry>)
    requires CutsAt(rows, t, pre) && forall k :: 0 <= k < |rows| ==> rows[k].createdAt < t
    ensures pre == rows
  {
    if |pre| < |rows| {
      RowAfterCut(rows, t, pre, |pre|);
      assert false;
    }
  }

  lemma RowAfterCut(rows: seq<Entry>, t: int, pre: seq<Entry>, k: int)
    requires CutsAt(rows, t, pre) && |pre| <= k < |rows|
    ensures rows[k].createdAt >= t
  {
  }

  lemma CutsAtAppend(rows: seq<Entry>, t: int, pre: seq<Entry>, e: Entry)
    requires CutsAt(rows, t, pre) && Ordered(rows + [e])
    ensures CutsAt(rows + [e], t, if e.createdAt < t then pre + [e] else pre)
  {
    if e.createdAt < t {
      forall k | 0 <= k < |rows|
        ensures rows[k].createdAt < t
      {
        assert (rows + [e])[k].createdAt <= (rows + [e])[|rows|].createdAt;
      }
      CutsAllTheWay(rows, t, pre);
    }
  }

  /** In an ordered list the rows before a time form a prefix. */
  lemma {:induction false} BeforeIsPrefix(rows: seq<Entry>, t: int)
    requires Ordered(rows)
    ensures CutsAt(rows, t, InRange(rows, Before(t)))
  {
    if rows == [] {
    } else {
      var init, e := rows[..|rows| - 1], rows[|rows| - 1];
      OrderedInit(init, e, rows);
      BeforeIsPrefix(init, t);
      hide CutsAt, Ordered;
      CutsAtAppend(init, t, InRange(init, Before(t)), e);
      assert InRange(init, Before(t)) + [] == InRange(init, Before(t));
    }
  }

  lemma OrderedInit(init: seq<Entry>, e: Entry, rows: seq<Entry>)
    requires rows == init + [e] && Ordered(rows)
    ensures Ordered(init)
    ensures forall k :: 0 <= k < |init| ==> init[k].createdAt <= e.createdAt
  {
    assert rows[..|init|] == init;
    forall k | 0 <= k < |init|
      ensures init[k] == rows[k] && init[k].createdAt <= e.createdAt
    {
      assert rows[k].createdAt <= rows[|init|].createdAt;
    }
  }

  /** In an ordered list the rows before a range, then those in it, are the rows before its end. */
  lemma {:induction false} BetweenComesNext(rows: seq<Entry>, lo: int, hi: int)
    requires Ordered(rows) && lo <= hi + 1
    ensures InRange(rows, Before(hi + 1)) == InRange(rows, Before(lo)) + InRange(rows, Between(lo, hi))
  {
    if rows == [] {
    } else {
      var init, e := rows[..|rows| - 1], rows[|rows| - 1];
      OrderedInit(init, e, rows);
      BetweenComesNext(init, lo, hi);
      assert rows == init + [e];
      AllBefore(init, e, lo);
      AllBefore(init, e, hi + 1);
      hide Ordered, InRange;
      BetweenStep(init, e, lo, hi);
    }
  }

  lemma BetweenStep(rows: seq<Entry>, e: Entry, lo: int, hi: int)
    requires lo <= hi + 1
    requires e.createdAt < lo ==> InRange(rows, Before(lo)) == rows
    requires e.createdAt < hi + 1 ==> InRange(rows, Before(hi + 1)) == rows
    requires InRange(rows, Before(hi + 1)) == InRange(rows, Before(lo)) + InRange(rows, Between(lo, hi))
    ensures InRange(rows + [e], Before(hi + 1)) == InRange(rows + [e], Before(lo)) + InRange(rows + [e], Between(lo, hi))
  {
    hide InRange;
    InRangeAppend(rows, e, Before(lo));
    InRangeAppend(rows, e, Before(hi + 1));
    InRangeAppend(rows, e, Between(lo, hi));
    if lo <= e.createdAt <= hi {
      var pre, mid := InRange(rows, Before(lo)), InRange(rows, Between(lo, hi));
      assert (pre + mid) + [e] == pre + (mid + [e]);
    }
  }

  lemma InRangeAppend(rows: seq<Entry>, e: Entry, r: Range)
    ensures InRange(rows + [e], r) == if r.Contains(e.createdAt) then InRange(rows, r) + [e] else InRange(rows, r)
  {
    assert (rows + [e])[..|rows|] == rows;
  }

  /** When the newest row comes before a time, so do all of them. */
  lemma AllBefore(init: seq<Entry>, e: Entry, t: int)
    requires Ordered(init + [e])
    ensures e.createdAt < t ==> InRange(init, Before(t)) == init
  {
    OrderedInit(init, e, init + [e]);
    BeforeIsPrefix(init, t);
    if e.createdAt < t {
      CutsAllTheWay(init, t, InRange(init, Before(t)));
    }
  }

  lemma OrderedAppend(some: seq<Entry>, init: seq<Entry>, e: Entry)
    requires Ordered(some) && forall x :: x in some ==> x in init
    requires forall k :: 0 <= k < |init| ==> init[k].createdAt <= e.createdAt
    ensures Ordered(some + [e])
  {
    assert forall x :: x in init ==> x.createdAt <= e.createdAt;
  }

  // ----- Reconciliation -----

  /** Each row of an account is stamped with the sum of the rows before it. */
  ghost predicate Stamped(rows: seq<Entry>, id: string) {
    forall k :: 0 <= k < |rows| ==> rows[k].accountId == id && rows[k].balanceAfter == SignedSum(rows[..k], id)
  }

  lemma {:induction false} AccountRowsStamped(es: seq<Entry>, id: string)
    requires forall k :: 0 <= k < |es| ==> es[k].balanceAfter == SignedSum(es[..k], es[k].accountId)
    ensures Stamped(OfAccount(es, id), id)
    ensures SignedSum(OfAccount(es, id), id) == SignedSum(es, id)
  {
    if es == [] {
    } else {
      var init, e := es[..|es| - 1], es[|es| - 1];
      forall k | 0 <= k < |init|
        ensures init[..k] == es[..k]
      {
      }
      AccountRowsStamped(init, id);
      assert es[..|es| - 1] == init;
      if e.accountId == id {
        StampedAppend(OfAccount(init, id), id, e);
      } else {
        assert OfAccount(es, id) == OfAccount(init, id);
      }
    }
  }

  lemma StampedAppend(rows: seq<Entry>, id: string, e: Entry)
    requires Stamped(rows, id) && e.accountId == id && e.balanceAfter == SignedSum(rows, id)
    ensures Stamped(rows + [e], id) && SignedSum(rows + [e], id) == SignedSum(rows, id) + Signed(e)
  {
    SumsOfAppend(rows, e, id);
    hide SignedSum;
    forall k | 0 <= k <= |rows|
      ensures (rows + [e])[..k] == rows[..k]
    {
    }
    assert rows[..|rows|] == rows;
  }

  lemma {:induction false} SumOfConcat(a: seq<Entry>, b: seq<Entry>, id: string)
    ensures SignedSum(a + b, id) == SignedSum(a, id) + SignedSum(b, id)
  {
    if b == [] {
      assert a + b == a;
    } else {
      SumOfConcat(a, b[..|b| - 1], id);
      assert (a + b)[..|a + b| - 1] == a + b[..|b| - 1];
    }
  }

  lemma {:induction false} SumIsCreditsLessDebits(rows: seq<Entry>, id: string)
    requires forall k :: 0 <= k < |rows| ==> rows[k].accountId == id
    ensures SignedSum(rows, id) == KindTotal(rows, Credit) - KindTotal(rows, Debit)
  {
    if rows == [] {
    } else {
      SumIsCreditsLessDebits(rows[..|rows| - 1], id);
    }
  }

  lemma EntriesStamped(db: Db, id: string)
    requires Invariant(db)
    ensures Stamped(OfAccount(db.entries, id), id)
  {
    hide BooksBalance, ReversalsOk, AccountsOk;
    AccountRowsStamped(db.entries, id);
  }

  lemma PeriodIsOrdered(year: int, month: int)
    ensures PeriodStart(year, month) < PeriodStart(year, month + 1)
  {
    hide FirstOfMonth;
    MonthsIncrease(12 * year + month - 1, 12 * year + month);
  }

  // ----- Entries follow the clock -----

  function TimeOf(r: Request): Option<int> {
    match r
    case Post(_, now) => Some(now)
    case Reverse(_, now) => Some(now)
    case _ => None
  }

  function Latest(rs: seq<Request>): Option<int> {
    if rs == [] then None
    else if TimeOf(rs[|rs| - 1]).Some? then TimeOf(rs[|rs| - 1])
    else Latest(rs[..|rs| - 1])
  }

  /** The clock never runs backwards. */
  ghost predicate Timely(rs: seq<Request>) {
    rs == [] ||
    var init, now := rs[..|rs| - 1], TimeOf(rs[|rs| - 1]);
    Timely(init) && (now.Some? && Latest(init).Some? ==> Latest(init).value <= now.value)
  }

  ghost predicate StampedAt(es: seq<Entry>, now: int) {
    forall k :: 0 <= k < |es| ==> es[k].createdAt == now
  }

  lemma {:induction false} InsertAllStamps(
    db: Db, journalId: nat, es: seq<EntryInput>, now: int) returns (added: seq<Entry>)
    ensures InsertAll(db, journalId, es, now).Some? ==>
              InsertAll(db, journalId, es, now).value.entries == db.entries + added && StampedAt(added, now)
  {
    hide SignedSum, Column;
    if es == [] {
      added := [];
    } else {
      var before := InsertAllStamps(db, journalId, es[..|es| - 1], now);
      var mid := InsertAll(db, journalId, es[..|es| - 1], now);
      added := before;
      if InsertAll(db, journalId, es, now).Some? {
        var after := InsertAll(db, journalId, es, now).value.entries;
        added := before + [after[|after| - 1]];
        assert mid.value.entries + [after[|after| - 1]] == db.entries + added;
      }
    }
  }

  /** A request appends entries of its own time, if any. */
  lemma StepStamps(db: Db, r: Request) returns (added: seq<Entry>)
    ensures Step(db, r).entries == db.entries + added
    ensures added != [] ==> TimeOf(r).Some? && StampedAt(added, TimeOf(r).value)
  {
    hide InsertAll, Balanced, NoBlank, InputsOf, Column, Upper, Normalised, Blank;
    added := [];
    match r
    case Post(req, now) =>
      var rows := InsertAllStamps(WithJournal(db, req.idempotencyKey, None), |db.journals|, req.entries, now);
      if Step(db, r) != db {
        added := rows;
      }
    case Reverse(id, now) =>
      if id < |db.journals| {
        var marked := db.(journals := db.journals[id := db.journals[id].(status := Reversed)]);
        var rows := InsertAllStamps(
          WithJournal(marked, None, Some(id)), |db.journals|, SwapAll(InputsOf(db.entries, id)), now);
        if Step(db, r) != db {
          added := rows;
        }
      }
    case _ =>
  }

  ghost predicate NotAfter(es: seq<Entry>, last: Option<int>) {
    forall k :: 0 <= k < |es| ==> last.Some? && es[k].createdAt <= last.value
  }

  lemma AppendInOrder(es: seq<Entry>, added: seq<Entry>, last: Option<int>, now: int)
    requires Ordered(es) && NotAfter(es, last) && StampedAt(added, now) && (last.Some? ==> last.value <= now)
    ensures Ordered(es + added) && NotAfter(es + added, Some(now))
  {
  }

  /** Under such a clock, the entries of every run are in the order of their times. */
  lemma {:induction false} RunIsOrdered(rs: seq<Request>)
    requires Timely(rs)
    ensures Ordered(Run(EMPTY, rs).entries) && NotAfter(Run(EMPTY, rs).entries, Latest(rs))
  {
    if rs == [] {
    } else {
      var init, r := rs[..|rs| - 1], rs[|rs| - 1];
      RunIsOrdered(init);
      hide Step, Ordered, NotAfter, StampedAt;
      var es := Run(EMPTY, init).entries;
      var added := StepStamps(Run(EMPTY, init), r);
      if TimeOf(r).Some? {
        NothingStamped(added, TimeOf(r).value);
        AppendInOrder(es, added, Latest(init), TimeOf(r).value);
      } else {
        assert es + [] == es;
      }
    }
  }

  lemma NothingStamped(es: seq<Entry>, now: int)
    ensures es == [] ==> StampedAt(es, now)
  {
  }

  lemma {:induction false} AccountRowsOrdered(es: seq<Entry>, id: string)
    requires Ordered(es)
    ensures Ordered(OfAccount(es, id))
    ensures forall e :: e in OfAccount(es, id) ==> e in es
  {
    if es == [] {
    } else {
      var init, e := es[..|es| - 1], es[|es| - 1];
      OrderedInit(init, e, es);
      AccountRowsOrdered(init, id);
      OrderedAppend(OfAccount(init, id), init, e);
    }
  }

  lemma EntriesOrdered(rs: seq<Request>, id: string)
    requires Timely(rs)
    ensures Ordered(OfAccount(Run(EMPTY, rs).entries, id))
  {
    hide Run, Ordered, OfAccount, Timely;
    RunIsOrdered(rs);
    AccountRowsOrdered(Run(EMPTY, rs).entries, id);
  }

  // ----- Totals do not depend on the order of rows -----

  lemma {:induction false} KindTotalConcat(a: seq<Entry>, b: seq<Entry>, kind: EntryType)
    ensures KindTotal(a + b, kind) == KindTotal(a, kind) + KindTotal(b, kind)
  {
    if b == [] {
      assert a + b == a;
    } else {
      KindTotalConcat(a, b[..|b| - 1], kind);
      assert (a + b)[..|a + b| - 1] == a + b[..|b| - 1];
    }
  }

  /** Taking one row out of a list. */
  lemma KindTotalWithout(rows: seq<Entry>, p: nat, kind: EntryType)
    requires p < |rows|
    ensures KindTotal(rows, kind) == KindTotal(rows[..p] + rows[p + 1..], kind) + KindTotal([rows[p]], kind)
  {
    hide KindTotal;
    var a, e, b := rows[..p], rows[p], rows[p + 1..];
    assert rows == (a + [e]) + b;
    KindTotalConcat(a + [e], b, kind);
    KindTotalConcat(a, [e], kind);
    KindTotalConcat(a, b, kind);
  }

  lemma MultisetWithout(rows: seq<Entry>, p: nat)
    requires p < |rows|
    ensures multiset(rows) == multiset(rows[..p] + rows[p + 1..]) + multiset{rows[p]}
  {
    assert rows == (rows[..p] + [rows[p]]) + rows[p + 1..];
  }

  lemma {:induction false} TotalsOfSameRows(a: seq<Entry>, b: seq<Entry>, kind: EntryType)
    requires multiset(a) == multiset(b)
    ensures KindTotal(a, kind) == KindTotal(b, kind)
    decreases |a|
  {
    if a == [] {
      assert |multiset(b)| == 0;
    } else {
      var e := a[|a| - 1];
      assert e in multiset(b);
      var p :| 0 <= p < |b| && b[p] == e;
      var init, rest := a[..|a| - 1], b[..p] + b[p + 1..];
      assert a == init + [e];
      MultisetWithout(b, p);
      assert multiset(init) == multiset(a) - multiset{e} == multiset(rest);
      hide KindTotal;
      KindTotalConcat(init, [e], kind);
      KindTotalWithout(b, p, kind);
      TotalsOfSameRows(init, rest, kind);
    }
  }

  /** Sum of the amounts of all rows. */
  function AmountTotal(rows: seq<Entry>): int {
    if rows == [] then 0 else AmountTotal(rows[..|rows| - 1]) + rows[|rows| - 1].amount
  }

  /** Each row counts once, as a credit or as a debit. */
  lemma {:induction false} TotalsAddUp(rows: seq<Entry>)
    ensures KindTotal(rows, Credit) + KindTotal(rows, Debit) == AmountTotal(rows)
  {
    if rows == [] {
    } else {
      TotalsAddUp(rows[..|rows| - 1]);
    }
  }

  // ----- What statements promise -----

  /** Closing less what the opening balance and the totals add up to. */
  function Gap(rows: seq<Entry>, opening: Option<Entry>): int {
    ClosingOf(rows, opening) - (OpeningOf(opening) + KindTotal(rows, Credit) - KindTotal(rows, Debit))
  }

  /** How far the snapshot of a row is from the true sum of the entries so far. */
  function Lag(row: Option<Entry>, pre: seq<Entry>, id: string): int {
    SignedSum(pre, id) - OpeningOf(row)
  }

  /** The entries before the next month are those before this month, then those in it. */
  lemma MonthComesNext(rs: seq<Request>, db: Db, id: string, year: int, month: int)
    requires db == Run(EMPTY, rs) && Timely(rs)
    ensures EntriesBefore(db, id, year, month + 1) == EntriesBefore(db, id, year, month) + EntriesIn(db, id, year, month)
  {
    EntriesOrdered(rs, id);
    PeriodIsOrdered(year, month);
    hide OfAccount, InRange, PeriodStart, Ordered;
    BetweenComesNext(OfAccount(db.entries, id), PeriodStart(year, month), PeriodStart(year, month + 1) - 1);
  }

  lemma {:induction false} AllOfAccount(es: seq<Entry>, id: string, r: Range)
    ensures forall k :: 0 <= k < |InRange(OfAccount(es, id), r)| ==> InRange(OfAccount(es, id), r)[k].accountId == id
  {
    AccountRowsOwn(es, id);
    RangeOwn(OfAccount(es, id), id, r);
  }

  lemma {:induction false} AccountRowsOwn(es: seq<Entry>, id: string)
    ensures forall k :: 0 <= k < |OfAccount(es, id)| ==> OfAccount(es, id)[k].accountId == id
  {
    if es == [] {
    } else {
      AccountRowsOwn(es[..|es| - 1], id);
    }
  }

  lemma {:induction false} RangeOwn(es: seq<Entry>, id: string, r: Range)
    requires forall k :: 0 <= k < |es| ==> es[k].accountId == id
    ensures forall k :: 0 <= k < |InRange(es, r)| ==> InRange(es, r)[k].accountId == id
  {
    if es == [] {
    } else {
      RangeOwn(es[..|es| - 1], id, r);
    }
  }

  /** The month's credits less debits are what the month adds to the true sum. */
  lemma MonthAdds(rs: seq<Request>, db: Db, id: string, year: int, month: int, rows: seq<Entry>)
    requires db == Run(EMPTY, rs) && Timely(rs) && RowsAnswer(rows, db, id, year, month)
    ensures KindTotal(rows, Credit) - KindTotal(rows, Debit)
         == SignedSum(EntriesBefore(db, id, year, month + 1), id) - SignedSum(EntriesBefore(db, id, year, month), id)
  {
    hide Run, SignedSum, KindTotal, Timely, Ordered, EntriesBefore;
    var month' := EntriesIn(db, id, year, month);
    AllOfAccount(db.entries, id, Period(year, month));
    hide InRange, OfAccount, Period;
    MonthComesNext(rs, db, id, year, month);
    SumOfConcat(EntriesBefore(db, id, year, month), month', id);
    SumIsCreditsLessDebits(month', id);
    TotalsOfSameRows(rows, month', Credit);
    TotalsOfSameRows(rows, month', Debit);
  }

  /** The last row of a month is a newest entry before the next one. */
  lemma LastRowIsNewest(rs: seq<Request>, db: Db, id: string, year: int, month: int, rows: seq<Entry>)
    requires db == Run(EMPTY, rs) && Timely(rs) && RowsAnswer(rows, db, id, year, month) && rows != []
    ensures OpeningAnswer(Some(rows[|rows| - 1]), db, id, year, month + 1)
  {
    var a := OfAccount(db.entries, id);
    RangeHolds(a, Before(PeriodStart(year, month)));
    RangeHolds(a, Period(year, month));
    hide Run, Timely, InRange, OfAccount, PeriodStart;
    MonthComesNext(rs, db, id, year, month);
    var before, month' := EntriesBefore(db, id, year, month), EntriesIn(db, id, year, month);
    var last := rows[|rows| - 1];
    assert forall e :: e in month' <==> e in multiset(rows);
    assert last in rows;
    forall e: Entry | e in before + month'
      ensures e.createdAt <= last.createdAt
    {
      if e !in before {
        var k :| 0 <= k < |rows| && rows[k] == e;
      }
    }
  }

  lemma {:induction false} RangeHolds(es: seq<Entry>, r: Range)
    ensures forall e :: e in InRange(es, r) ==> r.Contains(e.createdAt)
  {
    if es == [] {
    } else {
      RangeHolds(es[..|es| - 1], r);
    }
  }

  /**
   Whatever order the database gives to rows of one time, a statement is off by the lag of
   the snapshot it opens with less the lag of the one it closes with; without entries it
   carries the opening balance over and adds up.
   */
  lemma StatementReconciles(
    rs: seq<Request>, db: Db, id: string, year: int, month: int, rows: seq<Entry>, opening: Option<Entry>)
    requires db == Run(EMPTY, rs) && Timely(rs)
    requires RowsAnswer(rows, db, id, year, month) && OpeningAnswer(opening, db, id, year, month)
    ensures Gap(rows, opening)
         == if rows == [] then 0
            else Lag(opening, EntriesBefore(db, id, year, month), id)
                 - Lag(Some(rows[|rows| - 1]), EntriesBefore(db, id, year, month + 1), id)
  {
    hide Run, Timely, RowsAnswer, OpeningAnswer, EntriesBefore, SignedSum;
    MonthAdds(rs, db, id, year, month, rows);
  }

  /** A row of the list, and nothing but entries of its time after it. */
  ghost predicate StartsTie(row: Entry, pre: seq<Entry>, k: nat) {
    k < |pre| && pre[k] == row && forall t :: k <= t < |pre| ==> pre[t].createdAt == row.createdAt
  }

  lemma PrefixIsStamped(rows: seq<Entry>, id: string, n: nat)
    requires Stamped(rows, id) && Ordered(rows) && n <= |rows|
    ensures Stamped(rows[..n], id) && Ordered(rows[..n])
  {
    hide SignedSum;
    forall k | 0 <= k < n
      ensures rows[..n][..k] == rows[..k]
    {
    }
  }

  lemma BeforeIsStamped(rs: seq<Request>, db: Db, id: string, year: int, month: int)
    requires db == Run(EMPTY, rs) && Timely(rs)
    ensures Stamped(EntriesBefore(db, id, year, month), id) && Ordered(EntriesBefore(db, id, year, month))
  {
    var a, pre := OfAccount(db.entries, id), EntriesBefore(db, id, year, month);
    hide Run, Timely, PeriodStart, Invariant, InRange, OfAccount, Stamped, Ordered;
    EntriesOrdered(rs, id);
    RunKeeps(rs);
    EntriesStamped(db, id);
    BeforeIsPrefix(a, PeriodStart(year, month));
    PrefixIsStamped(a, id, |pre|);
  }

  lemma TieOfNewest(pre: seq<Entry>, row: Entry, k: nat)
    requires Ordered(pre) && IsNewest(Some(row), pre) && k < |pre| && pre[k] == row
    ensures StartsTie(row, pre, k)
  {
    forall t | k <= t < |pre|
      ensures pre[t].createdAt == row.createdAt
    {
      assert pre[t] in pre;
    }
  }

  lemma LagOfSplit(pre: seq<Entry>, id: string, k: nat)
    requires Stamped(pre, id) && k < |pre|
    ensures Lag(Some(pre[k]), pre, id) == SignedSum(pre[k..], id)
  {
    assert pre[k].balanceAfter == SignedSum(pre[..k], id);
    hide SignedSum, Stamped;
    assert pre[..k] + pre[k..] == pre;
    SumOfConcat(pre[..k], pre[k..], id);
  }

  /**
   In every reachable ledger, the lag of a newest snapshot is the sum of that row and of
   the entries inserted after it, all of which share its time.
   */
  lemma LagIsTie(rs: seq<Request>, db: Db, id: string, year: int, month: int, row: Option<Entry>) returns (k: nat)
    requires db == Run(EMPTY, rs) && Timely(rs) && OpeningAnswer(row, db, id, year, month)
    ensures var pre := EntriesBefore(db, id, year, month);
            && k <= |pre| && Lag(row, pre, id) == SignedSum(pre[k..], id)
            && if row.None? then pre == [] else StartsTie(row.value, pre, k)
  {
    hide Run, Timely, EntriesBefore, SignedSum, Stamped, Ordered, StartsTie;
    var pre := EntriesBefore(db, id, year, month);
    if row.None? {
      k := 0;
      NothingSigned(id);
    } else {
      BeforeIsStamped(rs, db, id, year, month);
      k :| 0 <= k < |pre| && pre[k] == row.value;
      LagOfSplit(pre, id, k);
      TieOfNewest(pre, row.value, k);
    }
  }

  lemma NothingSigned(id: string)
    ensures SignedSum([], id) == 0
  {
  }

  /** One entry alone has the newest time. */
  ghost predicate NewestAlone(pre: seq<Entry>) {
    forall k :: 0 <= k < |pre| - 1 ==> pre[k].createdAt != pre[|pre| - 1].createdAt
  }

  function LastSigned(pre: seq<Entry>): int {
    if pre == [] then 0 else Signed(pre[|pre| - 1])
  }

  /** Then the lag is the signed amount of that entry. */
  lemma LagWhenAlone(rs: seq<Request>, db: Db, id: string, year: int, month: int, row: Option<Entry>)
    requires db == Run(EMPTY, rs) && Timely(rs) && OpeningAnswer(row, db, id, year, month)
    requires NewestAlone(EntriesBefore(db, id, year, month))
    ensures Lag(row, EntriesBefore(db, id, year, month), id) == LastSigned(EntriesBefore(db, id, year, month))
  {
    var k := LagIsTie(rs, db, id, year, month, row);
    AllOfAccount(db.entries, id, Before(PeriodStart(year, month)));
    hide Run, Timely, InRange, OfAccount, PeriodStart, Lag, SignedSum;
    var pre := EntriesBefore(db, id, year, month);
    if row.None? {
      assert pre[k..] == [];
      NothingSigned(id);
    } else {
      TieOfOne(row.value, pre, k);
      assert pre[k..] == [pre[|pre| - 1]];
      OneSigned(pre[|pre| - 1], id);
    }
  }

  lemma TieOfOne(row: Entry, pre: seq<Entry>, k: nat)
    requires NewestAlone(pre) && StartsTie(row, pre, k)
    ensures k == |pre| - 1
  {
  }

  lemma OneSigned(e: Entry, id: string)
    requires e.accountId == id
    ensures SignedSum([e], id) == Signed(e)
  {
    assert [e][..0] == [];
  }

  /** With distinct newest times a statement is off by the last entry before its month less the last one in it. */
  lemma DistinctReconciles(
    rs: seq<Request>, db: Db, id: string, year: int, month: int, rows: seq<Entry>, opening: Option<Entry>)
    requires db == Run(EMPTY, rs) && Timely(rs)
    requires RowsAnswer(rows, db, id, year, month) && OpeningAnswer(opening, db, id, year, month)
    ensures NewestAlone(EntriesBefore(db, id, year, month)) && NewestAlone(EntriesBefore(db, id, year, month + 1)) ==>
              Gap(rows, opening)
              == LastSigned(EntriesBefore(db, id, year, month)) - LastSigned(EntriesBefore(db, id, year, month + 1))
  {
    hide Run, Timely, RowsAnswer, OpeningAnswer, EntriesBefore, NewestAlone, LastSigned, Gap, Lag;
    StatementReconciles(rs, db, id, year, month, rows, opening);
    if rows == [] {
      EmptyMonth(rs, db, id, year, month, rows);
    } else if NewestAlone(EntriesBefore(db, id, year, month)) && NewestAlone(EntriesBefore(db, id, year, month + 1)) {
      LastRowIsNewest(rs, db, id, year, month, rows);
      LagWhenAlone(rs, db, id, year, month, opening);
      LagWhenAlone(rs, db, id, year, month + 1, Some(rows[|rows| - 1]));
    }
  }

  lemma EmptyMonth(rs: seq<Request>, db: Db, id: string, year: int, month: int, rows: seq<Entry>)
    requires db == Run(EMPTY, rs) && Timely(rs) && RowsAnswer(rows, db, id, year, month) && rows == []
    ensures EntriesBefore(db, id, year, month + 1) == EntriesBefore(db, id, year, month)
  {
    hide Run, Timely, EntriesBefore, OfAccount, InRange;
    MonthComesNext(rs, db, id, year, month);
    assert |multiset(EntriesIn(db, id, year, month))| == 0;
    assert EntriesBefore(db, id, year, month) + [] == EntriesBefore(db, id, year, month);
  }

  lemma {:induction false} AccountRowsPositive(es: seq<Entry>, id: string)
    requires forall k :: 0 <= k < |es| ==> es[k].amount > 0
    ensures forall k :: 0 <= k < |OfAccount(es, id)| ==> OfAccount(es, id)[k].amount > 0
  {
    if es == [] {
    } else {
      AccountRowsPositive(es[..|es| - 1], id);
    }
  }

  lemma BeforePositive(db: Db, id: string, year: int, month: int)
    requires Invariant(db)
    ensures forall e :: e in EntriesBefore(db, id, year, month) ==> e.amount > 0
  {
    hide BooksBalance, ReversalsOk, AccountsOk, SignedSum;
    AccountRowsPositive(db.entries, id);
    hide OfAccount;
    RangeWithin(OfAccount(db.entries, id), Before(PeriodStart(year, month)));
  }

  lemma {:induction false} RangeWithin(es: seq<Entry>, r: Range)
    ensures forall e :: e in InRange(es, r) ==> e in es
  {
    if es == [] {
    } else {
      RangeWithin(es[..|es| - 1], r);
    }
  }

  /** The first statement of an account that shows an entry never adds up when its newest entry has a time of its own. */
  lemma FirstStatementIsOff(rs: seq<Request>, db: Db, id: string, year: int, month: int, rows: seq<Entry>)
    requires db == Run(EMPTY, rs) && Timely(rs) && RowsAnswer(rows, db, id, year, month)
    ensures EntriesBefore(db, id, year, month) == [] && rows != []
            && NewestAlone(EntriesBefore(db, id, year, month + 1)) ==>
              Gap(rows, None) != 0
  {
    hide Run, Timely, RowsAnswer, EntriesBefore, Invariant, Gap, NewestAlone;
    if EntriesBefore(db, id, year, month) == [] && rows != [] {
      RunKeeps(rs);
      BeforePositive(db, id, year, month + 1);
      LastRowIsNewest(rs, db, id, year, month, rows);
      NothingIsAlone();
      DistinctReconciles(rs, db, id, year, month, rows, None);
      var after := EntriesBefore(db, id, year, month + 1);
      assert after != [] ==> after[|after| - 1] in after;
    }
  }

  lemma NothingIsAlone()
    ensures NewestAlone([])
  {
  }

  /**
   Each month's closing balance differs from the next month's opening balance by what the
   two answers make of the newest time, and equals it when that time has one entry.
   */
  lemma ClosingIsNextOpening(
    rs: seq<Request>, db: Db, id: string, year: int, month: int,
    rows: seq<Entry>, opening: Option<Entry>, next: Option<Entry>)
    requires db == Run(EMPTY, rs) && Timely(rs)
    requires RowsAnswer(rows, db, id, year, month) && OpeningAnswer(opening, db, id, year, month)
    requires OpeningAnswer(next, db, id, year, month + 1)
    ensures NewestAlone(EntriesBefore(db, id, year, month + 1)) ==> ClosingOf(rows, opening) == OpeningOf(next)
    ensures rows != [] ==>
              ClosingOf(rows, opening) - OpeningOf(next)
              == Lag(next, EntriesBefore(db, id, year, month + 1), id)
                 - Lag(Some(rows[|rows| - 1]), EntriesBefore(db, id, year, month + 1), id)
  {
    hide Run, Timely, RowsAnswer, OpeningAnswer, EntriesBefore, NewestAlone, LastSigned, SignedSum;
    if NewestAlone(EntriesBefore(db, id, year, month + 1)) {
      LagWhenAlone(rs, db, id, year, month + 1, next);
      if rows == [] {
        EmptyMonth(rs, db, id, year, month, rows);
        SameOpening(db, id, year, month, opening);
        LagWhenAlone(rs, db, id, year, month + 1, opening);
      } else {
        LastRowIsNewest(rs, db, id, year, month, rows);
        LagWhenAlone(rs, db, id, year, month + 1, Some(rows[|rows| - 1]));
      }
    }
  }

  lemma SameOpening(db: Db, id: string, year: int, month: int, opening: Option<Entry>)
    requires OpeningAnswer(opening, db, id, year, month)
    requires EntriesBefore(db, id, year, month + 1) == EntriesBefore(db, id, year, month)
    ensures OpeningAnswer(opening, db, id, year, month + 1)
  {
  }

  /** What the queries answer for n months in a row, counted from 0. */
  datatype Answers = Answers(rows: nat -> seq<Entry>, opening: nat -> Option<Entry>)

  ghost predicate AnswersFor(a: Answers, db: Db, id: string, year: int, month: int, n: nat) {
    && (forall k: nat :: k < n ==> RowsAnswer(a.rows(k), db, id, year, month + k))
    && forall k: nat :: k <= n ==> OpeningAnswer(a.opening(k), db, id, year, month + k)
  }

  /** Credits less debits of n monthly statements in a row. */
  function NetOfMonths(a: Answers, n: nat): int {
    if n == 0 then 0 else
    NetOfMonths(a, n - 1) + KindTotal(a.rows(n - 1), Credit) - KindTotal(a.rows(n - 1), Debit)
  }

  /** Over any number of months the totals account for every movement, whatever the order of ties. */
  lemma {:induction false} MonthsAdd(rs: seq<Request>, db: Db, id: string, year: int, month: int, a: Answers, n: nat)
    requires db == Run(EMPTY, rs) && Timely(rs) && AnswersFor(a, db, id, year, month, n)
    ensures NetOfMonths(a, n)
         == SignedSum(EntriesBefore(db, id, year, month + n), id) - SignedSum(EntriesBefore(db, id, year, month), id)
  {
    hide Run, Timely, RowsAnswer, OpeningAnswer, EntriesBefore, SignedSum, KindTotal;
    if n == 0 {
    } else {
      MonthsAdd(rs, db, id, year, month, a, n - 1);
      MonthAdds(rs, db, id, year, month + n - 1, a.rows(n - 1));
    }
  }

  /**
   Over any number of months in a row, the balances and the totals differ only by the lag
   of the first snapshot less the lag of the last.
   */
  lemma StatementsChain(rs: seq<Request>, db: Db, id: string, year: int, month: int, a: Answers, n: nat)
    requires db == Run(EMPTY, rs) && Timely(rs) && AnswersFor(a, db, id, year, month, n)
    ensures OpeningOf(a.opening(n)) - OpeningOf(a.opening(0)) - NetOfMonths(a, n)
         == Lag(a.opening(0), EntriesBefore(db, id, year, month), id)
            - Lag(a.opening(n), EntriesBefore(db, id, year, month + n), id)
  {
    hide Run, Timely, RowsAnswer, OpeningAnswer, EntriesBefore, SignedSum, KindTotal;
    MonthsAdd(rs, db, id, year, month, a, n);
  }

  // ----- Two entries of one time -----

  const IN_5 := EntryInput("A", Credit, 5, "USD")
  const OUT_5 := EntryInput("A", Debit, 5, "USD")
  const ROUND_TRIP := Post(PostRequest(None, [IN_5, OUT_5]), 0)
  const IN_ROW := Entry(0, "A", Credit, 5, "USD", 0, 0)
  const OUT_ROW := Entry(0, "A", Debit, 5, "USD", 5, 0)

  lemma RoundTripAccepted()
    ensures Accepts([IN_5, OUT_5])
  {
    forall c: string
      ensures Total([IN_5, OUT_5], Debit, c) == Total([IN_5, OUT_5], Credit, c)
    {
      assert [IN_5, OUT_5] == [IN_5] + [OUT_5];
      TotalOfConcat([IN_5], [OUT_5], Debit, c);
      TotalOfConcat([IN_5], [OUT_5], Credit, c);
      hide Total;
      TotalOfOne(IN_5, Debit, c);
      TotalOfOne(IN_5, Credit, c);
      TotalOfOne(OUT_5, Debit, c);
      TotalOfOne(OUT_5, Credit, c);
    }
    assert "USD"[0] == 'U';
  }

  lemma InRowInserted(db: Db)
    requires db.entries == [] && "A" in db.accounts
    ensures InsertAll(db, 0, [IN_5], 0).Some?
    ensures var mid := InsertAll(db, 0, [IN_5], 0).value; mid.entries == [IN_ROW] && "A" in mid.accounts
  {
    assert InsertAll(db, 0, [], 0) == Some(db);
    InsertAllAppend(db, 0, [], IN_5, 0);
    hide InsertAll;
    assert [] + [IN_5] == [IN_5];
    assert SignedSum([], "A") == 0;
  }

  lemma RoundTripInserted(db: Db)
    requires db.entries == [] && "A" in db.accounts
    ensures InsertAll(db, 0, [IN_5, OUT_5], 0).Some?
    ensures InsertAll(db, 0, [IN_5, OUT_5], 0).value.entries == [IN_ROW, OUT_ROW]
  {
    InRowInserted(db);
    InsertAllAppend(db, 0, [IN_5], OUT_5, 0);
    assert [IN_5] + [OUT_5] == [IN_5, OUT_5];
    OneSigned(IN_ROW, "A");
    hide InsertAll, SignedSum;
  }

  lemma RoundTripTimely()
    ensures Timely([OPEN_A, ROUND_TRIP])
  {
    assert [OPEN_A][..0] == [] && [OPEN_A, ROUND_TRIP][..1] == [OPEN_A];
    assert Timely([]) && Latest([]) == None;
    assert Timely([OPEN_A]) && Latest([OPEN_A]) == None;
  }

  lemma AccountOpened()
    ensures Run(EMPTY, [OPEN_A]) == Db([], [], map["A" := OpenedAccount("USD")])
  {
    assert Run(EMPTY, []) == EMPTY;
    assert Upper("USD") == "USD";
    hide Run;
    RunOn([], EMPTY, OPEN_A);
    assert [] + [OPEN_A] == [OPEN_A];
  }

  lemma RoundTripRun()
    ensures Run(EMPTY, [OPEN_A, ROUND_TRIP]).entries == [IN_ROW, OUT_ROW]
  {
    hide Run, InsertAll, Accepts, SignedSum;
    AccountOpened();
    RoundTripAccepted();
    var db := Run(EMPTY, [OPEN_A]);
    RunOn([OPEN_A], db, ROUND_TRIP);
    assert [OPEN_A] + [ROUND_TRIP] == [OPEN_A, ROUND_TRIP];
    RoundTripInserted(WithJournal(db, None, None));
  }

  lemma FirstMonthOf1970()
    ensures PeriodStart(1970, 1) == 0 < PeriodStart(1970, 2)
  {
    EpochIsDayZero();
    PeriodIsOrdered(1970, 1);
    hide FirstOfMonth;
  }

  lemma {:induction false} TwoRows(r: Range)
    ensures OfAccount([IN_ROW, OUT_ROW], "A") == [IN_ROW, OUT_ROW]
    ensures InRange([IN_ROW, OUT_ROW], r) == if r.Contains(0) then [IN_ROW, OUT_ROW] else []
  {
    assert [IN_ROW, OUT_ROW][..1] == [IN_ROW] && [IN_ROW][..0] == [];
    assert OfAccount([IN_ROW], "A") == [IN_ROW];
    assert InRange([IN_ROW], r) == if r.Contains(0) then [IN_ROW] else [];
  }

  /** One journal credits and debits 5: January may close with 5 and February open with 0. */
  lemma TiesBreakCarry()
    ensures var db := Run(EMPTY, [OPEN_A, ROUND_TRIP]);
            && Timely([OPEN_A, ROUND_TRIP])
            && RowsAnswer([IN_ROW, OUT_ROW], db, "A", 1970, 1)
            && OpeningAnswer(Some(IN_ROW), db, "A", 1970, 2)
            && ClosingOf([IN_ROW, OUT_ROW], None) == 5 && OpeningOf(Some(IN_ROW)) == 0
  {
    hide Run, Timely, PeriodStart;
    RoundTripRun();
    RoundTripTimely();
    FirstMonthOf1970();
    TwoRows(Period(1970, 1));
    TwoRows(Before(PeriodStart(1970, 2)));
    hide OfAccount, InRange;
  }
}
