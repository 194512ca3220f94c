/**
 The double-entry ledger: journals, reversals, idempotency keys, the balance trigger
 and account holds.

 Amounts are integer counts of 10^-6 currency units. A journal is identified by its
 index. The balance trigger runs before each row is inserted and sums the rows that
 are already there, so the balance it writes does not include the new row.
 */
module Ledger {
  import opened Wrappers
  import opened Money

  datatype EntryType = Debit | Credit

  datatype EntryInput = EntryInput(accountId: string, kind: EntryType, amount: int, currency: string)

  datatype Entry = Entry(
    journalId: nat, accountId: string, kind: EntryType, amount: int, currency: string,
    balanceAfter: int, createdAt: int)

  datatype JournalStatus = Pending | Posted | Reversed

  datatype Journal = Journal(idempotencyKey: Option<string>, status: JournalStatus, reversalOf: Option<nat>)

  datatype AccountStatus = AccountPending | Active | Dormant | Frozen | Closed

  datatype Account = Account(
    currency: string, status: AccountStatus, balance: int, available: int, hold: int, overdraft: int)

  datatype Db = Db(journals: seq<Journal>, entries: seq<Entry>, accounts: map<string, Account>)

  datatype PostRequest = PostRequest(idempotencyKey: Option<string>, entries: seq<EntryInput>)

  datatype Error =
    | BlankCurrency | Unbalanced(currency: string, debits: int, credits: int)
    | JournalNotFound | JournalAlreadyReversed | ConstraintViolated
    | AccountNotFound | AccountNotActive | CurrencyMismatch | InsufficientAvailable | ReleaseExceedsHold
    | InvalidTransition | CustomerNotFound | CustomerNotActive

  // ----- Balance of a request -----

  /** Sum of the amounts of one kind in one currency code. */
  function Total(es: seq<EntryInput>, kind: EntryType, currency: string): int {
    if es == [] then 0 else
    var e := es[|es| - 1];
    Total(es[..|es| - 1], kind, currency) + if e.kind == kind && e.currency == currency then e.amount else 0
  }

  ghost predicate Balanced(es: seq<EntryInput>) {
    forall c: string :: Total(es, Debit, c) == Total(es, Credit, c)
  }

  ghost predicate NoBlank(es: seq<EntryInput>) {
    forall i :: 0 <= i < |es| ==> !Blank(es[i].currency)
  }

  lemma {:induction false} TotalOfAbsent(es: seq<EntryInput>, kind: EntryType, c: string)
    requires forall i :: 0 <= i < |es| ==> es[i].currency != c
    ensures Total(es, kind, c) == 0
  {
    if es == [] {
    } else {
      TotalOfAbsent(es[..|es| - 1], kind, c);
    }
  }

  /** Running totals of one currency. */
  datatype Totals = Totals(debits: int, credits: int)

  function TotalsOf(es: seq<EntryInput>, c: string): Totals {
    Totals(Total(es, Debit, c), Total(es, Credit, c))
  }

  /** The totals of a prefix after one more entry. */
  function Added(t: Totals, e: EntryInput): Totals {
    if e.kind.Debit? then t.(debits := t.debits + e.amount) else t.(credits := t.credits + e.amount)
  }

  lemma TotalsOfAppend(es: seq<EntryInput>, e: EntryInput, c: string)
    ensures TotalsOf(es + [e], c) == if e.currency == c then Added(TotalsOf(es, c), e) else TotalsOf(es, c)
  {
    assert (es + [e])[..|es|] == es;
  }

  lemma TotalsOfAbsent(es: seq<EntryInput>, c: string)
    requires forall i :: 0 <= i < |es| ==> es[i].currency != c
    ensures TotalsOf(es, c) == Totals(0, 0)
  {
    TotalOfAbsent(es, Debit, c);
    TotalOfAbsent(es, Credit, c);
  }

  /** The map holds the totals of exactly the codes that occur. */
  ghost predicate Collected(es: seq<EntryInput>, totals: map<string, Totals>, codes: seq<string>) {
    && NoBlank(es)
    && (forall c :: c in totals <==> c in codes)
    && (forall i :: 0 <= i < |es| ==> es[i].currency in totals)
    && forall c :: c in totals ==> totals[c] == TotalsOf(es, c)
  }

  lemma CollectedOneMore(es: seq<EntryInput>, totals: map<string, Totals>, codes: seq<string>, e: EntryInput)
    requires Collected(es, totals, codes) && !Blank(e.currency)
    ensures var seen := e.currency in totals;
            Collected(es + [e],
                      totals[e.currency := Added(if seen then totals[e.currency] else Totals(0, 0), e)],
                      if seen then codes else codes + [e.currency])
  {
    hide TotalsOf, Added, Blank;
    if e.currency !in totals {
      TotalsOfAbsent(es, e.currency);
    }
    forall c: string
      ensures TotalsOf(es + [e], c) == if e.currency == c then Added(TotalsOf(es, c), e) else TotalsOf(es, c)
    {
      TotalsOfAppend(es, e, c);
    }
  }

  lemma NothingCollected()
    ensures Collected([], map[], [])
  {
  }

  lemma CollectedIsNotBlank(es: seq<EntryInput>, totals: map<string, Totals>, codes: seq<string>)
    requires Collected(es, totals, codes)
    ensures NoBlank(es)
  {
  }

  /** The first loop: totals per currency code, in order of first use. */
  method CollectTotals(es: seq<EntryInput>) returns (ok: bool, totals: map<string, Totals>, codes: seq<string>)
    ensures ok <==> NoBlank(es)
    ensures ok ==> Collected(es, totals, codes)
  {
    hide Collected, Added, Blank;
    totals, codes := map[], [];
    NothingCollected();
    assert es[..0] == [];
    for i := 0 to |es|
      invariant Collected(es[..i], totals, codes)
    {
      var e := es[i];
      assert es[..i + 1] == es[..i] + [e];
      if Blank(e.currency) {
        return false, totals, codes;
      }
      CollectedOneMore(es[..i], totals, codes, e);
      ghost var collected := totals;
      if e.currency !in totals {
        totals := totals[e.currency := Totals(0, 0)];
        codes := codes + [e.currency];
      }
      totals := totals[e.currency := Added(totals[e.currency], e)];
      assert totals == collected[e.currency := totals[e.currency]];
    }
    assert es[..|es|] == es;
    CollectedIsNotBlank(es, totals, codes);
    ok := true;
  }

  lemma CollectedBalances(es: seq<EntryInput>, totals: map<string, Totals>, codes: seq<string>)
    requires Collected(es, totals, codes)
    requires forall j :: 0 <= j < |codes| ==> totals[codes[j]].debits == totals[codes[j]].credits
    ensures Balanced(es)
  {
    forall c: string
      ensures Total(es, Debit, c) == Total(es, Credit, c)
    {
      if c !in totals {
        TotalsOfAbsent(es, c);
      } else {
        assert totals[c] == TotalsOf(es, c);
      }
    }
  }

  /** Accepts exactly the requests that balance in every currency code. */
  method ValidateBalance(es: seq<EntryInput>) returns (r: Result<(), Error>)
    ensures r.Ok? <==> NoBlank(es) && Balanced(es)
    ensures r.Err? && !NoBlank(es) ==> r.error == BlankCurrency
    ensures r.Err? && NoBlank(es) ==>
              && r.error.Unbalanced?
              && r.error.debits == Total(es, Debit, r.error.currency)
              && r.error.credits == Total(es, Credit, r.error.currency)
              && r.error.debits != r.error.credits
  {
    var ok, totals, codes := CollectTotals(es);
    if !ok {
      return Err(BlankCurrency);
    }
    for k := 0 to |codes|
      invariant forall j :: 0 <= j < k ==> totals[codes[j]].debits == totals[codes[j]].credits
    {
      var t := totals[codes[k]];
      if t.debits != t.credits {
        return Err(Unbalanced(codes[k], t.debits, t.credits));
      }
    }
    CollectedBalances(es, totals, codes);
    return Ok(());
  }

  // ----- Entries and the balance trigger -----

  function Signed(e: Entry): int {
    if e.kind.Credit? then e.amount else -e.amount
  }

  /** Credits less debits of an account. */
  function SignedSum(es: seq<Entry>, account: string): int {
    if es == [] then 0 else
    var e := es[|es| - 1];
    SignedSum(es[..|es| - 1], account) + if e.accountId == account then Signed(e) else 0
  }

  /** Credits less debits of an account before its newest entry. */
  function Lagged(es: seq<Entry>, account: string): int {
    if es == [] then 0
    else if es[|es| - 1].accountId == account then SignedSum(es[..|es| - 1], account)
    else Lagged(es[..|es| - 1], account)
  }

  /** The signed amount of the newest entry of an account, 0 when it has none. */
  function Newest(es: seq<Entry>, account: string): int {
    if es == [] then 0
    else if es[|es| - 1].accountId == account then Signed(es[|es| - 1])
    else Newest(es[..|es| - 1], account)
  }

  /** The lagged balance is short of the true sum by exactly the newest entry. */
  lemma {:induction false} LagIsNewest(es: seq<Entry>, account: string)
    ensures SignedSum(es, account) == Lagged(es, account) + Newest(es, account)
  {
    if es != [] && es[|es| - 1].accountId != account {
      LagIsNewest(es[..|es| - 1], account);
    }
  }

  function Available(a: Account): int {
    a.balance - a.hold + a.overdraft
  }

  /** Account row after the trigger has written a balance. */
  function Rebalanced(a: Account, balance: int): Account {
    a.(balance := balance, available := balance - a.hold + a.overdraft)
  }

  /**
   What a column of three characters keeps of a code: trailing spaces beyond the third
   character are cut off, and any other longer code is refused.
   */
  function Column(code: string): Option<string> {
    if |code| <= 3 then Some(code)
    else if forall i :: 3 <= i < |code| ==> code[i] == ' ' then Some(code[..3])
    else None
  }

  /** The checks on a new row: a known account, a positive amount and a code that fits its column. */
  predicate Insertable(db: Db, e: EntryInput) {
    e.accountId in db.accounts && e.amount > 0 && Column(e.currency).Some?
  }

  /** The trigger and the insert. */
  function InsertEntry(db: Db, journalId: nat, e: EntryInput, now: int): Option<Db> {
    if !Insertable(db, e) then None else
    var balance := SignedSum(db.entries, e.accountId);
    Some(db.(
      entries := db.entries
        + [Entry(journalId, e.accountId, e.kind, e.amount, Column(e.currency).value, balance, now)],
      accounts := db.accounts[e.accountId := Rebalanced(db.accounts[e.accountId], balance)]))
  }

  function InsertAll(db: Db, journalId: nat, es: seq<EntryInput>, now: int): Option<Db> {
    if es == [] then Some(db) else
    var before := InsertAll(db, journalId, es[..|es| - 1], now);
    if before.None? then None else InsertEntry(before.value, journalId, es[|es| - 1], now)
  }

  // ----- Posting and reversing -----

  /** Index of the journal holding a key, or the number of journals when there is none. */
  function FindKey(js: seq<Journal>, key: string): (i: nat)
    ensures i <= |js|
    ensures i < |js| ==> js[i].idempotencyKey == Some(key)
    ensures i == |js| ==> forall j :: 0 <= j < |js| ==> js[j].idempotencyKey != Some(key)
  {
    if js == [] then 0
    else if js[0].idempotencyKey == Some(key) then 0
    else 1 + FindKey(js[1..], key)
  }

  predicate HasKey(db: Db, key: Option<string>) {
    key.Some? && FindKey(db.journals, key.value) < |db.journals|
  }

  ghost predicate Accepts(es: seq<EntryInput>) {
    NoBlank(es) && Balanced(es)
  }

  /** The ledger after a post request: unchanged when it is refused or replayed. */
  ghost function AfterPost(db: Db, req: PostRequest, now: int): Db {
    if !Accepts(req.entries) || HasKey(db, req.idempotencyKey) then db else
    var inserted := InsertAll(WithJournal(db, req.idempotencyKey, None), |db.journals|, req.entries, now);
    if inserted.None? then db else inserted.value
  }

  /**
   What a post request is answered: a new journal, the one already under its key, or an
   error. A blank key is falsy, so it is not looked up; the unique index refuses it instead.
   */
  ghost predicate PostAnswers(db: Db, req: PostRequest, now: int, r: Result<nat, Error>) {
    if !Accepts(req.entries) then
      r.Err? && (r.error.BlankCurrency? || r.error.Unbalanced?)
    else if HasKey(db, req.idempotencyKey) then
      r == if req.idempotencyKey.value != "" then Ok(FindKey(db.journals, req.idempotencyKey.value))
           else Err(ConstraintViolated)
    else
      r == if InsertAll(WithJournal(db, req.idempotencyKey, None), |db.journals|, req.entries, now).Some?
           then Ok(|db.journals|) else Err(ConstraintViolated)
  }

  function WithJournal(db: Db, key: Option<string>, reversalOf: Option<nat>): Db {
    db.(journals := db.journals + [Journal(key, Posted, reversalOf)])
  }

  function AsInput(e: Entry): EntryInput {
    EntryInput(e.accountId, e.kind, e.amount, e.currency)
  }

  /** What was requested for one journal, in order. */
  function InputsOf(es: seq<Entry>, journalId: nat): seq<EntryInput> {
    if es == [] then [] else
    var e := es[|es| - 1];
    InputsOf(es[..|es| - 1], journalId) + if e.journalId == journalId then [AsInput(e)] else []
  }

  function Swapped(e: EntryInput): EntryInput {
    e.(kind := if e.kind.Debit? then Credit else Debit)
  }

  function SwapAll(es: seq<EntryInput>): (r: seq<EntryInput>)
    ensures |r| == |es| && forall i :: 0 <= i < |es| ==> r[i] == Swapped(es[i])
  {
    seq(|es|, i requires 0 <= i < |es| => Swapped(es[i]))
  }

  function AfterReverse(db: Db, id: nat, now: int): Db {
    if id >= |db.journals| || db.journals[id].status.Reversed? then db else
    var marked := db.(journals := db.journals[id := db.journals[id].(status := Reversed)]);
    var inserted :=
      InsertAll(WithJournal(marked, None, Some(id)), |db.journals|, SwapAll(InputsOf(db.entries, id)), now);
    if inserted.None? then db else inserted.value
  }

  // ----- Holds and account status -----

  function CheckCurrencies(code: string, a: Account): Option<Error> {
    if Blank(code) || Blank(a.currency) then Some(BlankCurrency)
    else if Normalised(code) != Normalised(a.currency) then Some(CurrencyMismatch)
    else None
  }

  /** The hold trigger: a changed hold recomputes the available balance. */
  function WithHold(a: Account, hold: int): Account {
    if hold == a.hold then a else a.(hold := hold, available := a.balance - hold + a.overdraft)
  }

  function PlaceHold(db: Db, id: string, amount: int, currency: string): Result<Account, Error> {
    if id !in db.accounts then Err(AccountNotFound) else
    var a := db.accounts[id];
    if !a.status.Active? then Err(AccountNotActive)
    else if CheckCurrencies(currency, a).Some? then Err(CheckCurrencies(currency, a).value)
    else if amount > a.available then Err(InsufficientAvailable)
    else Ok(WithHold(a, a.hold + amount))
  }

  function ReleaseHold(db: Db, id: string, amount: int, currency: string): Result<Account, Error> {
    if id !in db.accounts then Err(AccountNotFound) else
    var a := db.accounts[id];
    if CheckCurrencies(currency, a).Some? then Err(CheckCurrencies(currency, a).value)
    else if a.hold - amount < 0 then Err(ReleaseExceedsHold)
    else Ok(WithHold(a, a.hold - amount))
  }

  predicate ValidTransition(s: AccountStatus, t: AccountStatus) {
    match s
    case AccountPending => t.Active? || t.Closed?
    case Active => t.Dormant? || t.Frozen? || t.Closed?
    case Dormant => t.Active? || t.Closed?
    case Frozen => t.Active? || t.Closed?
    case Closed => false
  }

  function UpdateStatus(db: Db, id: string, status: AccountStatus): Result<Account, Error> {
    if id !in db.accounts then Err(AccountNotFound)
    else if !ValidTransition(db.accounts[id].status, status) then Err(InvalidTransition)
    else Ok(db.accounts[id].(status := status))
  }

  function OpenedAccount(currency: string): Account {
    Account(currency, Active, 0, 0, 0, 0)
  }

  // ----- Runs -----

  datatype Request =
    | Open(id: string, currency: string)
    | Post(req: PostRequest, now: int)
    | Reverse(journalId: nat, now: int)
    | Hold(id: string, amount: int, currency: string)
    | Release(id: string, amount: int, currency: string)
    | SetStatus(id: string, status: AccountStatus)

  function Stored(db: Db, id: string, r: Result<Account, Error>): Db {
    if r.Ok? then db.(accounts := db.accounts[id := r.value]) else db
  }

  ghost function Step(db: Db, r: Request): Db {
    match r
    case Open(id, currency) =>
      if id in db.accounts || Column(Upper(currency)).None? then db
      else db.(accounts := db.accounts[id := OpenedAccount(Column(Upper(currency)).value)])
    case Post(req, now) => AfterPost(db, req, now)
    case Reverse(id, now) => AfterReverse(db, id, now)
    case Hold(id, amount, currency) => Stored(db, id, PlaceHold(db, id, amount, currency))
    case Release(id, amount, currency) => Stored(db, id, ReleaseHold(db, id, amount, currency))
    case SetStatus(id, status) => Stored(db, id, UpdateStatus(db, id, status))
  }

  ghost function Run(db: Db, rs: seq<Request>): Db {
    if rs == [] then db else Step(Run(db, rs[..|rs| - 1]), rs[|rs| - 1])
  }

  const EMPTY := Db([], [], map[])

  // ----- What every run keeps -----

  ghost predicate EntriesOk(db: Db) {
    forall k :: 0 <= k < |db.entries| ==>
      var e := db.entries[k];
      && e.journalId < |db.journals| && e.accountId in db.accounts && e.amount > 0 && |e.currency| <= 3
      && e.balanceAfter == SignedSum(db.entries[..k], e.accountId)
  }

  ghost predicate AccountsOk(db: Db) {
    forall a :: a in db.accounts ==>
      db.accounts[a].balance == Lagged(db.entries, a) && db.accounts[a].available == Available(db.accounts[a])
  }

  ghost predicate Invariant(db: Db) {
    && EntriesOk(db)
    && AccountsOk(db)
    && BooksBalance(db)
    && ReversalsOk(db)
    && KeysUnique(db.journals)
  }

  /** Every journal balances in every currency code, and so do all of them together. */
  ghost predicate BooksBalance(db: Db) {
    && (forall j: nat :: j < |db.journals| ==> Balanced(InputsOf(db.entries, j)))
    && Balanced(AllInputs(db.entries))
  }

  function AllInputs(es: seq<Entry>): (r: seq<EntryInput>)
    ensures |r| == |es| && forall i :: 0 <= i < |es| ==> r[i] == AsInput(es[i])
  {
    seq(|es|, i requires 0 <= i < |es| => AsInput(es[i]))
  }

  ghost predicate KeysUnique(js: seq<Journal>) {
    forall i, j :: 0 <= i < j < |js| && js[i].idempotencyKey.Some? ==> js[i].idempotencyKey != js[j].idempotencyKey
  }

  /** Journal r reverses journal j. */
  predicate Reverses(db: Db, r: nat, j: nat) {
    r < |db.journals| && db.journals[r].reversalOf == Some(j)
  }

  /** A journal is REVERSED exactly when one journal, and only one, holds its swapped entries. */
  ghost predicate ReversalsOk(db: Db) {
    && (forall r: nat, j: nat :: Reverses(db, r, j) ==>
          && j < r && db.journals[j].status.Reversed?
          && InputsOf(db.entries, r) == SwapAll(InputsOf(db.entries, j)))
    && (forall r: nat, r': nat, j: nat :: Reverses(db, r, j) && Reverses(db, r', j) ==> r == r')
    && (forall j: nat :: j < |db.journals| && db.journals[j].status.Reversed? ==> exists r: nat :: Reverses(db, r, j))
  }

  lemma EmptyOk()
    ensures Invariant(EMPTY)
  {
  }

  // ----- Totals -----

  lemma {:induction false} TotalOfConcat(a: seq<EntryInput>, b: seq<EntryInput>, kind: EntryType, c: string)
    ensures Total(a + b, kind, c) == Total(a, kind, c) + Total(b, kind, c)
  {
    if b == [] {
      assert a + b == a;
    } else {
      TotalOfConcat(a, b[..|b| - 1], kind, c);
      assert (a + b)[..|a + b| - 1] == a + b[..|b| - 1];
    }
  }

  lemma BalancedConcat(a: seq<EntryInput>, b: seq<EntryInput>)
    requires Balanced(a) && Balanced(b)
    ensures Balanced(a + b)
  {
    forall c: string
      ensures Total(a + b, Debit, c) == Total(a + b, Credit, c)
    {
      TotalOfConcat(a, b, Debit, c);
      TotalOfConcat(a, b, Credit, c);
    }
  }

  function Opposite(kind: EntryType): EntryType {
    if kind.Debit? then Credit else Debit
  }

  lemma {:induction false} TotalOfSwapped(es: seq<EntryInput>, kind: EntryType, c: string)
    ensures Total(SwapAll(es), kind, c) == Total(es, Opposite(kind), c)
  {
    if es == [] {
    } else {
      TotalOfSwapped(es[..|es| - 1], kind, c);
      assert SwapAll(es)[..|es| - 1] == SwapAll(es[..|es| - 1]);
    }
  }

  // ----- What the currency column keeps -----

  /** An input with the code that its row will carry. */
  function Filed(e: EntryInput): EntryInput {
    e.(currency := Column(e.currency).GetOr(e.currency))
  }

  function FiledAll(es: seq<EntryInput>): (r: seq<EntryInput>)
    ensures |r| == |es| && forall i :: 0 <= i < |es| ==> r[i] == Filed(es[i])
  {
    seq(|es|, i requires 0 <= i < |es| => Filed(es[i]))
  }

  /** The inputs of one code, or the others. */
  function Coded(es: seq<EntryInput>, code: string, same: bool): (r: seq<EntryInput>)
    ensures |r| <= |es|
    ensures forall i :: 0 <= i < |r| ==> (r[i].currency == code <==> same)
  {
    if es == [] then [] else
    var e := es[|es| - 1];
    Coded(es[..|es| - 1], code, same) + if (e.currency == code) == same then [e] else []
  }

  lemma {:induction false} TotalOfCoded(es: seq<EntryInput>, code: string, same: bool, kind: EntryType, c: string)
    ensures Total(Coded(es, code, same), kind, c) == if (c == code) == same then Total(es, kind, c) else 0
  {
    if es == [] {
    } else {
      var init, e := es[..|es| - 1], es[|es| - 1];
      TotalOfCoded(init, code, same, kind, c);
      TotalOfConcat(Coded(init, code, same), if (e.currency == code) == same then [e] else [], kind, c);
      TotalOfOne(e, kind, c);
    }
  }

  lemma TotalOfOne(e: EntryInput, kind: EntryType, c: string)
    ensures Total([e], kind, c) == if e.kind == kind && e.currency == c then e.amount else 0
    ensures Total([], kind, c) == 0
  {
  }

  lemma FiledAppend(es: seq<EntryInput>, e: EntryInput)
    ensures FiledAll(es + [e]) == FiledAll(es) + [Filed(e)]
  {
  }

  lemma TotalOfAppend(es: seq<EntryInput>, e: EntryInput, kind: EntryType, c: string)
    ensures Total(es + [e], kind, c) == Total(es, kind, c) + if e.kind == kind && e.currency == c then e.amount else 0
  {
    assert (es + [e])[..|es|] == es;
  }

  /** Filing keeps the total of the inputs of one code and that of the others apart. */
  lemma {:induction false} TotalOfFiled(es: seq<EntryInput>, code: string, kind: EntryType, c: string)
    ensures Total(FiledAll(es), kind, c)
         == Total(FiledAll(Coded(es, code, true)), kind, c) + Total(FiledAll(Coded(es, code, false)), kind, c)
  {
    if es == [] {
    } else {
      hide Total, Filed, FiledAll, Coded;
      var init, e := es[..|es| - 1], es[|es| - 1];
      TotalOfFiled(init, code, kind, c);
      assert es == init + [e];
      FiledTotalAppend(init, e, kind, c);
      CodedAppend(init, e, code, true);
      CodedAppend(init, e, code, false);
      if e.currency == code {
        FiledTotalAppend(Coded(init, code, true), e, kind, c);
      } else {
        FiledTotalAppend(Coded(init, code, false), e, kind, c);
      }
    }
  }

  lemma FiledTotalAppend(es: seq<EntryInput>, e: EntryInput, kind: EntryType, c: string)
    ensures Total(FiledAll(es + [e]), kind, c) == Total(FiledAll(es), kind, c) + Total([Filed(e)], kind, c)
  {
    FiledAppend(es, e);
    hide Total, Filed, FiledAll;
    TotalOfConcat(FiledAll(es), [Filed(e)], kind, c);
  }

  lemma CodedAppend(es: seq<EntryInput>, e: EntryInput, code: string, same: bool)
    ensures Coded(es + [e], code, same) == if (e.currency == code) == same then Coded(es, code, same) + [e] else Coded(es, code, same)
  {
    assert (es + [e])[..|es|] == es;
    assert Coded(es, code, same) + [] == Coded(es, code, same);
  }

  /** Inputs of one code are filed under one code. */
  lemma {:induction false} TotalOfOneCode(es: seq<EntryInput>, code: string, kind: EntryType, c: string)
    requires forall i :: 0 <= i < |es| ==> es[i].currency == code
    ensures Total(FiledAll(es), kind, c) == if c == Column(code).GetOr(code) then Total(es, kind, code) else 0
  {
    if es == [] {
    } else {
      var init, e := es[..|es| - 1], es[|es| - 1];
      TotalOfOneCode(init, code, kind, c);
      assert es == init + [e];
      FiledAppend(init, e);
      hide Column;
      TotalOfAppend(FiledAll(init), Filed(e), kind, c);
      TotalOfAppend(init, e, kind, code);
    }
  }

  /** A balanced request stays balanced when different codes are filed under the same one. */
  lemma {:induction false} BalancedFiled(es: seq<EntryInput>)
    requires Balanced(es)
    ensures Balanced(FiledAll(es))
    decreases |es|
  {
    if es == [] {
    } else {
      var code := es[|es| - 1].currency;
      var others := Coded(es, code, false);
      assert |others| < |es| by {
        assert others == Coded(es[..|es| - 1], code, false) + [];
      }
      hide Column, Total, Coded;
      forall c: string
        ensures Total(others, Debit, c) == Total(others, Credit, c)
      {
        TotalOfCoded(es, code, false, Debit, c);
        TotalOfCoded(es, code, false, Credit, c);
      }
      BalancedFiled(others);
      TotalOfCoded(es, code, true, Debit, code);
      TotalOfCoded(es, code, true, Credit, code);
      forall c: string
        ensures Total(FiledAll(es), Debit, c) == Total(FiledAll(es), Credit, c)
      {
        TotalOfFiled(es, code, Debit, c);
        TotalOfFiled(es, code, Credit, c);
        TotalOfOneCode(Coded(es, code, true), code, Debit, c);
        TotalOfOneCode(Coded(es, code, true), code, Credit, c);
      }
    }
  }

  /** Codes that came out of the column go back in unchanged. */
  lemma FiledUnchanged(es: seq<EntryInput>)
    requires forall i :: 0 <= i < |es| ==> |es[i].currency| <= 3
    ensures FiledAll(es) == es
  {
  }

  lemma BalancedSwapped(es: seq<EntryInput>)
    requires Balanced(es)
    ensures Balanced(SwapAll(es))
  {
    forall c: string
      ensures Total(SwapAll(es), Debit, c) == Total(SwapAll(es), Credit, c)
    {
      TotalOfSwapped(es, Debit, c);
      TotalOfSwapped(es, Credit, c);
    }
  }

  /** Net effect of a journal on one account in one currency. */
  function Net(es: seq<EntryInput>, account: string, currency: string): int {
    if es == [] then 0 else
    var e := es[|es| - 1];
    Net(es[..|es| - 1], account, currency)
    + if e.accountId != account || e.currency != currency then 0 else if e.kind.Credit? then e.amount else -e.amount
  }

  lemma {:induction false} NetOfSwapped(es: seq<EntryInput>, account: string, currency: string)
    ensures Net(SwapAll(es), account, currency) == -Net(es, account, currency)
  {
    if es == [] {
    } else {
      NetOfSwapped(es[..|es| - 1], account, currency);
      assert SwapAll(es)[..|es| - 1] == SwapAll(es[..|es| - 1]);
    }
  }

  /** For rows of one code, the net effect in that code is credits less debits, and nothing in any other. */
  lemma {:induction false} NetIsSigned(es: seq<Entry>, account: string, code: string, other: string)
    requires (forall k :: 0 <= k < |es| ==> es[k].currency == code) && other != code
    ensures Net(AllInputs(es), account, code) == SignedSum(es, account)
    ensures Net(AllInputs(es), account, other) == 0
  {
    if es == [] {
    } else {
      NetIsSigned(es[..|es| - 1], account, code, other);
      assert AllInputs(es)[..|es| - 1] == AllInputs(es[..|es| - 1]);
    }
  }

  // ----- Inserting -----

  lemma InputsOfAppend(es: seq<Entry>, e: Entry, j: nat)
    ensures InputsOf(es + [e], j) == if e.journalId == j then InputsOf(es, j) + [AsInput(e)] else InputsOf(es, j)
  {
    assert (es + [e])[..|es|] == es;
  }

  lemma SumsOfAppend(es: seq<Entry>, e: Entry, a: string)
    ensures SignedSum(es + [e], a) == SignedSum(es, a) + if e.accountId == a then Signed(e) else 0
    ensures Lagged(es + [e], a) == if e.accountId == a then SignedSum(es, a) else Lagged(es, a)
  {
    assert (es + [e])[..|es|] == es;
  }

  /** One insert keeps the entry and account invariants. */
  lemma InsertEntryKeeps(db: Db, journalId: nat, e: EntryInput, now: int)
    requires EntriesOk(db) && AccountsOk(db) && journalId < |db.journals|
    requires InsertEntry(db, journalId, e, now).Some?
    ensures var db' := InsertEntry(db, journalId, e, now).value;
            EntriesOk(db') && AccountsOk(db') && db'.journals == db.journals && db'.accounts.Keys == db.accounts.Keys
  {
    hide SignedSum, Lagged;
    var db' := InsertEntry(db, journalId, e, now).value;
    var x := db'.entries[|db.entries|];
    assert db'.entries == db.entries + [x];
    forall k | 0 <= k < |db'.entries|
      ensures db'.entries[..k] == db.entries[..k]
    {
    }
    assert db.entries[..|db.entries|] == db.entries;
    forall a | a in db'.accounts
      ensures db'.accounts[a].balance == Lagged(db'.entries, a)
      ensures db'.accounts[a].available == Available(db'.accounts[a])
    {
      SumsOfAppend(db.entries, x, a);
    }
  }

  /** What inserting the entries of one journal does to the tables. */
  ghost predicate Inserted(db: Db, journalId: nat, es: seq<EntryInput>, db': Db) {
    && db'.journals == db.journals
    && db'.accounts.Keys == db.accounts.Keys
    && db.entries <= db'.entries
    && AllInputs(db'.entries) == AllInputs(db.entries) + es
    && forall j: nat :: InputsOf(db'.entries, j) == if j == journalId then InputsOf(db.entries, j) + es else InputsOf(db.entries, j)
  }

  lemma InsertedOneMore(db: Db, journalId: nat, es: seq<EntryInput>, mid: Db, e: EntryInput, now: int)
    requires Inserted(db, journalId, es, mid) && InsertEntry(mid, journalId, e, now).Some?
    ensures Inserted(db, journalId, es + [Filed(e)], InsertEntry(mid, journalId, e, now).value)
  {
    hide InputsOf, SignedSum, Column;
    var db' := InsertEntry(mid, journalId, e, now).value;
    var x := db'.entries[|mid.entries|];
    assert db'.entries == mid.entries + [x] && AsInput(x) == Filed(e);
    forall j: nat
      ensures InputsOf(db'.entries, j)
           == if j == journalId then InputsOf(db.entries, j) + (es + [Filed(e)]) else InputsOf(db.entries, j)
    {
      InputsOfAppend(mid.entries, x, j);
    }
    assert AllInputs(db'.entries) == AllInputs(mid.entries) + [Filed(e)];
  }

  lemma {:induction false} InsertAllKeeps(db: Db, journalId: nat, es: seq<EntryInput>, now: int)
    requires EntriesOk(db) && AccountsOk(db) && journalId < |db.journals|
    requires InsertAll(db, journalId, es, now).Some?
    ensures var db' := InsertAll(db, journalId, es, now).value;
            EntriesOk(db') && AccountsOk(db') && Inserted(db, journalId, FiledAll(es), db')
  {
    hide EntriesOk, AccountsOk, InsertEntry, InputsOf;
    if es == [] {
      assert FiledAll(es) == [];
      assert AllInputs(db.entries) + [] == AllInputs(db.entries);
      assert forall j: nat :: InputsOf(db.entries, j) + [] == InputsOf(db.entries, j);
    } else {
      var before := es[..|es| - 1];
      InsertAllKeeps(db, journalId, before, now);
      var mid := InsertAll(db, journalId, before, now).value;
      assert es == before + [es[|es| - 1]];
      FiledAppend(before, es[|es| - 1]);
      InsertedJournals(db, journalId, FiledAll(before), mid);
      InsertEntryKeeps(mid, journalId, es[|es| - 1], now);
      InsertedOneMore(db, journalId, FiledAll(before), mid, es[|es| - 1], now);
    }
  }

  lemma InsertedJournals(db: Db, journalId: nat, es: seq<EntryInput>, db': Db)
    requires Inserted(db, journalId, es, db')
    ensures db'.journals == db.journals
  {
  }

  /** An insert is refused only for an unknown account, an amount that is not positive or a code that does not fit. */
  lemma {:induction false} InsertAllSucceeds(db: Db, journalId: nat, es: seq<EntryInput>, now: int)
    ensures InsertAll(db, journalId, es, now).Some? <==>
            forall i :: 0 <= i < |es| ==> Insertable(db, es[i])
    ensures InsertAll(db, journalId, es, now).Some? ==>
              InsertAll(db, journalId, es, now).value.accounts.Keys == db.accounts.Keys
  {
    hide SignedSum, Column;
    if es == [] {
    } else {
      InsertAllSucceeds(db, journalId, es[..|es| - 1], now);
    }
  }

  // ----- One request -----

  lemma {:induction false} InputsOfNone(es: seq<Entry>, j: nat)
    requires forall k :: 0 <= k < |es| ==> es[k].journalId != j
    ensures InputsOf(es, j) == []
  {
    if es == [] {
    } else {
      InputsOfNone(es[..|es| - 1], j);
    }
  }

  lemma NewJournalIsEmpty(db: Db)
    requires EntriesOk(db)
    ensures InputsOf(db.entries, |db.journals|) == []
  {
    InputsOfNone(db.entries, |db.journals|);
  }

  /** Inserting a balanced journal at the end keeps the books balanced. */
  lemma NewJournalBalances(db: Db, es: seq<EntryInput>, db': Db)
    requires EntriesOk(db) && BooksBalance(db) && Balanced(es)
    requires |db'.journals| == |db.journals| + 1
    requires AllInputs(db'.entries) == AllInputs(db.entries) + es
    requires forall j: nat :: InputsOf(db'.entries, j)
               == if j == |db.journals| then InputsOf(db.entries, j) + es else InputsOf(db.entries, j)
    ensures BooksBalance(db')
  {
    hide InputsOf, Balanced;
    NewJournalIsEmpty(db);
    BalancedConcat(AllInputs(db.entries), es);
    assert [] + es == es;
  }

  lemma PostKeepsReversals(db: Db, es: seq<EntryInput>, key: Option<string>, db': Db)
    requires EntriesOk(db) && ReversalsOk(db) && db'.journals == db.journals + [Journal(key, Posted, None)]
    requires forall j: nat :: InputsOf(db'.entries, j)
               == if j == |db.journals| then InputsOf(db.entries, j) + es else InputsOf(db.entries, j)
    ensures ReversalsOk(db')
  {
    hide InputsOf, SwapAll;
    assert forall r: nat, j: nat :: Reverses(db', r, j) <==> Reverses(db, r, j);
  }

  lemma PostKeeps(db: Db, req: PostRequest, now: int)
    requires Invariant(db)
    ensures Invariant(AfterPost(db, req, now))
  {
    hide EntriesOk, AccountsOk, BooksBalance, ReversalsOk, InsertAll, InputsOf, Balanced;
    var db' := AfterPost(db, req, now);
    if db' != db {
      var begun := WithJournal(db, req.idempotencyKey, None);
      JournalKeepsRows(db, begun);
      InsertAllKeeps(begun, |db.journals|, req.entries, now);
      BalancedFiled(req.entries);
      NewJournalBalances(db, FiledAll(req.entries), db');
      PostKeepsReversals(db, FiledAll(req.entries), req.idempotencyKey, db');
    }
  }

  lemma JournalKeepsRows(db: Db, db': Db)
    requires EntriesOk(db) && AccountsOk(db)
    requires db'.entries == db.entries && db'.accounts == db.accounts && |db'.journals| >= |db.journals|
    ensures EntriesOk(db') && AccountsOk(db')
  {
  }

  lemma ReverseRelation(db: Db, id: nat, db': Db, r: nat, j: nat)
    requires id < |db.journals|
    requires db'.journals == db.journals[id := db.journals[id].(status := Reversed)] + [Journal(None, Posted, Some(id))]
    ensures Reverses(db', r, j) <==> Reverses(db, r, j) || (r == |db.journals| && j == id)
  {
  }

  lemma NotYetReversed(db: Db, id: nat, r: nat)
    requires ReversalsOk(db) && id < |db.journals| && !db.journals[id].status.Reversed?
    ensures !Reverses(db, r, id)
  {
  }

  lemma ReverseKeepsReversals(db: Db, id: nat, db': Db)
    requires EntriesOk(db) && ReversalsOk(db) && id < |db.journals| && !db.journals[id].status.Reversed?
    requires db'.journals == db.journals[id := db.journals[id].(status := Reversed)] + [Journal(None, Posted, Some(id))]
    requires forall j: nat :: InputsOf(db'.entries, j)
               == if j == |db.journals| then InputsOf(db.entries, j) + SwapAll(InputsOf(db.entries, id)) else InputsOf(db.entries, j)
    ensures ReversalsOk(db')
  {
    hide InputsOf, SwapAll, EntriesOk, Reverses;
    NewJournalIsEmpty(db);
    var n, swapped := |db.journals|, SwapAll(InputsOf(db.entries, id));
    assert [] + swapped == swapped;
    ReverseRelation(db, id, db', n, id);
    forall r: nat, j: nat | Reverses(db', r, j)
      ensures Reverses(db, r, j) || (r == n && j == id)
      ensures j < r <= n && db'.journals[j].status.Reversed?
      ensures InputsOf(db'.entries, r) == SwapAll(InputsOf(db'.entries, j))
    {
      ReverseRelation(db, id, db', r, j);
      ReversesBelow(db, r, j);
    }
    forall r: nat, r': nat, j: nat | Reverses(db', r, j) && Reverses(db', r', j)
      ensures r == r'
    {
      ReverseRelation(db, id, db', r, j);
      ReverseRelation(db, id, db', r', j);
      NotYetReversed(db, id, r);
      NotYetReversed(db, id, r');
    }
    forall j: nat | j < |db'.journals| && db'.journals[j].status.Reversed?
      ensures exists r: nat :: Reverses(db', r, j)
    {
      if j == id {
        assert Reverses(db', n, id);
      } else {
        var r: nat :| Reverses(db, r, j);
        ReverseRelation(db, id, db', r, j);
      }
    }
  }

  lemma ReversesBelow(db: Db, r: nat, j: nat)
    ensures Reverses(db, r, j) ==> r < |db.journals|
  {
  }

  /** A journal can always be reversed: its rows satisfy the insert checks. */
  lemma ReversalInserts(db: Db, id: nat, db1: Db, now: int)
    requires EntriesOk(db) && db1.accounts == db.accounts
    ensures InsertAll(db1, |db.journals|, SwapAll(InputsOf(db.entries, id)), now).Some?
  {
    InputsAreGood(db.entries, id, db.accounts);
    hide InsertAll;
    InsertAllSucceeds(db1, |db.journals|, SwapAll(InputsOf(db.entries, id)), now);
  }

  lemma {:induction false} InputsAreGood(es: seq<Entry>, id: nat, accounts: map<string, Account>)
    requires forall k :: 0 <= k < |es| ==> es[k].accountId in accounts && es[k].amount > 0 && |es[k].currency| <= 3
    ensures forall i :: 0 <= i < |InputsOf(es, id)| ==>
              && InputsOf(es, id)[i].accountId in accounts && InputsOf(es, id)[i].amount > 0
              && |InputsOf(es, id)[i].currency| <= 3
  {
    if es == [] {
    } else {
      InputsAreGood(es[..|es| - 1], id, accounts);
    }
  }

  lemma ReversalFiled(db: Db, id: nat)
    requires EntriesOk(db)
    ensures FiledAll(SwapAll(InputsOf(db.entries, id))) == SwapAll(InputsOf(db.entries, id))
  {
    InputsAreGood(db.entries, id, db.accounts);
    hide EntriesOk, InputsOf;
    FiledUnchanged(SwapAll(InputsOf(db.entries, id)));
  }

  lemma ReverseKeeps(db: Db, id: nat, now: int)
    requires Invariant(db)
    ensures Invariant(AfterReverse(db, id, now))
  {
    hide EntriesOk, AccountsOk, BooksBalance, ReversalsOk, InsertAll, InputsOf, Balanced;
    var db' := AfterReverse(db, id, now);
    if db' != db {
      var marked := db.(journals := db.journals[id := db.journals[id].(status := Reversed)]);
      var begun := WithJournal(marked, None, Some(id));
      var es := SwapAll(InputsOf(db.entries, id));
      JournalKeepsRows(db, begun);
      InsertAllKeeps(begun, |db.journals|, es, now);
      ReversalFiled(db, id);
      JournalBalances(db, id);
      BalancedSwapped(InputsOf(db.entries, id));
      NewJournalBalances(db, es, db');
      ReverseKeepsReversals(db, id, db');
    }
  }

  lemma JournalBalances(db: Db, j: nat)
    requires BooksBalance(db) && j < |db.journals|
    ensures Balanced(InputsOf(db.entries, j))
  {
  }

  lemma AccountChangeKeeps(db: Db, id: string, a: Account)
    requires Invariant(db)
    requires a.available == Available(a)
    requires id in db.accounts ==> a.balance == db.accounts[id].balance
    requires id !in db.accounts ==> a.balance == 0
    ensures Invariant(db.(accounts := db.accounts[id := a]))
  {
    hide InputsOf, Balanced, SignedSum, SwapAll, AllInputs;
    var db' := db.(accounts := db.accounts[id := a]);
    if id !in db.accounts {
      NoEntriesNoBalance(db.entries, id);
    }
    assert forall r: nat, j: nat :: Reverses(db', r, j) <==> Reverses(db, r, j);
  }

  lemma {:induction false} NoEntriesNoBalance(es: seq<Entry>, id: string)
    requires forall k :: 0 <= k < |es| ==> es[k].accountId != id
    ensures Lagged(es, id) == 0 && SignedSum(es, id) == 0
  {
    if es == [] {
    } else {
      NoEntriesNoBalance(es[..|es| - 1], id);
    }
  }

  lemma AvailableOf(db: Db, id: string)
    requires AccountsOk(db) && id in db.accounts
    ensures db.accounts[id].available == Available(db.accounts[id])
  {
  }

  lemma StepKeeps(db: Db, r: Request)
    requires Invariant(db)
    ensures Invariant(Step(db, r))
  {
    hide Invariant, AfterPost, AfterReverse;
    match r
    case Open(id, currency) =>
      if id !in db.accounts && Column(Upper(currency)).Some? {
        AccountChangeKeeps(db, id, OpenedAccount(Column(Upper(currency)).value));
      }
    case Post(req, now) =>
      PostKeeps(db, req, now);
    case Reverse(id, now) =>
      ReverseKeeps(db, id, now);
    case Hold(id, amount, currency) =>
      AccountStepKeeps(db, id, PlaceHold(db, id, amount, currency));
    case Release(id, amount, currency) =>
      AccountStepKeeps(db, id, ReleaseHold(db, id, amount, currency));
    case SetStatus(id, status) =>
      AccountStepKeeps(db, id, UpdateStatus(db, id, status));
  }

  lemma AccountStepKeeps(db: Db, id: string, r: Result<Account, Error>)
    requires Invariant(db)
    requires r.Ok? ==>
      && id in db.accounts && r.value.balance == db.accounts[id].balance
      && (r.value.available == Available(r.value)
          || (r.value.available == db.accounts[id].available && r.value.hold == db.accounts[id].hold
              && r.value.overdraft == db.accounts[id].overdraft))
    ensures Invariant(Stored(db, id, r))
  {
    if r.Ok? {
      AvailableOf(db, id);
      hide Invariant;
      AccountChangeKeeps(db, id, r.value);
    }
  }

  // ----- Every run -----

  /** Every state reached from the empty ledger satisfies the invariant. */
  lemma {:induction false} RunKeeps(rs: seq<Request>)
    ensures Invariant(Run(EMPTY, rs))
  {
    hide Step;
    if rs == [] {
      EmptyOk();
    } else {
      RunKeeps(rs[..|rs| - 1]);
      StepKeeps(Run(EMPTY, rs[..|rs| - 1]), rs[|rs| - 1]);
    }
  }

  /** In every run total debits equal total credits in every currency code. */
  lemma DebitsEqualCredits(rs: seq<Request>, currency: string)
    ensures var es := AllInputs(Run(EMPTY, rs).entries); Total(es, Debit, currency) == Total(es, Credit, currency)
  {
    hide Run, Total;
    RunKeeps(rs);
  }

  /**
   In every run a journal is reversed at most once, exactly when it is marked so, and
   it nets to zero with its reversal on every account.
   */
  lemma ReversalNetsToZero(rs: seq<Request>, j: nat)
    ensures var db := Run(EMPTY, rs);
            j < |db.journals| ==>
              && (db.journals[j].status.Reversed? <==> exists r: nat :: Reverses(db, r, j))
              && (forall r: nat, r': nat :: Reverses(db, r, j) && Reverses(db, r', j) ==> r == r')
              && forall r: nat, a: string, c: string :: Reverses(db, r, j) ==>
                   Net(InputsOf(db.entries, j), a, c) + Net(InputsOf(db.entries, r), a, c) == 0
  {
    hide Run, Net, InputsOf, SwapAll;
    RunKeeps(rs);
    var db := Run(EMPTY, rs);
    forall a: string, c: string
      ensures Net(SwapAll(InputsOf(db.entries, j)), a, c) == -Net(InputsOf(db.entries, j), a, c)
    {
      NetOfSwapped(InputsOf(db.entries, j), a, c);
    }
  }

  /**
   In every reachable state the available balance is balance - hold + overdraft, and
   the balance is short of the account's entries by exactly the newest of them; each
   balance_after likewise leaves its own entry out.
   */
  lemma BalanceLags(rs: seq<Request>, id: string)
    ensures var db := Run(EMPTY, rs);
            id in db.accounts ==>
              var a := db.accounts[id];
              && a.available == a.balance - a.hold + a.overdraft
              && a.balance == SignedSum(db.entries, id) - Newest(db.entries, id)
              && forall k :: 0 <= k < |db.entries| && db.entries[k].accountId == id ==>
                   db.entries[k].balanceAfter == SignedSum(db.entries[..k], id)
  {
    hide Run, SignedSum, Newest, Lagged;
    RunKeeps(rs);
    LagIsNewest(Run(EMPTY, rs).entries, id);
  }

  lemma {:induction false} NewestIsZero(es: seq<Entry>, account: string)
    requires forall k :: 0 <= k < |es| ==> es[k].amount > 0
    ensures Newest(es, account) == 0 <==> forall k :: 0 <= k < |es| ==> es[k].accountId != account
  {
    if es == [] {
    } else {
      NewestIsZero(es[..|es| - 1], account);
    }
  }

  /** In every reachable state a balance is the sum of the account's entries exactly when it has none. */
  lemma BalanceExactly(rs: seq<Request>, db: Db, id: string)
    requires db == Run(EMPTY, rs) && id in db.accounts
    ensures db.accounts[id].balance == SignedSum(db.entries, id) <==>
            forall k :: 0 <= k < |db.entries| ==> db.entries[k].accountId != id
  {
    hide Run, SignedSum, Newest, BooksBalance, ReversalsOk, AccountsOk;
    BalanceLags(rs, id);
    RunKeeps(rs);
    NewestIsZero(db.entries, id);
  }

  // Two accounts and one balanced journal that credits 1000 to the second, a request at a time.

  const DEBIT_A := EntryInput("A", Debit, 1000, "USD")
  const CREDIT_B := EntryInput("B", Credit, 1000, "USD")
  const OPEN_A := Open("A", "USD")
  const OPEN_B := Open("B", "USD")
  const DEPOSIT := Post(PostRequest(None, [DEBIT_A, CREDIT_B]), 0)

  lemma RunOn(rs: seq<Request>, db: Db, r: Request)
    requires Run(EMPTY, rs) == db
    ensures Run(EMPTY, rs + [r]) == Step(db, r)
  {
    hide Step;
    assert (rs + [r])[..|rs|] == rs;
  }

  lemma AccountsOpened()
    ensures Run(EMPTY, [OPEN_A, OPEN_B]) == Db([], [], map["A" := OpenedAccount("USD"), "B" := OpenedAccount("USD")])
  {
    assert Run(EMPTY, []) == EMPTY;
    hide Run;
    assert Upper("USD") == "USD";
    RunOn([], EMPTY, OPEN_A);
    assert [] + [OPEN_A] == [OPEN_A];
    RunOn([OPEN_A], Step(EMPTY, OPEN_A), OPEN_B);
    assert [OPEN_A] + [OPEN_B] == [OPEN_A, OPEN_B];
  }

  lemma DepositAccepted()
    ensures Accepts([DEBIT_A, CREDIT_B])
  {
    forall c: string
      ensures Total([DEBIT_A, CREDIT_B], Debit, c) == Total([DEBIT_A, CREDIT_B], Credit, c)
    {
      assert [DEBIT_A, CREDIT_B] == [DEBIT_A] + [CREDIT_B];
      TotalOfConcat([DEBIT_A], [CREDIT_B], Debit, c);
      TotalOfConcat([DEBIT_A], [CREDIT_B], Credit, c);
      hide Total;
      TotalOfOne(DEBIT_A, Debit, c);
      TotalOfOne(DEBIT_A, Credit, c);
      TotalOfOne(CREDIT_B, Debit, c);
      TotalOfOne(CREDIT_B, Credit, c);
    }
    assert "USD"[0] == 'U';
  }

  lemma InsertAllAppend(db: Db, journalId: nat, es: seq<EntryInput>, e: EntryInput, now: int)
    ensures var before := InsertAll(db, journalId, es, now);
            InsertAll(db, journalId, es + [e], now)
              == if before.None? then None else InsertEntry(before.value, journalId, e, now)
  {
    assert (es + [e])[..|es|] == es;
    hide InsertEntry;
  }

  lemma FirstRow(db: Db)
    requires db.entries == [] && "A" in db.accounts
    ensures InsertAll(db, 0, [DEBIT_A], 0).Some?
    ensures var mid := InsertAll(db, 0, [DEBIT_A], 0).value;
            mid.entries == [Entry(0, "A", Debit, 1000, "USD", 0, 0)] && mid.accounts.Keys == db.accounts.Keys
  {
    assert InsertAll(db, 0, [], 0) == Some(db);
    InsertAllAppend(db, 0, [], DEBIT_A, 0);
    hide InsertAll;
    assert [] + [DEBIT_A] == [DEBIT_A];
    assert SignedSum([], "A") == 0;
  }

  lemma SecondRow(mid: Db)
    requires mid.entries == [Entry(0, "A", Debit, 1000, "USD", 0, 0)] && "B" in mid.accounts
    ensures InsertEntry(mid, 0, CREDIT_B, 0).Some?
    ensures var after := InsertEntry(mid, 0, CREDIT_B, 0).value;
            && "B" in after.accounts && after.accounts["B"].balance == 0
            && after.entries == [Entry(0, "A", Debit, 1000, "USD", 0, 0), Entry(0, "B", Credit, 1000, "USD", 0, 0)]
  {
    NoEntriesNoBalance(mid.entries, "B");
    hide SignedSum;
  }

  /** Inserting the two rows, one after the other. */
  lemma DepositInserted(db: Db)
    requires db.entries == [] && "A" in db.accounts && "B" in db.accounts
    ensures var inserted := InsertAll(db, 0, [DEBIT_A, CREDIT_B], 0);
            && inserted.Some? && "B" in inserted.value.accounts
            && inserted.value.accounts["B"].balance == 0
            && inserted.value.entries == [Entry(0, "A", Debit, 1000, "USD", 0, 0), Entry(0, "B", Credit, 1000, "USD", 0, 0)]
  {
    hide InsertAll, InsertEntry;
    FirstRow(db);
    SecondRow(InsertAll(db, 0, [DEBIT_A], 0).value);
    InsertAllAppend(db, 0, [DEBIT_A], CREDIT_B, 0);
    assert [DEBIT_A] + [CREDIT_B] == [DEBIT_A, CREDIT_B];
  }

  lemma CreditOfTwo(es: seq<Entry>)
    requires es == [Entry(0, "A", Debit, 1000, "USD", 0, 0), Entry(0, "B", Credit, 1000, "USD", 0, 0)]
    ensures SignedSum(es, "B") == 1000
  {
    NoEntriesNoBalance(es[..1], "B");
  }

  /** A balanced journal credits 1000 to a new account, whose balance stays 0. */
  lemma FirstCreditNotVisible()
    ensures var db := Run(EMPTY, [OPEN_A, OPEN_B, DEPOSIT]);
            "B" in db.accounts && SignedSum(db.entries, "B") == 1000 && db.accounts["B"].balance == 0
  {
    hide Run, SignedSum, InsertAll, Accepts;
    AccountsOpened();
    DepositAccepted();
    var before := Run(EMPTY, [OPEN_A, OPEN_B]);
    assert [OPEN_A, OPEN_B] + [DEPOSIT] == [OPEN_A, OPEN_B, DEPOSIT];
    RunOn([OPEN_A, OPEN_B], before, DEPOSIT);
    var begun := WithJournal(before, None, None);
    DepositInserted(begun);
    CreditOfTwo(InsertAll(begun, 0, [DEBIT_A, CREDIT_B], 0).value.entries);
  }

  // ----- Holds -----

  /**
   A granted hold comes out of the available balance and never takes it below zero;
   releasing it restores the account.
   */
  lemma HoldRoundTrip(db: Db, id: string, amount: int, currency: string)
    requires AccountsOk(db) && id in db.accounts && PlaceHold(db, id, amount, currency).Ok?
    ensures var a, held := db.accounts[id], PlaceHold(db, id, amount, currency).value;
            && held.available == a.available - amount >= 0
            && held.hold == a.hold + amount && held.balance == a.balance
            && (a.hold >= 0 ==>
                  ReleaseHold(db.(accounts := db.accounts[id := held]), id, amount, currency) == Ok(a))
  {
    AvailableOf(db, id);
    hide Normalised, Blank;
  }

  /** A code that is not blank and means the same currency. */
  predicate SameCode(code: string, code': string) {
    Normalised(code) == Normalised(code') != ""
  }

  /** Two codes that are not blank and differ are a mismatch. */
  lemma CurrencyErrors(code: string, a: Account)
    ensures CheckCurrencies(code, a) == None <==> SameCode(code, a.currency)
    ensures CheckCurrencies(code, a) == Some(BlankCurrency) <==> Normalised(code) == "" || Normalised(a.currency) == ""
    ensures CheckCurrencies(code, a) in {None, Some(BlankCurrency), Some(CurrencyMismatch)}
  {
    BlankHasNoCode(code);
    BlankHasNoCode(a.currency);
    hide Normalised, Blank;
  }

  /** A hold is granted exactly on an active account, in its currency and within its available balance. */
  predicate Granted(db: Db, id: string, amount: int, currency: string) {
    && id in db.accounts && db.accounts[id].status.Active?
    && SameCode(currency, db.accounts[id].currency) && amount <= db.accounts[id].available
  }

  lemma HoldChanges(db: Db, id: string, amount: int, currency: string)
    ensures PlaceHold(db, id, amount, currency).Ok? <==> Granted(db, id, amount, currency)
    ensures id !in db.accounts <==> PlaceHold(db, id, amount, currency) == Err(AccountNotFound)
    ensures id in db.accounts && !db.accounts[id].status.Active? <==> PlaceHold(db, id, amount, currency) == Err(AccountNotActive)
    ensures PlaceHold(db, id, amount, currency) == Err(InsufficientAvailable) <==>
            && id in db.accounts && db.accounts[id].status.Active?
            && SameCode(currency, db.accounts[id].currency) && amount > db.accounts[id].available
    ensures Granted(db, id, amount, currency) ==>
              PlaceHold(db, id, amount, currency).value.hold == db.accounts[id].hold + amount
  {
    BlankHasNoCode(currency);
    if id in db.accounts {
      BlankHasNoCode(db.accounts[id].currency);
    }
    hide Normalised, Blank;
  }

  lemma ReleaseChanges(db: Db, id: string, amount: int, currency: string)
    ensures ReleaseHold(db, id, amount, currency).Ok? <==>
            id in db.accounts && SameCode(currency, db.accounts[id].currency) && amount <= db.accounts[id].hold
    ensures id !in db.accounts <==> ReleaseHold(db, id, amount, currency) == Err(AccountNotFound)
    ensures id in db.accounts && SameCode(currency, db.accounts[id].currency) && amount > db.accounts[id].hold
            <==> ReleaseHold(db, id, amount, currency) == Err(ReleaseExceedsHold)
    ensures ReleaseHold(db, id, amount, currency).Ok? ==>
              ReleaseHold(db, id, amount, currency).value.hold == db.accounts[id].hold - amount
  {
    BlankHasNoCode(currency);
    if id in db.accounts {
      BlankHasNoCode(db.accounts[id].currency);
    }
    hide Normalised, Blank;
  }

  /** Holds granted on an account less what was released, a release being refused beyond what is held. */
  ghost function NetHeld(rs: seq<Request>, id: string): int {
    if rs == [] then 0 else
    var before, r := rs[..|rs| - 1], rs[|rs| - 1];
    var held, db := NetHeld(before, id), Run(EMPTY, before);
    if r.Hold? && r.id == id && Granted(db, id, r.amount, r.currency) then held + r.amount
    else if r.Release? && r.id == id && id in db.accounts && SameCode(r.currency, db.accounts[id].currency)
            && r.amount <= held then held - r.amount
    else held
  }

  /** What no posting changes about an account. */
  ghost predicate KeptAccount(a: Account, a': Account) {
    a'.hold == a.hold && a'.status == a.status && a'.currency == a.currency && a'.overdraft == a.overdraft
  }

  ghost predicate KeptAccounts(db: Db, db': Db) {
    db'.accounts.Keys == db.accounts.Keys
    && forall a :: a in db.accounts ==> KeptAccount(db.accounts[a], db'.accounts[a])
  }

  lemma {:induction false} InsertAllKeepsAccounts(db: Db, journalId: nat, es: seq<EntryInput>, now: int)
    ensures InsertAll(db, journalId, es, now).Some? ==> KeptAccounts(db, InsertAll(db, journalId, es, now).value)
  {
    hide SignedSum, Column;
    if es == [] {
    } else {
      InsertAllKeepsAccounts(db, journalId, es[..|es| - 1], now);
    }
  }

  lemma PostingKeepsAccounts(db: Db, r: Request)
    requires r.Post? || r.Reverse?
    ensures KeptAccounts(db, Step(db, r))
  {
    hide InsertAll, InputsOf, Balanced, NoBlank, KeptAccount;
    assert KeptAccounts(db, db) by { SameAccounts(db); }
    if r.Post? {
      InsertAllKeepsAccounts(WithJournal(db, r.req.idempotencyKey, None), |db.journals|, r.req.entries, r.now);
    } else if r.journalId < |db.journals| {
      var marked := db.(journals := db.journals[r.journalId := db.journals[r.journalId].(status := Reversed)]);
      InsertAllKeepsAccounts(WithJournal(marked, None, Some(r.journalId)), |db.journals|,
                             SwapAll(InputsOf(db.entries, r.journalId)), r.now);
    }
  }

  lemma SameAccounts(db: Db)
    ensures KeptAccounts(db, db)
  {
  }

  lemma HoldOfStep(db: Db, r: Request, id: string)
    ensures id in db.accounts && !r.Hold? && !r.Release? ==>
              id in Step(db, r).accounts && Step(db, r).accounts[id].hold == db.accounts[id].hold
    ensures id !in db.accounts && id in Step(db, r).accounts ==> Step(db, r).accounts[id].hold == 0
  {
    hide AfterPost, AfterReverse, Normalised, Blank, Column, Upper;
    if r.Post? || r.Reverse? {
      PostingKeepsAccounts(db, r);
    }
  }

  /**
   In every run the hold of an account is what was granted less what was released,
   and without negative amounts it is never negative.
   */
  lemma {:induction false} HoldOfRun(rs: seq<Request>, id: string)
    ensures id in Run(EMPTY, rs).accounts ==> Run(EMPTY, rs).accounts[id].hold == NetHeld(rs, id)
    ensures id !in Run(EMPTY, rs).accounts ==> NetHeld(rs, id) == 0
    ensures (forall i :: 0 <= i < |rs| && (rs[i].Hold? || rs[i].Release?) ==> rs[i].amount >= 0) ==> NetHeld(rs, id) >= 0
  {
    if rs == [] {
    } else {
      var before, r := rs[..|rs| - 1], rs[|rs| - 1];
      HoldOfRun(before, id);
      var db := Run(EMPTY, before);
      HoldOfStep(db, r, id);
      if r.Hold? {
        HoldChanges(db, r.id, r.amount, r.currency);
      } else if r.Release? {
        ReleaseChanges(db, r.id, r.amount, r.currency);
      }
      hide SameCode, PlaceHold, ReleaseHold, AfterPost, AfterReverse;
    }
  }

  // ----- Account status -----

  /** Any account but a closed one may be closed; the rest moves to or from ACTIVE; nothing returns to PENDING. */
  predicate MayMove(s: AccountStatus, t: AccountStatus) {
    && !s.Closed? && !t.AccountPending? && s != t
    && (t.Closed? || t.Active? || s.Active?)
  }

  lemma MovesThroughActive(db: Db, id: string, t: AccountStatus)
    ensures UpdateStatus(db, id, t)
         == if id !in db.accounts then Err(AccountNotFound)
            else if MayMove(db.accounts[id].status, t) then Ok(db.accounts[id].(status := t))
            else Err(InvalidTransition)
  {
  }

  /** The status of an account after a run: ACTIVE when opened, then the latest status it could move to. */
  ghost function StatusGiven(rs: seq<Request>, id: string): Option<AccountStatus> {
    if rs == [] then None else
    var status, r := StatusGiven(rs[..|rs| - 1], id), rs[|rs| - 1];
    if r.Open? && r.id == id && status.None? && Column(Upper(r.currency)).Some? then Some(Active)
    else if r.SetStatus? && r.id == id && status.Some? && MayMove(status.value, r.status) then Some(r.status)
    else status
  }

  lemma StatusOfStep(db: Db, r: Request, id: string)
    ensures id in db.accounts ==> id in Step(db, r).accounts
    ensures id in db.accounts && !r.SetStatus? ==> Step(db, r).accounts[id].status == db.accounts[id].status
    ensures id !in db.accounts ==>
              (id in Step(db, r).accounts <==> r.Open? && r.id == id && Column(Upper(r.currency)).Some?)
    ensures id !in db.accounts && id in Step(db, r).accounts ==> Step(db, r).accounts[id].status.Active?
  {
    hide AfterPost, AfterReverse, Normalised, Blank, Column, Upper;
    if r.Post? || r.Reverse? {
      PostingKeepsAccounts(db, r);
    }
  }

  /** In every run each account has the status the requests gave it, and it stays closed once it is closed. */
  lemma {:induction false} StatusOfRun(rs: seq<Request>, id: string)
    ensures var db := Run(EMPTY, rs);
            StatusGiven(rs, id) == if id in db.accounts then Some(db.accounts[id].status) else None
    ensures StatusGiven(rs, id) != Some(AccountPending)
    ensures rs != [] && StatusGiven(rs[..|rs| - 1], id) == Some(Closed) ==> StatusGiven(rs, id) == Some(Closed)
  {
    if rs == [] {
    } else {
      var before, r := rs[..|rs| - 1], rs[|rs| - 1];
      StatusOfRun(before, id);
      var db := Run(EMPTY, before);
      StatusOfStep(db, r, id);
      if r.SetStatus? {
        MovesThroughActive(db, r.id, r.status);
      }
      hide AfterPost, AfterReverse, Column, Upper, UpdateStatus;
    }
  }

  // ----- What a journal stores -----

  /** Three characters of a code and nothing but spaces after them, or a shorter code as it is. */
  lemma ColumnExactly(code: string, kept: string)
    ensures Column(code) == Some(kept) <==>
            && kept <= code && |kept| <= 3 && (|kept| == 3 || kept == code)
            && forall i :: |kept| <= i < |code| ==> code[i] == ' '
  {
    if Column(code) == Some(kept) {
      assert kept == code[..|kept|];
    } else if kept <= code && |kept| <= 3 {
      assert kept == code[..|kept|];
      assert |code| <= 3 ==> code[..|code|] == code;
      assert |kept| == |code| ==> kept == code;
    }
  }

  ghost predicate KeyIsFree(db: Db, key: Option<string>) {
    key.None? || forall j :: 0 <= j < |db.journals| ==> db.journals[j].idempotencyKey != key
  }

  ghost predicate Writable(db: Db, es: seq<EntryInput>) {
    forall i :: 0 <= i < |es| ==> es[i].accountId in db.accounts && es[i].amount > 0 && Column(es[i].currency).Some?
  }

  /** The ledger with one more journal of the given rows, written at one time. */
  ghost predicate Gains(db: Db, db': Db, es: seq<EntryInput>, now: int) {
    && (forall j: nat :: InputsOf(db'.entries, j) == if j == |db.journals| then es else InputsOf(db.entries, j))
    && db.entries <= db'.entries
    && (forall k :: |db.entries| <= k < |db'.entries| ==> db'.entries[k].createdAt == now)
    && KeptAccounts(db, db')
  }

  lemma {:induction false} InsertAllTimes(db: Db, journalId: nat, es: seq<EntryInput>, now: int)
    ensures InsertAll(db, journalId, es, now).Some? ==>
              var db' := InsertAll(db, journalId, es, now).value;
              && |db'.entries| >= |db.entries|
              && forall k :: |db.entries| <= k < |db'.entries| ==> db'.entries[k].createdAt == now
  {
    hide SignedSum, Column;
    if es == [] {
    } else {
      InsertAllTimes(db, journalId, es[..|es| - 1], now);
    }
  }

  lemma NewJournalGains(db: Db, begun: Db, es: seq<EntryInput>, now: int)
    requires EntriesOk(db) && AccountsOk(db)
    requires begun.entries == db.entries && begun.accounts == db.accounts && |begun.journals| == |db.journals| + 1
    requires InsertAll(begun, |db.journals|, es, now).Some?
    ensures var db' := InsertAll(begun, |db.journals|, es, now).value;
            db'.journals == begun.journals && Gains(db, db', FiledAll(es), now)
  {
    hide InsertAll, InputsOf, EntriesOk, AccountsOk, KeptAccount, AllInputs, FiledAll;
    JournalKeepsRows(db, begun);
    InsertAllKeeps(begun, |db.journals|, es, now);
    InsertAllTimes(begun, |db.journals|, es, now);
    InsertAllKeepsAccounts(begun, |db.journals|, es, now);
    NewJournalIsEmpty(db);
    assert [] + FiledAll(es) == FiledAll(es);
  }

  /**
   A post adds one POSTED journal of exactly the requested rows when the request
   balances, its key is free and its rows can be written; otherwise it changes nothing.
   */
  lemma PostStores(db: Db, req: PostRequest, now: int)
    requires Invariant(db)
    ensures var db' := AfterPost(db, req, now);
            if NoBlank(req.entries) && Balanced(req.entries)
               && KeyIsFree(db, req.idempotencyKey) && Writable(db, req.entries)
            then db'.journals == db.journals + [Journal(req.idempotencyKey, Posted, None)]
                 && Gains(db, db', FiledAll(req.entries), now)
            else db' == db
  {
    var begun := WithJournal(db, req.idempotencyKey, None);
    InsertAllSucceeds(begun, |db.journals|, req.entries, now);
    hide NoBlank, Balanced, Column, InsertAll, Gains, EntriesOk, AccountsOk, BooksBalance, ReversalsOk;
    if InsertAll(begun, |db.journals|, req.entries, now).Some? {
      NewJournalGains(db, begun, req.entries, now);
    }
  }

  /** What the poster of a request is told. */
  ghost predicate Told(db: Db, req: PostRequest, r: Result<nat, Error>) {
    if !NoBlank(req.entries) then r == Err(BlankCurrency)
    else if !Balanced(req.entries) then
      r.Err? && r.error.Unbalanced? && r.error.debits != r.error.credits
      && r.error.debits == Total(req.entries, Debit, r.error.currency)
      && r.error.credits == Total(req.entries, Credit, r.error.currency)
    else if !KeyIsFree(db, req.idempotencyKey) && req.idempotencyKey != Some("") then
      r.Ok? && r.value < |db.journals| && db.journals[r.value].idempotencyKey == req.idempotencyKey
    else if KeyIsFree(db, req.idempotencyKey) && Writable(db, req.entries) then r == Ok(|db.journals|)
    else r == Err(ConstraintViolated)
  }

  lemma AnswersTold(db: Db, req: PostRequest, now: int, r: Result<nat, Error>)
    requires PostAnswers(db, req, now, r) && Accepts(req.entries)
    ensures Told(db, req, r)
  {
    InsertAllSucceeds(WithJournal(db, req.idempotencyKey, None), |db.journals|, req.entries, now);
    hide NoBlank, Balanced, Column, InsertAll, Total;
  }

  /** A reversal marks its journal and adds one of the swapped rows, unless it is unknown or already reversed. */
  lemma ReverseStores(db: Db, id: nat, now: int)
    requires Invariant(db)
    ensures var db' := AfterReverse(db, id, now);
            if id < |db.journals| && !db.journals[id].status.Reversed?
            then db'.journals == db.journals[id := db.journals[id].(status := Reversed)] + [Journal(None, Posted, Some(id))]
                 && Gains(db, db', SwapAll(InputsOf(db.entries, id)), now)
            else db' == db
  {
    if id < |db.journals| && !db.journals[id].status.Reversed? {
      var begun := WithJournal(db.(journals := db.journals[id := db.journals[id].(status := Reversed)]), None, Some(id));
      ReversalInserts(db, id, begun, now);
      ReversalFiled(db, id);
      hide InputsOf, SwapAll, InsertAll, Gains, EntriesOk, AccountsOk, BooksBalance, ReversalsOk;
      NewJournalGains(db, begun, SwapAll(InputsOf(db.entries, id)), now);
    }
  }

  // ----- Idempotency keys -----

  ghost predicate PostedUnder(db: Db, key: string) {
    exists i :: 0 <= i < |db.journals| && db.journals[i].idempotencyKey == Some(key)
  }

  lemma {:induction false} InsertAllJournals(db: Db, journalId: nat, es: seq<EntryInput>, now: int)
    ensures InsertAll(db, journalId, es, now).Some? ==>
              InsertAll(db, journalId, es, now).value.journals == db.journals
  {
    if es == [] {
    } else {
      InsertAllJournals(db, journalId, es[..|es| - 1], now);
    }
  }

  /** What a request does to the list of journals: nothing, one more, or one more and one marked. */
  lemma StepJournals(db: Db, r: Request)
    ensures var js, js' := db.journals, Step(db, r).journals;
            |js| <= |js'| && forall i :: 0 <= i < |js| ==> js'[i].idempotencyKey == js[i].idempotencyKey
  {
    hide InsertAll, Balanced, NoBlank, InputsOf, Column, Normalised, Blank, Upper;
    match r
    case Post(req, now) =>
      InsertAllJournals(WithJournal(db, req.idempotencyKey, None), |db.journals|, req.entries, now);
    case Reverse(id, now) =>
      if id < |db.journals| {
        var marked := db.(journals := db.journals[id := db.journals[id].(status := Reversed)]);
        InsertAllJournals(WithJournal(marked, None, Some(id)), |db.journals|, SwapAll(InputsOf(db.entries, id)), now);
      }
    case _ =>
  }

  lemma {:induction false} RunKeepsKeys(db: Db, rs: seq<Request>, key: string)
    requires PostedUnder(db, key)
    ensures PostedUnder(Run(db, rs), key)
  {
    hide Step;
    if rs == [] {
    } else {
      RunKeepsKeys(db, rs[..|rs| - 1], key);
      StepJournals(Run(db, rs[..|rs| - 1]), rs[|rs| - 1]);
    }
  }

  lemma {:induction false} RunOfConcat(db: Db, a: seq<Request>, b: seq<Request>)
    ensures Run(db, a + b) == Run(Run(db, a), b)
  {
    hide Step;
    if b == [] {
      assert a + b == a;
    } else {
      RunOfConcat(db, a, b[..|b| - 1]);
      assert (a + b)[..|a + b| - 1] == a + b[..|b| - 1];
    }
  }

  lemma RepeatStepIgnored(db: Db, req: PostRequest, now: int, key: string)
    requires PostedUnder(db, key) && req.idempotencyKey == Some(key)
    ensures Step(db, Post(req, now)) == db
  {
  }

  /**
   Once a key has been accepted it stays so through the rest of a run: deleting any
   later post under it, whatever its entries and whatever comes between, leaves the
   same ledger.
   */
  lemma LaterRepeatsDoNotMatter(
    before: seq<Request>, between: seq<Request>, repeat: PostRequest, now: int, after: seq<Request>, key: string)
    requires repeat.idempotencyKey == Some(key) && PostedUnder(Run(EMPTY, before), key)
    ensures Run(EMPTY, before + between + [Post(repeat, now)] + after) == Run(EMPTY, before + between + after)
  {
    hide Run, Step, PostedUnder;
    var start := before + between;
    RunOfConcat(EMPTY, before, between);
    RunKeepsKeys(Run(EMPTY, before), between, key);
    RunOfConcat(EMPTY, start + [Post(repeat, now)], after);
    RunOfConcat(EMPTY, start, after);
    RunOn(start, Run(EMPTY, start), Post(repeat, now));
    RepeatStepIgnored(Run(EMPTY, start), repeat, now, key);
  }

  /** A repeat of an accepted key is answered with its journal exactly when the key is not empty. */
  lemma ReplayedExactly(db: Db, req: PostRequest, now: int, key: string, r: Result<nat, Error>)
    requires req.idempotencyKey == Some(key) && PostedUnder(db, key)
    requires Accepts(req.entries) && PostAnswers(db, req, now, r)
    ensures r.Ok? <==> key != ""
    ensures r.Ok? ==> r.value < |db.journals| && db.journals[r.value].idempotencyKey == Some(key)
  {
    hide Accepts, InsertAll;
  }

  const UNKEYED := PostRequest(Some(""), [DEBIT_A, CREDIT_B])

  /** A balanced journal under the empty key is accepted once, and its repeat is refused. */
  lemma EmptyKeyNotReplayed(now: int, r: Result<nat, Error>)
    ensures var db := Run(EMPTY, [OPEN_A, OPEN_B, Post(UNKEYED, 0)]);
            && |db.journals| == 1
            && (PostAnswers(db, UNKEYED, now, r) ==> r == Err(ConstraintViolated))
  {
    hide Run, SignedSum, InsertAll, Accepts;
    AccountsOpened();
    DepositAccepted();
    var before := Run(EMPTY, [OPEN_A, OPEN_B]);
    assert [OPEN_A, OPEN_B] + [Post(UNKEYED, 0)] == [OPEN_A, OPEN_B, Post(UNKEYED, 0)];
    RunOn([OPEN_A, OPEN_B], before, Post(UNKEYED, 0));
    var begun := WithJournal(before, Some(""), None);
    DepositInserted(begun);
    InsertAllJournals(begun, 0, [DEBIT_A, CREDIT_B], 0);
    var db := Run(EMPTY, [OPEN_A, OPEN_B, Post(UNKEYED, 0)]);
    assert db.journals == [Journal(Some(""), Posted, None)];
    assert PostedUnder(db, "") by {
      assert db.journals[0].idempotencyKey == Some("");
    }
    if PostAnswers(db, UNKEYED, now, r) {
      ReplayedExactly(db, UNKEYED, now, "", r);
    }
  }

  /** The requests left after deleting every post under a key that is already accepted. */
  ghost function WithoutRepeats(rs: seq<Request>): seq<Request> {
    if rs == [] then [] else
    var before, r := rs[..|rs| - 1], rs[|rs| - 1];
    if r.Post? && r.req.idempotencyKey.Some? && PostedUnder(Run(EMPTY, before), r.req.idempotencyKey.value) then
      WithoutRepeats(before)
    else
      WithoutRepeats(before) + [r]
  }

  /** A run leaves the same ledger as the run with its later repeats deleted. */
  lemma {:induction false} RunWithoutRepeats(rs: seq<Request>)
    ensures Run(EMPTY, WithoutRepeats(rs)) == Run(EMPTY, rs)
  {
    hide Step;
    if rs == [] {
    } else {
      var before, r := rs[..|rs| - 1], rs[|rs| - 1];
      RunWithoutRepeats(before);
      if r.Post? && r.req.idempotencyKey.Some? && PostedUnder(Run(EMPTY, before), r.req.idempotencyKey.value) {
        RepeatStepIgnored(Run(EMPTY, before), r.req, r.now, r.req.idempotencyKey.value);
      } else {
        assert (WithoutRepeats(before) + [r])[..|WithoutRepeats(before)|] == WithoutRepeats(before);
      }
    }
  }

  // ----- The service -----

  /** The journal service and the tables it works on. */
  class LedgerService {
    var journals: seq<Journal>
    var entries: seq<Entry>
    var accounts: map<string, Account>

    ghost predicate Valid()
      reads this
    {
      Invariant(State())
    }

    function State(): Db
      reads this
    {
      Db(journals, entries, accounts)
    }

    constructor ()
      ensures Valid() && State() == EMPTY
    {
      journals, entries, accounts := [], [], map[];
      new;
      EmptyOk();
    }

    /** Inserts the rows of one journal; leaves the tables as they were when a row is refused. */
    method InsertRows(journalId: nat, es: seq<EntryInput>, now: int) returns (ok: bool)
      modifies this`entries, this`accounts
      ensures var r := InsertAll(old(State()), journalId, es, now);
              if r.Some? then ok && State() == r.value else !ok && State() == old(State())
    {
      var savedEntries, savedAccounts := entries, accounts;
      for i := 0 to |es|
        invariant journals == old(journals)
        invariant InsertAll(old(State()), journalId, es[..i], now) == Some(State())
      {
        assert es[..i + 1][..i] == es[..i];
        var e := es[i];
        if !Insertable(State(), e) {
          InsertAllRefused(old(State()), journalId, es, i + 1, now);
          entries, accounts := savedEntries, savedAccounts;
          return false;
        }
        var balance := SignedSum(entries, e.accountId);
        entries := entries
          + [Entry(journalId, e.accountId, e.kind, e.amount, Column(e.currency).value, balance, now)];
        accounts := accounts[e.accountId := Rebalanced(accounts[e.accountId], balance)];
      }
      assert es[..|es|] == es;
      return true;
    }

    method PostJournal(req: PostRequest, now: int) returns (r: Result<nat, Error>)
      requires Valid()
      modifies this
      ensures Valid() && State() == AfterPost(old(State()), req, now)
      ensures PostAnswers(old(State()), req, now, r) && Told(old(State()), req, r)
    {
      ghost var before := State();
      var valid := ValidateBalance(req.entries);
      hide Total, NoBlank, Balanced;
      if valid.Err? {
        return Err(valid.error);
      }
      if req.idempotencyKey.Some? && FindKey(journals, req.idempotencyKey.value) < |journals| {
        if req.idempotencyKey.value == "" {
          r := Err(ConstraintViolated);
        } else {
          r := Ok(FindKey(journals, req.idempotencyKey.value));
        }
        AnswersTold(before, req, now, r);
        return;
      }
      PostKeeps(before, req, now);
      hide Invariant, InsertAll;
      var id := |journals|;
      journals := journals + [Journal(req.idempotencyKey, Posted, None)];
      var ok := InsertRows(id, req.entries, now);
      if !ok {
        journals := journals[..id];
        r := Err(ConstraintViolated);
      } else {
        r := Ok(id);
      }
      AnswersTold(before, req, now, r);
    }

    method ReverseJournal(id: nat, now: int) returns (r: Result<nat, Error>)
      requires Valid()
      modifies this
      ensures Valid() && State() == AfterReverse(old(State()), id, now)
      ensures r == if id >= |old(journals)| then Err(JournalNotFound)
                   else if old(journals)[id].status.Reversed? then Err(JournalAlreadyReversed)
                   else Ok(|old(journals)|)
    {
      if id >= |journals| {
        return Err(JournalNotFound);
      }
      if journals[id].status.Reversed? {
        return Err(JournalAlreadyReversed);
      }
      ghost var before := State();
      ReverseKeeps(before, id, now);
      var reversal := SwapAll(InputsOf(entries, id));
      var n := |journals|;
      journals := journals[id := journals[id].(status := Reversed)] + [Journal(None, Posted, Some(id))];
      ReversalInserts(before, id, State(), now);
      hide Invariant, InsertAll, InputsOf;
      var ok := InsertRows(n, reversal, now);
      return Ok(n);
    }

    /** `customerActive` says whether the customer is active, or is absent when there is no such customer. */
    method CreateAccount(id: string, customerActive: Option<bool>, currency: string) returns (r: Result<Account, Error>)
      requires Valid() && id !in accounts
      modifies this`accounts
      ensures Valid()
      ensures customerActive.None? ==> r == Err(CustomerNotFound) && State() == old(State())
      ensures customerActive == Some(false) ==> r == Err(CustomerNotActive) && State() == old(State())
      ensures customerActive == Some(true) ==> State() == Step(old(State()), Open(id, currency))
      ensures customerActive == Some(true) ==>
                if Column(Upper(currency)).None? then r == Err(ConstraintViolated) && State() == old(State())
                else
                  && id in accounts && r == Ok(accounts[id])
                  && accounts[id] == Account(Column(Upper(currency)).value, Active, 0, 0, 0, 0)
    {
      if customerActive.None? {
        return Err(CustomerNotFound);
      }
      if !customerActive.value {
        return Err(CustomerNotActive);
      }
      StepKeeps(State(), Open(id, currency));
      var code := Column(Upper(currency));
      if code.None? {
        return Err(ConstraintViolated);
      }
      accounts := accounts[id := OpenedAccount(code.value)];
      return Ok(accounts[id]);
    }

    method UpdateAccountStatus(id: string, status: AccountStatus) returns (r: Result<Account, Error>)
      requires Valid()
      modifies this`accounts
      ensures Valid() && r == UpdateStatus(old(State()), id, status)
      ensures State() == Step(old(State()), SetStatus(id, status))
    {
      StepKeeps(State(), SetStatus(id, status));
      hide Invariant;
      r := UpdateStatus(State(), id, status);
      if r.Ok? {
        accounts := accounts[id := r.value];
      }
    }

    method PlaceHoldOn(id: string, amount: int, currency: string) returns (r: Result<Account, Error>)
      requires Valid()
      modifies this`accounts
      ensures Valid() && r == PlaceHold(old(State()), id, amount, currency)
      ensures State() == Step(old(State()), Hold(id, amount, currency))
    {
      StepKeeps(State(), Hold(id, amount, currency));
      hide Invariant, Normalised, Blank;
      r := PlaceHold(State(), id, amount, currency);
      if r.Ok? {
        accounts := accounts[id := r.value];
      }
    }

    method ReleaseHoldOn(id: string, amount: int, currency: string) returns (r: Result<Account, Error>)
      requires Valid()
      modifies this`accounts
      ensures Valid() && r == ReleaseHold(old(State()), id, amount, currency)
      ensures State() == Step(old(State()), Release(id, amount, currency))
    {
      StepKeeps(State(), Release(id, amount, currency));
      hide Invariant, Normalised, Blank;
      r := ReleaseHold(State(), id, amount, currency);
      if r.Ok? {
        accounts := accounts[id := r.value];
      }
    }
  }

  /** A refused row refuses every longer list. */
  lemma {:induction false} InsertAllRefused(db: Db, journalId: nat, es: seq<EntryInput>, i: nat, now: int)
    requires i <= |es| && InsertAll(db, journalId, es[..i], now).None?
    ensures InsertAll(db, journalId, es, now).None?
    decreases |es|
  {
    if i < |es| {
      assert es[..|es| - 1][..i] == es[..i];
      InsertAllRefused(db, journalId, es[..|es| - 1], i, now);
    } else {
      assert es[..i] == es;
    }
  }
}
