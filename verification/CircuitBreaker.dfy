/**
 The circuit breaker around provider calls. A call is two steps, its start and its
 end, and any number of calls may overlap. Every clock reading is a parameter.
 */
module CircuitBreaker {
  import opened Wrappers

  datatype Config = Config(failureThreshold: int, windowMs: int, recoveryMs: int)

  datatype Mode = Closed | Open | HalfOpen

  datatype State = State(mode: Mode, failures: seq<int>, openedAt: Option<int>)

  /**
   A start reads the clock to prune and then to check recovery; a failure to record
   itself and then to stamp an opening.
   */
  datatype Event =
    | Start(prunedAt: int, checkedAt: int)
    | Succeed
    | Fail(failedAt: int, stampedAt: int)

  /** The failures after a cutoff. */
  function Newer(ts: seq<int>, cutoff: int): seq<int> {
    if ts == [] then [] else
    Newer(ts[..|ts| - 1], cutoff) + if ts[|ts| - 1] > cutoff then [ts[|ts| - 1]] else []
  }

  function Recovered(c: Config, s: State, now: int): Mode {
    if s.mode.Open? && s.openedAt.Some? && now - s.openedAt.value >= c.recoveryMs then HalfOpen else s.mode
  }

  /** A failure opens the circuit when it is half open or enough failures are on record. */
  predicate Opens(c: Config, s: State) {
    s.mode.HalfOpen? || |s.failures| + 1 >= c.failureThreshold
  }

  function Step(c: Config, s: State, e: Event): State {
    match e
    case Start(prunedAt, checkedAt) =>
      State(Recovered(c, s, checkedAt), Newer(s.failures, prunedAt - c.windowMs), s.openedAt)
    case Succeed =>
      if s.mode.HalfOpen? then State(Closed, [], None) else s
    case Fail(failedAt, stampedAt) =>
      if Opens(c, s) then State(Open, s.failures + [failedAt], Some(stampedAt))
      else s.(failures := s.failures + [failedAt])
  }

  const INITIAL := State(Closed, [], None)

  function Run(c: Config, trace: seq<Event>): State {
    if trace == [] then INITIAL else Step(c, Run(c, trace[..|trace| - 1]), trace[|trace| - 1])
  }

  // ----- What a trace says on its own -----

  function TimeAfter(last: Option<int>, e: Event): Option<int> {
    match e
    case Start(_, checkedAt) => Some(checkedAt)
    case Succeed => last
    case Fail(_, stampedAt) => Some(stampedAt)
  }

  /** The latest clock reading. */
  function LastTime(trace: seq<Event>): Option<int> {
    if trace == [] then None else TimeAfter(LastTime(trace[..|trace| - 1]), trace[|trace| - 1])
  }

  predicate NotBefore(last: Option<int>, t: int) {
    last.None? || last.value <= t
  }

  predicate Follows(last: Option<int>, e: Event) {
    match e
    case Start(prunedAt, checkedAt) => NotBefore(last, prunedAt) && prunedAt <= checkedAt
    case Succeed => true
    case Fail(failedAt, stampedAt) => NotBefore(last, failedAt) && failedAt <= stampedAt
  }

  /** The clock never runs backwards. */
  predicate Timely(trace: seq<Event>) {
    trace == [] ||
    (Timely(trace[..|trace| - 1]) && Follows(LastTime(trace[..|trace| - 1]), trace[|trace| - 1]))
  }

  /** When the circuit last opened, or opened again. */
  function LatestOpening(c: Config, trace: seq<Event>): Option<int> {
    if trace == [] then None else
    var init, e := trace[..|trace| - 1], trace[|trace| - 1];
    if e.Fail? && Opens(c, Run(c, init)) then Some(e.stampedAt) else LatestOpening(c, init)
  }

  function LogAfter(log: seq<int>, mode: Mode, e: Event): seq<int> {
    match e
    case Start(_, _) => log
    case Succeed => if mode.HalfOpen? then [] else log
    case Fail(failedAt, _) => log + [failedAt]
  }

  /** Every failure since the circuit last closed. */
  function Log(c: Config, trace: seq<Event>): seq<int> {
    if trace == [] then [] else
    var init := trace[..|trace| - 1];
    LogAfter(Log(c, init), Run(c, init).mode, trace[|trace| - 1])
  }

  /** The cutoff of the latest start. */
  function LatestCutoff(c: Config, trace: seq<Event>): Option<int> {
    if trace == [] then None else
    var e := trace[|trace| - 1];
    if e.Start? then Some(e.prunedAt - c.windowMs) else LatestCutoff(c, trace[..|trace| - 1])
  }

  // ----- Invariants of every run -----

  ghost predicate ModeOk(c: Config, s: State) {
    && (s.mode.Closed? <==> s.openedAt.None?)
    && (s.mode.Closed? ==> |s.failures| < if c.failureThreshold > 1 then c.failureThreshold else 1)
  }

  ghost predicate OpeningOk(c: Config, s: State, opening: Option<int>, last: Option<int>) {
    && (!s.mode.Closed? ==> opening.Some? && s.openedAt == opening)
    && (!s.mode.Open? && opening.Some? ==> last.Some? && last.value - opening.value >= c.recoveryMs)
  }

  /** The recorded failures and the full log agree after the latest cutoff. */
  ghost predicate Agree(failures: seq<int>, log: seq<int>, cutoff: Option<int>) {
    forall x: int :: NotBefore(cutoff, x) ==> Newer(failures, x) == Newer(log, x)
  }

  ghost predicate CutoffOk(c: Config, cutoff: Option<int>, last: Option<int>) {
    cutoff.Some? ==> last.Some? && cutoff.value <= last.value - c.windowMs
  }

  /** CLOSED is the same as having no opening time, and leaves fewer failures on record than the threshold. */
  lemma {:induction false} ClosedIsUnopened(c: Config, trace: seq<Event>)
    ensures ModeOk(c, Run(c, trace))
  {
    if trace == [] {
    } else {
      var init, e := trace[..|trace| - 1], trace[|trace| - 1];
      ClosedIsUnopened(c, init);
      if e.Start? {
        NewerIsShorter(Run(c, init).failures, e.prunedAt - c.windowMs);
      }
    }
  }

  lemma {:induction false} NewerIsShorter(ts: seq<int>, cutoff: int)
    ensures |Newer(ts, cutoff)| <= |ts|
  {
    if ts == [] {
    } else {
      NewerIsShorter(ts[..|ts| - 1], cutoff);
    }
  }

  lemma {:induction false} OpeningKept(c: Config, trace: seq<Event>)
    requires Timely(trace)
    ensures OpeningOk(c, Run(c, trace), LatestOpening(c, trace), LastTime(trace))
  {
    hide Newer;
    if trace == [] {
    } else {
      OpeningKept(c, trace[..|trace| - 1]);
      ClosedIsUnopened(c, trace[..|trace| - 1]);
    }
  }

  lemma {:induction false} NewerAppend(ts: seq<int>, t: int, cutoff: int)
    ensures Newer(ts + [t], cutoff) == if t > cutoff then Newer(ts, cutoff) + [t] else Newer(ts, cutoff)
  {
    assert (ts + [t])[..|ts|] == ts;
  }

  /** Filtering by an earlier cutoff first makes no difference. */
  lemma {:induction false} NewerOfNewer(ts: seq<int>, early: int, late: int)
    requires early <= late
    ensures Newer(Newer(ts, early), late) == Newer(ts, late)
  {
    if ts == [] {
    } else {
      var init, t := ts[..|ts| - 1], ts[|ts| - 1];
      NewerOfNewer(init, early, late);
      NewerAppend(Newer(init, early), t, late);
      assert ts == init + [t];
      NewerAppend(init, t, early);
      NewerAppend(init, t, late);
    }
  }

  lemma AgreeAfterPrune(failures: seq<int>, log: seq<int>, cutoff: Option<int>, next: int)
    requires Agree(failures, log, cutoff) && NotBefore(cutoff, next)
    ensures Newer(failures, next) == Newer(log, next)
    ensures Agree(Newer(failures, next), log, Some(next))
  {
    hide Newer;
    forall x: int | next <= x
      ensures Newer(Newer(failures, next), x) == Newer(log, x)
    {
      NewerOfNewer(failures, next, x);
    }
  }

  lemma AgreeAfterFailure(failures: seq<int>, log: seq<int>, cutoff: Option<int>, t: int)
    requires Agree(failures, log, cutoff)
    ensures Agree(failures + [t], log + [t], cutoff)
  {
    hide Newer;
    forall x: int | NotBefore(cutoff, x)
      ensures Newer(failures + [t], x) == Newer(log + [t], x)
    {
      NewerAppend(failures, t, x);
      NewerAppend(log, t, x);
    }
  }

  lemma {:induction false} LogKept(c: Config, trace: seq<Event>)
    requires Timely(trace)
    ensures Agree(Run(c, trace).failures, Log(c, trace), LatestCutoff(c, trace))
    ensures CutoffOk(c, LatestCutoff(c, trace), LastTime(trace))
  {
    hide Newer, Agree;
    if trace == [] {
      AgreeInitially();
    } else {
      var init, e := trace[..|trace| - 1], trace[|trace| - 1];
      LogKept(c, init);
      var s := Run(c, init);
      match e
      case Start(a, _) =>
        AgreeAfterPrune(s.failures, Log(c, init), LatestCutoff(c, init), a - c.windowMs);
      case Succeed =>
        AgreeWhenCleared(LatestCutoff(c, init));
      case Fail(a, _) =>
        AgreeAfterFailure(s.failures, Log(c, init), LatestCutoff(c, init), a);
    }
  }

  lemma AgreeInitially()
    ensures Agree([], [], None)
  {
  }

  lemma AgreeWhenCleared(cutoff: Option<int>)
    ensures Agree([], [], cutoff)
  {
  }

  // ----- What callers see -----

  predicate Admitted(c: Config, trace: seq<Event>, prunedAt: int, checkedAt: int) {
    !Run(c, trace + [Start(prunedAt, checkedAt)]).mode.Open?
  }

  /** One more event, seen from the end of a trace. */
  lemma Extend(c: Config, trace: seq<Event>, e: Event)
    ensures Run(c, trace + [e]) == Step(c, Run(c, trace), e)
    ensures Log(c, trace + [e]) == LogAfter(Log(c, trace), Run(c, trace).mode, e)
    ensures LastTime(trace + [e]) == TimeAfter(LastTime(trace), e)
    ensures Timely(trace + [e]) <==> Timely(trace) && Follows(LastTime(trace), e)
  {
    assert (trace + [e])[..|trace|] == trace;
  }

  /**
   In every interleaving a call is refused exactly when the circuit opened, or opened
   again, less than recoveryMs before the call's recovery check.
   */
  lemma RefusedExactlyAfterOpening(c: Config, trace: seq<Event>, prunedAt: int, checkedAt: int)
    requires Timely(trace + [Start(prunedAt, checkedAt)])
    ensures !Admitted(c, trace, prunedAt, checkedAt) <==>
            LatestOpening(c, trace).Some? && checkedAt - LatestOpening(c, trace).value < c.recoveryMs
  {
    hide Newer;
    hide Run, Timely, LastTime, LatestOpening;
    Extend(c, trace, Start(prunedAt, checkedAt));
    OpeningKept(c, trace);
    ClosedIsUnopened(c, trace);
  }

  /** Right after a start, the record is exactly the failures since the last close inside the window. */
  lemma PrunedIsWindow(c: Config, trace: seq<Event>, prunedAt: int, checkedAt: int)
    requires Timely(trace + [Start(prunedAt, checkedAt)])
    ensures Run(c, trace + [Start(prunedAt, checkedAt)]).failures == Newer(Log(c, trace), prunedAt - c.windowMs)
  {
    hide Newer, Agree;
    hide Run, Timely, LastTime, LatestCutoff, Log;
    Extend(c, trace, Start(prunedAt, checkedAt));
    LogKept(c, trace);
    AgreeAfterPrune(Run(c, trace).failures, Log(c, trace), LatestCutoff(c, trace), prunedAt - c.windowMs);
  }

  // ----- Failures that have left the window -----

  /** The failures that the latest start left inside its window, unless the circuit has closed since. */
  function KeptByStart(c: Config, trace: seq<Event>): seq<int> {
    if trace == [] then [] else
    var init, e := trace[..|trace| - 1], trace[|trace| - 1];
    match e
    case Start(prunedAt, _) => Newer(Log(c, init), prunedAt - c.windowMs)
    case Succeed => if Run(c, init).mode.HalfOpen? then [] else KeptByStart(c, init)
    case Fail(_, _) => KeptByStart(c, init)
  }

  /** The failures since the latest start, or since the circuit closed after it. */
  function SinceStart(c: Config, trace: seq<Event>): seq<int> {
    if trace == [] then [] else
    var init, e := trace[..|trace| - 1], trace[|trace| - 1];
    match e
    case Start(_, _) => []
    case Succeed => if Run(c, init).mode.HalfOpen? then [] else SinceStart(c, init)
    case Fail(failedAt, _) => SinceStart(c, init) + [failedAt]
  }

  lemma {:induction false} RecordSplits(c: Config, trace: seq<Event>)
    requires Timely(trace)
    ensures Run(c, trace).failures == KeptByStart(c, trace) + SinceStart(c, trace)
  {
    hide Newer, Agree;
    if trace == [] {
    } else {
      var init, e := trace[..|trace| - 1], trace[|trace| - 1];
      match e
      case Start(prunedAt, _) =>
        LogKept(c, init);
        AgreeAfterPrune(Run(c, init).failures, Log(c, init), LatestCutoff(c, init), prunedAt - c.windowMs);
      case Succeed =>
        RecordSplits(c, init);
      case Fail(failedAt, _) =>
        RecordSplits(c, init);
        var kept, since := KeptByStart(c, init), SinceStart(c, init);
        assert (kept + since) + [failedAt] == kept + (since + [failedAt]);
    }
  }

  /** How many failures, the new one included, fall in the window that ends at it. */
  function InWindow(c: Config, trace: seq<Event>, failedAt: int): nat {
    |Newer(Log(c, trace), failedAt - c.windowMs)| + 1
  }

  /**
   How many of the failures that were inside the window when the latest call started,
   or came after, are outside the window when this call fails.
   */
  function Stale(c: Config, trace: seq<Event>, failedAt: int): int {
    |KeptByStart(c, trace)| + |SinceStart(c, trace)| - |Newer(Log(c, trace), failedAt - c.windowMs)|
  }

  /**
   A failure of a closed circuit opens it exactly when the failures in the window and
   the stale ones reach the threshold; the record is pruned when calls start, not when
   they fail. Enough failures in the window therefore always open it.
   */
  lemma OpensExactly(c: Config, trace: seq<Event>, failedAt: int, stampedAt: int)
    requires Timely(trace + [Fail(failedAt, stampedAt)]) && Run(c, trace).mode.Closed?
    ensures Run(c, trace + [Fail(failedAt, stampedAt)]).mode.Open? <==>
            InWindow(c, trace, failedAt) + Stale(c, trace, failedAt) >= c.failureThreshold
    ensures Stale(c, trace, failedAt) >= 0
  {
    hide Newer, Agree, Run, Timely, LastTime, LatestCutoff, Log, KeptByStart, SinceStart;
    Extend(c, trace, Fail(failedAt, stampedAt));
    var s := Run(c, trace);
    RecordSplits(c, trace);
    LogKept(c, trace);
    AgreeAfterPrune(s.failures, Log(c, trace), LatestCutoff(c, trace), failedAt - c.windowMs);
    NewerIsShorter(s.failures, failedAt - c.windowMs);
  }

  // A circuit meant to open on two failures within 60 seconds, one event after another.

  const NARROW := Config(2, 60_000, 30_000)

  ghost predicate Leads(trace: seq<Event>, s: State, log: seq<int>, last: Option<int>) {
    Timely(trace) && Run(NARROW, trace) == s && Log(NARROW, trace) == log && LastTime(trace) == last
  }

  lemma LeadsOn(trace: seq<Event>, s: State, log: seq<int>, last: Option<int>, e: Event)
    requires Leads(trace, s, log, last) && Follows(last, e)
    ensures Leads(trace + [e], Step(NARROW, s, e), LogAfter(log, s.mode, e), TimeAfter(last, e))
  {
    hide Run, Timely, Log, LastTime, Step;
    Extend(NARROW, trace, e);
  }

  lemma NoEvents()
    ensures Leads([], INITIAL, [], None)
  {
  }

  lemma FirstStart()
    ensures Leads([Start(0, 0)], INITIAL, [], Some(0))
  {
    NoEvents();
    hide Leads;
    assert [] + [Start(0, 0)] == [Start(0, 0)];
    LeadsOn([], INITIAL, [], None, Start(0, 0));
  }

  lemma FirstFailure()
    ensures Leads([Start(0, 0), Fail(0, 0)], State(Closed, [0], None), [0], Some(0))
  {
    FirstStart();
    hide Leads;
    assert [Start(0, 0)] + [Fail(0, 0)] == [Start(0, 0), Fail(0, 0)];
    assert [] + [0] == [0];
    LeadsOn([Start(0, 0)], INITIAL, [], Some(0), Fail(0, 0));
  }

  lemma SecondStart()
    ensures Leads([Start(0, 0), Fail(0, 0), Start(59_999, 59_999)], State(Closed, [0], None), [0], Some(59_999))
  {
    FirstFailure();
    hide Leads;
    var trace := [Start(0, 0), Fail(0, 0)];
    assert trace + [Start(59_999, 59_999)] == [Start(0, 0), Fail(0, 0), Start(59_999, 59_999)];
    OneFailure(-1);
    LeadsOn(trace, State(Closed, [0], None), [0], Some(0), Start(59_999, 59_999));
  }

  lemma OneFailure(cutoff: int)
    ensures Newer([0], cutoff) == if cutoff < 0 then [0] else []
  {
    assert [0][..0] == [];
  }

  /** Two failures 200 seconds apart open a circuit meant to open on two within 60 seconds. */
  lemma StaleFailureOpens()
    ensures var trace := [Start(0, 0), Fail(0, 0), Start(59_999, 59_999)];
            && Timely(trace + [Fail(200_000, 200_000)])
            && Run(NARROW, trace + [Fail(200_000, 200_000)]).mode.Open?
            && InWindow(NARROW, trace, 200_000) == 1 < NARROW.failureThreshold
  {
    hide Run, Timely, Log, LastTime, Newer;
    SecondStart();
    OneFailure(140_000);
    LeadsOn([Start(0, 0), Fail(0, 0), Start(59_999, 59_999)], State(Closed, [0], None), [0], Some(59_999), Fail(200_000, 200_000));
  }

  // ----- The breaker -----

  class Breaker {
    const config: Config
    var state: Mode
    var failures: seq<int>
    var openedAt: Option<int>
    ghost var trace: seq<Event>

    ghost predicate Valid()
      reads this
    {
      Snapshot() == Run(config, trace) && Timely(trace)
    }

    function Snapshot(): State
      reads this
    {
      State(state, failures, openedAt)
    }

    constructor (failureThreshold: Option<int>, windowMs: Option<int>, recoveryMs: Option<int>)
      ensures Valid() && trace == []
      ensures config == Config(failureThreshold.GetOr(5), windowMs.GetOr(60_000), recoveryMs.GetOr(30_000))
    {
      config := Config(failureThreshold.GetOr(5), windowMs.GetOr(60_000), recoveryMs.GetOr(30_000));
      state, failures, openedAt, trace := Closed, [], None, [];
    }

    method PruneFailures(now: int)
      modifies this`failures
      ensures failures == Newer(old(failures), now - config.windowMs)
    {
      failures := Newer(failures, now - config.windowMs);
    }

    method CheckRecovery(now: int)
      modifies this`state
      ensures state == Recovered(config, old(Snapshot()), now)
    {
      if state.Open? && openedAt.Some? {
        if now - openedAt.value >= config.recoveryMs {
          state := HalfOpen;
        }
      }
    }

    /** The first half of a call: the provider is contacted only when the call is admitted. */
    method BeginCall(prunedAt: int, checkedAt: int) returns (admitted: bool)
      requires Valid() && Timely(trace + [Start(prunedAt, checkedAt)])
      modifies this
      ensures Valid() && trace == old(trace) + [Start(prunedAt, checkedAt)]
      ensures !admitted <==>
              LatestOpening(config, old(trace)).Some?
              && checkedAt - LatestOpening(config, old(trace)).value < config.recoveryMs
      ensures failures == Newer(Log(config, old(trace)), prunedAt - config.windowMs)
    {
      hide Newer, LatestOpening, Log, Timely, Run, LastTime;
      ghost var before := Snapshot();
      ghost var grown := trace + [Start(prunedAt, checkedAt)];
      RefusedExactlyAfterOpening(config, trace, prunedAt, checkedAt);
      PrunedIsWindow(config, trace, prunedAt, checkedAt);
      Extend(config, trace, Start(prunedAt, checkedAt));
      PruneFailures(prunedAt);
      CheckRecovery(checkedAt);
      assert Snapshot() == Step(config, before, Start(prunedAt, checkedAt));
      trace := grown;
      return !state.Open?;
    }

    /** The end of a call that succeeded. */
    method OnSuccess()
      requires Valid()
      modifies this
      ensures Valid() && trace == old(trace) + [Succeed]
      ensures old(state).HalfOpen? ==> state.Closed? && failures == [] && openedAt == None
      ensures !old(state).HalfOpen? ==> Snapshot() == old(Snapshot())
    {
      hide Newer, Run, Timely, Log, LastTime;
      Extend(config, trace, Succeed);
      if state.HalfOpen? {
        state, failures, openedAt := Closed, [], None;
      }
      trace := trace + [Succeed];
    }

    /** The end of a call that failed. */
    method OnFailure(failedAt: int, stampedAt: int)
      requires Valid() && Timely(trace + [Fail(failedAt, stampedAt)])
      modifies this
      ensures Valid() && trace == old(trace) + [Fail(failedAt, stampedAt)]
      ensures failures == old(failures) + [failedAt]
      ensures if old(state).HalfOpen? || |failures| >= config.failureThreshold
              then state.Open? && openedAt == Some(stampedAt)
              else state == old(state) && openedAt == old(openedAt)
    {
      hide Newer, Run, Timely, Log, LastTime;
      Extend(config, trace, Fail(failedAt, stampedAt));
      failures := failures + [failedAt];
      trace := trace + [Fail(failedAt, stampedAt)];
      if state.HalfOpen? {
        state, openedAt := Open, Some(stampedAt);
        return;
      }
      if |failures| >= config.failureThreshold {
        state, openedAt := Open, Some(stampedAt);
      }
    }
  }
}
