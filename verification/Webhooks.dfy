/**
 Webhook subscriptions and the delivery queue behind them.

 The queue delivers each message exactly once, in any order: a delivery step takes the
 message at any position. One step posts the message and settles what becomes of it.
 Fresh identifiers are modelled by counters.
 */
module Webhooks {
  import opened Wrappers

  datatype EventType = ConsentRevoked | ConsentExpired | PaymentSettled | PaymentRejected | PaymentPending

  datatype SubscriptionStatus = Active | Suspended

  datatype Subscription = Subscription(
    clientId: string, eventTypes: seq<EventType>, callbackUrl: string, status: SubscriptionStatus, retryCount: int)

  datatype Message = Message(
    deliveryId: nat, subscriptionId: nat, callbackUrl: string, eventType: EventType, attempt: int, scheduledAt: int)

  /** One HTTP post of a delivery. */
  datatype Attempt = Attempt(deliveryId: nat, subscriptionId: nat, number: int, startedAt: int, endedAt: int, ok: bool)

  datatype World = World(
    subscriptions: map<nat, Subscription>, created: nat,
    queue: seq<Message>, deadLetters: seq<Message>, issued: nat, log: seq<Attempt>)

  const MAX_ATTEMPTS := 3

  /** How long to wait after a failed attempt. */
  function RetryDelay(attempt: int): int {
    if attempt == 1 then 60_000
    else if attempt == 2 then 300_000
    else if attempt == 3 then 1_800_000
    else 60_000
  }

  // ----- Subscriptions -----

  predicate Listens(subs: map<nat, Subscription>, id: nat, event: EventType) {
    id in subs && subs[id].status.Active? && event in subs[id].eventTypes
  }

  /** The subscriptions to notify, in the order they were created. */
  function Matching(subs: map<nat, Subscription>, created: nat, event: EventType): seq<nat> {
    if created == 0 then [] else
    Matching(subs, created - 1, event) + if Listens(subs, created - 1, event) then [created - 1] else []
  }

  function CountFailure(subs: map<nat, Subscription>, id: nat): map<nat, Subscription> {
    if id in subs then subs[id := subs[id].(retryCount := subs[id].retryCount + 1)] else subs
  }

  // ----- Steps -----

  /** The first attempts to queue; `clock` gives the time read for each message. */
  function FirstMessages(
    subs: map<nat, Subscription>, ids: seq<nat>, event: EventType, clock: nat -> int, issued: nat): (r: seq<Message>)
    requires forall k :: 0 <= k < |ids| ==> ids[k] in subs
    ensures |r| == |ids|
    ensures forall k :: 0 <= k < |ids| ==>
              r[k] == Message(issued + k, ids[k], subs[ids[k]].callbackUrl, event, 1, clock(k))
  {
    seq(|ids|, k requires 0 <= k < |ids| =>
      Message(issued + k, ids[k], subs[ids[k]].callbackUrl, event, 1, clock(k)))
  }

  predicate Due(m: Message, now: int) {
    m.scheduledAt <= now
  }

  function Retry(m: Message, failedAt: int): Message {
    m.(attempt := m.attempt + 1, scheduledAt := failedAt + RetryDelay(m.attempt))
  }

  /** What one delivery step leaves of its message. */
  datatype Outcome = Outcome(queued: seq<Message>, dead: seq<Message>, attempts: seq<Attempt>)

  function Deliver(m: Message, now: int, ok: bool, endedAt: int): Outcome {
    if !Due(m, now) then Outcome([m], [], []) else
    var attempt := Attempt(m.deliveryId, m.subscriptionId, m.attempt, now, endedAt, ok);
    if ok then Outcome([], [], [attempt])
    else if m.attempt < MAX_ATTEMPTS then Outcome([Retry(m, endedAt)], [], [attempt])
    else Outcome([], [m], [attempt])
  }

  datatype Request =
    | Create(clientId: string, eventTypes: seq<EventType>, callbackUrl: string)
    | Suspend(id: nat)
    | Delete(id: nat)
    | Queue(event: EventType, clock: nat -> int)
    | Take(i: nat, now: int, ok: bool, endedAt: int)

  function Without(queue: seq<Message>, i: nat): seq<Message>
    requires i < |queue|
  {
    queue[..i] + queue[i + 1..]
  }

  function Step(w: World, r: Request): World {
    match r
    case Create(clientId, eventTypes, callbackUrl) =>
      w.(subscriptions := w.subscriptions[w.created := Subscription(clientId, eventTypes, callbackUrl, Active, 0)],
         created := w.created + 1)
    case Suspend(id) =>
      if id in w.subscriptions
      then w.(subscriptions := w.subscriptions[id := w.subscriptions[id].(status := Suspended)])
      else w
    case Delete(id) => w.(subscriptions := w.subscriptions - {id})
    case Queue(event, clock) =>
      var ids := Matching(w.subscriptions, w.created, event);
      MatchingExists(w.subscriptions, w.created, event);
      w.(queue := w.queue + FirstMessages(w.subscriptions, ids, event, clock, w.issued), issued := w.issued + |ids|)
    case Take(i, now, ok, endedAt) =>
      if i >= |w.queue| then w else
      var m := w.queue[i];
      var o := Deliver(m, now, ok, endedAt);
      w.(subscriptions := if o.dead == [] then w.subscriptions else CountFailure(w.subscriptions, m.subscriptionId),
         queue := Without(w.queue, i) + o.queued, deadLetters := w.deadLetters + o.dead, log := w.log + o.attempts)
  }

  lemma {:induction false} MatchingExists(subs: map<nat, Subscription>, created: nat, event: EventType)
    ensures forall k :: 0 <= k < |Matching(subs, created, event)| ==> Matching(subs, created, event)[k] in subs
  {
    if created == 0 {
    } else {
      MatchingExists(subs, created - 1, event);
    }
  }

  const EMPTY := World(map[], 0, [], [], 0, [])

  function Run(w: World, rs: seq<Request>): World {
    if |rs| == 0 then w else Step(Run(w, rs[..|rs| - 1]), rs[|rs| - 1])
  }

  lemma {:induction false} MatchingMembers(subs: map<nat, Subscription>, created: nat, event: EventType)
    ensures forall id: nat :: id in Matching(subs, created, event) <==> id < created && Listens(subs, id, event)
  {
    if created == 0 {
    } else {
      MatchingMembers(subs, created - 1, event);
      hide Listens;
    }
  }

  ghost predicate Increasing(ids: seq<nat>) {
    forall i, j :: 0 <= i < j < |ids| ==> ids[i] < ids[j]
  }

  lemma {:induction false} MatchingIsListening(subs: map<nat, Subscription>, created: nat, event: EventType)
    ensures var ids := Matching(subs, created, event);
            (forall id: nat :: id in ids <==> id < created && Listens(subs, id, event)) && Increasing(ids)
  {
    hide Listens;
    MatchingMembers(subs, created, event);
    if created == 0 {
    } else {
      var before := Matching(subs, created - 1, event);
      MatchingIsListening(subs, created - 1, event);
      forall k | 0 <= k < |before|
        ensures before[k] < created - 1
      {
        assert before[k] in before;
      }
    }
  }

  /** Notified are exactly the active subscriptions that list the event, each once. */
  lemma MatchingIsExact(subs: map<nat, Subscription>, created: nat, event: EventType)
    ensures var ids := Matching(subs, created, event);
            && (forall id: nat :: id in ids <==>
                  && id < created && id in subs && subs[id].status == Active
                  && exists k :: 0 <= k < |subs[id].eventTypes| && subs[id].eventTypes[k] == event)
            && forall i, j :: 0 <= i < j < |ids| ==> ids[i] < ids[j]
  {
    hide Matching;
    MatchingIsListening(subs, created, event);
  }

  // ----- One delivery -----

  function MessagesOf(ms: seq<Message>, d: nat): seq<Message> {
    if ms == [] then [] else
    MessagesOf(ms[..|ms| - 1], d) + if ms[|ms| - 1].deliveryId == d then [ms[|ms| - 1]] else []
  }

  function AttemptsOf(log: seq<Attempt>, d: nat): seq<Attempt> {
    if log == [] then [] else
    AttemptsOf(log[..|log| - 1], d) + if log[|log| - 1].deliveryId == d then [log[|log| - 1]] else []
  }

  /** What one delivery has in the queue, among the dead letters and in the log. */
  datatype Record = Record(queued: seq<Message>, dead: seq<Message>, attempts: seq<Attempt>)

  function RecordOf(w: World, d: nat): Record {
    Record(MessagesOf(w.queue, d), MessagesOf(w.deadLetters, d), AttemptsOf(w.log, d))
  }

  function Successes(attempts: seq<Attempt>): nat {
    if attempts == [] then 0 else
    Successes(attempts[..|attempts| - 1]) + if attempts[|attempts| - 1].ok then 1 else 0
  }

  ghost predicate AttemptOk(attempts: seq<Attempt>, k: nat)
    requires k < |attempts|
  {
    && attempts[k].number == k + 1
    && (k > 0 ==>
          !attempts[k - 1].ok && attempts[k].startedAt >= attempts[k - 1].endedAt + RetryDelay(k))
  }

  /**
   Attempts count up from 1, stop at the first success, and each comes at least the
   retry delay after the failure before it.
   */
  ghost predicate Spaced(attempts: seq<Attempt>) {
    forall k: nat :: k < |attempts| ==> AttemptOk(attempts, k)
  }

  lemma SpacedAppend(attempts: seq<Attempt>, a: Attempt)
    requires Spaced(attempts) && a.number == |attempts| + 1
    requires attempts != [] ==>
               !attempts[|attempts| - 1].ok
               && a.startedAt >= attempts[|attempts| - 1].endedAt + RetryDelay(|attempts|)
    ensures Spaced(attempts + [a])
  {
    hide RetryDelay;
    forall k: nat | k < |attempts| + 1
      ensures AttemptOk(attempts + [a], k)
    {
      assert k < |attempts| ==> AttemptOk(attempts, k);
    }
  }

  lemma SpacedPrefix(attempts: seq<Attempt>)
    requires Spaced(attempts) && attempts != []
    ensures Spaced(attempts[..|attempts| - 1]) && AttemptOk(attempts, |attempts| - 1)
  {
    hide RetryDelay;
    var init := attempts[..|attempts| - 1];
    forall k: nat | k < |init|
      ensures AttemptOk(init, k)
    {
      assert AttemptOk(attempts, k);
    }
  }

  ghost predicate AllFailed(attempts: seq<Attempt>) {
    forall k :: 0 <= k < |attempts| ==> !attempts[k].ok
  }

  ghost predicate Waiting(queued: seq<Message>, dead: seq<Message>, attempts: seq<Attempt>) {
    && |queued| == 1 && dead == [] && AllFailed(attempts) && |attempts| < MAX_ATTEMPTS
    && queued[0].attempt == |attempts| + 1
    && (attempts != [] ==> queued[0].scheduledAt == attempts[|attempts| - 1].endedAt + RetryDelay(|attempts|))
  }

  ghost predicate Delivered(queued: seq<Message>, dead: seq<Message>, attempts: seq<Attempt>) {
    queued == [] && dead == [] && 0 < |attempts| <= MAX_ATTEMPTS && attempts[|attempts| - 1].ok
  }

  ghost predicate Abandoned(queued: seq<Message>, dead: seq<Message>, attempts: seq<Attempt>) {
    queued == [] && |dead| == 1 && |attempts| == MAX_ATTEMPTS && AllFailed(attempts)
  }

  ghost predicate DeliveryOk(queued: seq<Message>, dead: seq<Message>, attempts: seq<Attempt>) {
    && Spaced(attempts)
    && (Waiting(queued, dead, attempts) || Delivered(queued, dead, attempts) || Abandoned(queued, dead, attempts))
  }

  /** One step of a waiting delivery. */
  lemma DeliverKeeps(m: Message, attempts: seq<Attempt>, now: int, ok: bool, endedAt: int)
    requires DeliveryOk([m], [], attempts)
    ensures var o := Deliver(m, now, ok, endedAt);
            DeliveryOk(o.queued, o.dead, attempts + o.attempts)
  {
    hide Spaced, RetryDelay;
    var o := Deliver(m, now, ok, endedAt);
    if !Due(m, now) {
      assert attempts + [] == attempts;
    } else {
      var a := Attempt(m.deliveryId, m.subscriptionId, m.attempt, now, endedAt, ok);
      SpacedAppend(attempts, a);
      assert o.attempts == [a];
      assert AllFailed(attempts);
    }
  }

  lemma MessagesOfLast(ms: seq<Message>, init: seq<Message>, m: Message, d: nat)
    requires ms == init + [m]
    ensures MessagesOf(ms, d) == MessagesOf(init, d) + if m.deliveryId == d then [m] else []
  {
    assert ms[..|ms| - 1] == init;
  }

  lemma AttemptsOfLast(log: seq<Attempt>, init: seq<Attempt>, a: Attempt, d: nat)
    requires log == init + [a]
    ensures AttemptsOf(log, d) == AttemptsOf(init, d) + if a.deliveryId == d then [a] else []
  {
    assert log[..|log| - 1] == init;
  }

  lemma {:induction false} MessagesOfConcat(a: seq<Message>, b: seq<Message>, d: nat)
    ensures MessagesOf(a + b, d) == MessagesOf(a, d) + MessagesOf(b, d)
  {
    hide MessagesOf;
    if b == [] {
      MessagesOfEmpty(d);
      assert a + b == a;
      assert MessagesOf(a, d) + [] == MessagesOf(a, d);
    } else {
      var init, last := b[..|b| - 1], b[|b| - 1];
      MessagesOfConcat(a, init, d);
      assert a + b == (a + init) + [last];
      MessagesOfLast(a + b, a + init, last, d);
      MessagesOfLast(b, init, last, d);
      var tail := if last.deliveryId == d then [last] else [];
      assert (MessagesOf(a, d) + MessagesOf(init, d)) + tail == MessagesOf(a, d) + (MessagesOf(init, d) + tail);
    }
  }

  lemma MessagesOfEmpty(d: nat)
    ensures MessagesOf([], d) == []
  {
  }

  lemma {:induction false} AttemptsOfConcat(a: seq<Attempt>, b: seq<Attempt>, d: nat)
    ensures AttemptsOf(a + b, d) == AttemptsOf(a, d) + AttemptsOf(b, d)
  {
    hide AttemptsOf;
    if b == [] {
      AttemptsOfEmpty(d);
      assert a + b == a;
      assert AttemptsOf(a, d) + [] == AttemptsOf(a, d);
    } else {
      var init, last := b[..|b| - 1], b[|b| - 1];
      AttemptsOfConcat(a, init, d);
      assert a + b == (a + init) + [last];
      AttemptsOfLast(a + b, a + init, last, d);
      AttemptsOfLast(b, init, last, d);
      var tail := if last.deliveryId == d then [last] else [];
      assert (AttemptsOf(a, d) + AttemptsOf(init, d)) + tail == AttemptsOf(a, d) + (AttemptsOf(init, d) + tail);
    }
  }

  lemma AttemptsOfEmpty(d: nat)
    ensures AttemptsOf([], d) == []
  {
  }

  lemma {:induction false} MessagesOfAll(ms: seq<Message>, d: nat, e: nat)
    requires forall k :: 0 <= k < |ms| ==> ms[k].deliveryId == e
    ensures MessagesOf(ms, d) == if d == e then ms else []
  {
    if ms == [] {
    } else {
      MessagesOfAll(ms[..|ms| - 1], d, e);
    }
  }

  lemma {:induction false} AttemptsOfAll(log: seq<Attempt>, d: nat, e: nat)
    requires forall k :: 0 <= k < |log| ==> log[k].deliveryId == e
    ensures AttemptsOf(log, d) == if d == e then log else []
  {
    if log == [] {
    } else {
      AttemptsOfAll(log[..|log| - 1], d, e);
    }
  }

  lemma MessagesAround(queue: seq<Message>, i: nat, d: nat)
    requires i < |queue|
    ensures var before, after := MessagesOf(queue[..i], d), MessagesOf(queue[i + 1..], d);
            && MessagesOf(queue, d) == (before + if queue[i].deliveryId == d then [queue[i]] else []) + after
            && MessagesOf(Without(queue, i), d) == before + after
  {
    hide MessagesOf;
    var a, m, b := queue[..i], queue[i], queue[i + 1..];
    assert queue == (a + [m]) + b;
    MessagesOfConcat(a, b, d);
    MessagesOfConcat(a + [m], b, d);
    MessagesOfConcat(a, [m], d);
    MessagesOfAll([m], d, m.deliveryId);
  }

  /** Taking a message out of the queue. */
  lemma MessagesWithout(queue: seq<Message>, i: nat, d: nat)
    requires i < |queue|
    ensures queue[i].deliveryId != d ==> MessagesOf(Without(queue, i), d) == MessagesOf(queue, d)
    ensures queue[i].deliveryId == d ==> |MessagesOf(queue, d)| >= 1
    ensures queue[i].deliveryId == d && |MessagesOf(queue, d)| == 1 ==>
              MessagesOf(queue, d) == [queue[i]] && MessagesOf(Without(queue, i), d) == []
  {
    MessagesAround(queue, i, d);
    var before, m, after := MessagesOf(queue[..i], d), queue[i], MessagesOf(queue[i + 1..], d);
    hide MessagesOf, Without;
    if m.deliveryId != d {
      assert before + [] == before;
    } else if |MessagesOf(queue, d)| == 1 {
      assert before == [] && after == [];
      assert ([] + [m]) + [] == [m];
    }
  }

  // ----- What every run keeps -----

  ghost predicate RecordOk(issued: bool, r: Record) {
    if issued then DeliveryOk(r.queued, r.dead, r.attempts) else r == Record([], [], [])
  }

  ghost predicate DeliveriesOk(w: World) {
    forall d: nat :: RecordOk(d < w.issued, RecordOf(w, d))
  }

  function DeadFor(dead: seq<Message>, subscription: nat): nat {
    if dead == [] then 0 else
    DeadFor(dead[..|dead| - 1], subscription) + if dead[|dead| - 1].subscriptionId == subscription then 1 else 0
  }

  ghost predicate CountsOk(w: World) {
    && (forall id :: id in w.subscriptions ==>
          id < w.created && w.subscriptions[id].retryCount == DeadFor(w.deadLetters, id))
    && (forall k :: 0 <= k < |w.queue| ==> w.queue[k].subscriptionId < w.created)
    && (forall k :: 0 <= k < |w.deadLetters| ==> w.deadLetters[k].subscriptionId < w.created)
  }

  ghost predicate Invariant(w: World) {
    DeliveriesOk(w) && CountsOk(w)
  }

  lemma {:induction false} NoneDeadFor(dead: seq<Message>, subscription: nat)
    requires forall k :: 0 <= k < |dead| ==> dead[k].subscriptionId != subscription
    ensures DeadFor(dead, subscription) == 0
  {
    if dead == [] {
    } else {
      NoneDeadFor(dead[..|dead| - 1], subscription);
    }
  }

  /** Queueing adds one waiting message per new delivery. */
  lemma {:induction false} MessagesOfFirst(ms: seq<Message>, issued: nat, d: nat)
    requires forall k :: 0 <= k < |ms| ==> ms[k].deliveryId == issued + k
    ensures MessagesOf(ms, d) == if issued <= d < issued + |ms| then [ms[d - issued]] else []
  {
    if ms == [] {
    } else {
      MessagesOfFirst(ms[..|ms| - 1], issued, d);
    }
  }

  lemma QueueKeeps(w: World, event: EventType, clock: nat -> int)
    requires Invariant(w)
    ensures Invariant(Step(w, Queue(event, clock)))
  {
    hide MessagesOf, AttemptsOf, DeadFor, Spaced;
    var w' := Step(w, Queue(event, clock));
    var ids := Matching(w.subscriptions, w.created, event);
    MatchingExists(w.subscriptions, w.created, event);
    MatchingIsListening(w.subscriptions, w.created, event);
    var added := FirstMessages(w.subscriptions, ids, event, clock, w.issued);
    assert w'.queue == w.queue + added;
    SpacedNone();
    forall d: nat
      ensures RecordOk(d < w'.issued, RecordOf(w', d))
    {
      assert RecordOk(d < w.issued, RecordOf(w, d));
      MessagesOfConcat(w.queue, added, d);
      MessagesOfFirst(added, w.issued, d);
      assert MessagesOf(w.queue, d) + [] == MessagesOf(w.queue, d);
    }
  }

  lemma SpacedNone()
    ensures Spaced([])
  {
  }

  /** A step leaves every other delivery alone. */
  lemma TakeOnOther(w: World, i: nat, now: int, ok: bool, endedAt: int, d: nat)
    requires i < |w.queue| && d != w.queue[i].deliveryId
    ensures RecordOf(Step(w, Take(i, now, ok, endedAt)), d) == RecordOf(w, d)
  {
    hide MessagesOf, AttemptsOf, Deliver, Without;
    var m := w.queue[i];
    var o := Deliver(m, now, ok, endedAt);
    OutcomeIsOwn(m, now, ok, endedAt);
    MessagesWithout(w.queue, i, d);
    MessagesOfNone(Without(w.queue, i), o.queued, d, m.deliveryId);
    MessagesOfNone(w.deadLetters, o.dead, d, m.deliveryId);
    AttemptsOfNone(w.log, o.attempts, d, m.deliveryId);
  }

  lemma MessagesOfNone(a: seq<Message>, b: seq<Message>, d: nat, e: nat)
    requires d != e && forall k :: 0 <= k < |b| ==> b[k].deliveryId == e
    ensures MessagesOf(a + b, d) == MessagesOf(a, d)
  {
    hide MessagesOf;
    MessagesOfConcat(a, b, d);
    MessagesOfAll(b, d, e);
    assert MessagesOf(a, d) + [] == MessagesOf(a, d);
  }

  lemma AttemptsOfNone(a: seq<Attempt>, b: seq<Attempt>, d: nat, e: nat)
    requires d != e && forall k :: 0 <= k < |b| ==> b[k].deliveryId == e
    ensures AttemptsOf(a + b, d) == AttemptsOf(a, d)
  {
    hide AttemptsOf;
    AttemptsOfConcat(a, b, d);
    AttemptsOfAll(b, d, e);
    assert AttemptsOf(a, d) + [] == AttemptsOf(a, d);
  }

  /** A step leaves the delivery of its message with the outcome. */
  lemma TakeOnOwn(w: World, i: nat, now: int, ok: bool, endedAt: int)
    requires i < |w.queue|
    requires |MessagesOf(w.queue, w.queue[i].deliveryId)| == 1 && MessagesOf(w.deadLetters, w.queue[i].deliveryId) == []
    ensures var d, o := w.queue[i].deliveryId, Deliver(w.queue[i], now, ok, endedAt);
            RecordOf(Step(w, Take(i, now, ok, endedAt)), d) == Record(o.queued, o.dead, AttemptsOf(w.log, d) + o.attempts)
  {
    hide MessagesOf, AttemptsOf, Deliver, Without;
    var m := w.queue[i];
    var o := Deliver(m, now, ok, endedAt);
    OutcomeIsOwn(m, now, ok, endedAt);
    MessagesWithout(w.queue, i, m.deliveryId);
    MessagesOfOnly(Without(w.queue, i), o.queued, m.deliveryId);
    MessagesOfOnly(w.deadLetters, o.dead, m.deliveryId);
    AttemptsOfConcat(w.log, o.attempts, m.deliveryId);
    AttemptsOfAll(o.attempts, m.deliveryId, m.deliveryId);
  }

  lemma MessagesOfOnly(a: seq<Message>, b: seq<Message>, d: nat)
    requires MessagesOf(a, d) == [] && forall k :: 0 <= k < |b| ==> b[k].deliveryId == d
    ensures MessagesOf(a + b, d) == b
  {
    hide MessagesOf;
    MessagesOfConcat(a, b, d);
    MessagesOfAll(b, d, d);
    assert [] + b == b;
  }

  lemma OutcomeIsOwn(m: Message, now: int, ok: bool, endedAt: int)
    ensures var o := Deliver(m, now, ok, endedAt);
            && (forall k :: 0 <= k < |o.queued| ==> o.queued[k].deliveryId == m.deliveryId)
            && (forall k :: 0 <= k < |o.dead| ==> o.dead[k].deliveryId == m.deliveryId)
            && (forall k :: 0 <= k < |o.attempts| ==> o.attempts[k].deliveryId == m.deliveryId)
  {
  }

  /** A message in the queue is the whole of its delivery. */
  lemma QueuedIsWaiting(w: World, i: nat)
    requires DeliveriesOk(w) && i < |w.queue|
    ensures var d := w.queue[i].deliveryId;
            && d < w.issued && MessagesOf(w.queue, d) == [w.queue[i]] && MessagesOf(w.deadLetters, d) == []
            && DeliveryOk([w.queue[i]], [], AttemptsOf(w.log, d))
  {
    hide MessagesOf, AttemptsOf, Spaced, AllFailed;
    MessagesWithout(w.queue, i, w.queue[i].deliveryId);
    assert RecordOk(w.queue[i].deliveryId < w.issued, RecordOf(w, w.queue[i].deliveryId));
  }

  lemma TakeKeepsDeliveries(w: World, i: nat, now: int, ok: bool, endedAt: int)
    requires DeliveriesOk(w) && i < |w.queue|
    ensures DeliveriesOk(Step(w, Take(i, now, ok, endedAt)))
  {
    hide RecordOf, DeliveryOk, Deliver, MessagesOf, AttemptsOf;
    QueuedIsWaiting(w, i);
    var w' := Step(w, Take(i, now, ok, endedAt));
    var m := w.queue[i];
    DeliverKeeps(m, AttemptsOf(w.log, m.deliveryId), now, ok, endedAt);
    TakeOnOwn(w, i, now, ok, endedAt);
    forall d: nat
      ensures RecordOk(d < w'.issued, RecordOf(w', d))
    {
      if d != m.deliveryId {
        TakeOnOther(w, i, now, ok, endedAt, d);
      }
    }
  }

  lemma DeadIsTaken(m: Message, now: int, ok: bool, endedAt: int)
    ensures Deliver(m, now, ok, endedAt).dead == [] || Deliver(m, now, ok, endedAt).dead == [m]
  {
  }

  lemma {:induction false} DeadForConcat(a: seq<Message>, m: Message, subscription: nat)
    ensures DeadFor(a + [m], subscription) == DeadFor(a, subscription) + if m.subscriptionId == subscription then 1 else 0
  {
    assert (a + [m])[..|a|] == a;
  }

  lemma TakeKeepsCounts(w: World, i: nat, now: int, ok: bool, endedAt: int)
    requires CountsOk(w) && i < |w.queue|
    ensures CountsOk(Step(w, Take(i, now, ok, endedAt)))
  {
    hide DeadFor, RetryDelay;
    var w' := Step(w, Take(i, now, ok, endedAt));
    var m := w.queue[i];
    var o := Deliver(m, now, ok, endedAt);
    DeadIsTaken(m, now, ok, endedAt);
    assert forall k :: 0 <= k < |o.queued| ==> o.queued[k].subscriptionId == m.subscriptionId;
    hide Deliver;
    if o.dead == [m] {
      forall id: nat
        ensures DeadFor(w'.deadLetters, id) == DeadFor(w.deadLetters, id) + if m.subscriptionId == id then 1 else 0
      {
        DeadForConcat(w.deadLetters, m, id);
      }
    } else {
      assert w.deadLetters + [] == w.deadLetters;
    }
  }

  lemma StoreChangeKeeps(w: World, w': World)
    requires DeliveriesOk(w)
    requires w'.queue == w.queue && w'.deadLetters == w.deadLetters && w'.log == w.log && w'.issued == w.issued
    ensures DeliveriesOk(w')
  {
    hide RecordOk;
    forall d: nat
      ensures RecordOk(d < w'.issued, RecordOf(w', d))
    {
      assert RecordOk(d < w.issued, RecordOf(w, d));
    }
  }

  lemma StepKeeps(w: World, r: Request)
    requires Invariant(w)
    ensures Invariant(Step(w, r))
  {
    hide RecordOk, RecordOf, DeadFor, MessagesOf, AttemptsOf;
    match r
    case Create(_, _, _) =>
      NoneDeadFor(w.deadLetters, w.created);
      StoreChangeKeeps(w, Step(w, r));
    case Suspend(_) =>
      StoreChangeKeeps(w, Step(w, r));
    case Delete(_) =>
      StoreChangeKeeps(w, Step(w, r));
    case Queue(event, clock) =>
      QueueKeeps(w, event, clock);
    case Take(i, now, ok, endedAt) =>
      if i < |w.queue| {
        TakeKeepsDeliveries(w, i, now, ok, endedAt);
        TakeKeepsCounts(w, i, now, ok, endedAt);
      }
  }

  lemma EmptyOk()
    ensures Invariant(EMPTY)
  {
  }

  lemma {:induction false} RunKeeps(rs: seq<Request>)
    ensures Invariant(Run(EMPTY, rs))
  {
    hide Invariant, Step;
    EmptyOk();
    if rs == [] {
    } else {
      RunKeeps(rs[..|rs| - 1]);
      StepKeeps(Run(EMPTY, rs[..|rs| - 1]), rs[|rs| - 1]);
    }
  }

  lemma {:induction false} SuccessesOf(attempts: seq<Attempt>)
    requires Spaced(attempts)
    ensures Successes(attempts) == if attempts != [] && attempts[|attempts| - 1].ok then 1 else 0
  {
    if attempts == [] {
    } else {
      SpacedPrefix(attempts);
      hide Spaced;
      SuccessesOf(attempts[..|attempts| - 1]);
    }
  }

  /**
   In every run each delivery is exactly one of: one queued message, one success, one
   dead letter. It is posted at most three times, and dead-lettered only after three failures.
   */
  lemma EachDeliveryOnce(rs: seq<Request>, w: World, d: nat)
    requires w == Run(EMPTY, rs) && d < w.issued
    ensures |MessagesOf(w.queue, d)| + Successes(AttemptsOf(w.log, d)) + |MessagesOf(w.deadLetters, d)| == 1
    ensures |AttemptsOf(w.log, d)| <= 3
    ensures |MessagesOf(w.deadLetters, d)| == 1 ==> |AttemptsOf(w.log, d)| == 3
  {
    hide Run, MessagesOf, AttemptsOf, CountsOk;
    RunKeeps(rs);
    assert RecordOk(true, RecordOf(w, d));
    SuccessesOf(AttemptsOf(w.log, d));
  }

  /** The second and third attempts of a delivery come at least 60 and 300 seconds after the failures before them. */
  lemma RetriesAreSpaced(rs: seq<Request>, w: World, d: nat)
    requires w == Run(EMPTY, rs) && d < w.issued
    ensures var attempts := AttemptsOf(w.log, d);
            && (|attempts| >= 2 ==> !attempts[0].ok && attempts[1].startedAt >= attempts[0].endedAt + 60_000)
            && (|attempts| >= 3 ==> !attempts[1].ok && attempts[2].startedAt >= attempts[1].endedAt + 300_000)
  {
    hide Run, MessagesOf, AttemptsOf, CountsOk, Waiting, Delivered, Abandoned;
    RunKeeps(rs);
    var attempts := AttemptsOf(w.log, d);
    assert RecordOk(true, RecordOf(w, d));
    assert |attempts| >= 2 ==> AttemptOk(attempts, 1);
    assert |attempts| >= 3 ==> AttemptOk(attempts, 2);
  }

  /**
   A queued message that has been posted once waits for 60 seconds after that failure,
   and one that has been posted twice for 300, in every run; the third delay of half an hour is never used.
   */
  lemma DelaysUsed(rs: seq<Request>, w: World, i: nat)
    requires w == Run(EMPTY, rs) && i < |w.queue|
    ensures var m := w.queue[i];
            var attempts := AttemptsOf(w.log, m.deliveryId);
            && m.attempt == |attempts| + 1
            && (attempts != [] ==>
                  && |attempts| <= 2
                  && m.scheduledAt - attempts[|attempts| - 1].endedAt == if |attempts| == 1 then 60_000 else 300_000)
            && RetryDelay(3) == 30 * 60_000
  {
    RunKeeps(rs);
    hide Run, MessagesOf, AttemptsOf, CountsOk, DeliveriesOk, Spaced;
    QueuedIsWaiting(w, i);
  }

  /** While a subscription exists, its retry count is the number of its dead-lettered deliveries. */
  lemma RetryCountIsDeadLetters(rs: seq<Request>, w: World, id: nat)
    requires w == Run(EMPTY, rs) && id in w.subscriptions
    ensures w.subscriptions[id].retryCount == DeadFor(w.deadLetters, id)
  {
    hide Run, DeliveriesOk;
    RunKeeps(rs);
  }

  // ----- Termination -----

  /** Posts that the queue can still cause. */
  function Remaining(queue: seq<Message>): int {
    if queue == [] then 0 else
    Remaining(queue[..|queue| - 1]) + MAX_ATTEMPTS + 1 - queue[|queue| - 1].attempt
  }

  lemma {:induction false} RemainingOfConcat(a: seq<Message>, b: seq<Message>)
    ensures Remaining(a + b) == Remaining(a) + Remaining(b)
  {
    if b == [] {
      assert a + b == a;
    } else {
      RemainingOfConcat(a, b[..|b| - 1]);
      assert (a + b)[..|a + b| - 1] == a + b[..|b| - 1];
    }
  }

  lemma OutcomeUsesUp(m: Message, now: int, ok: bool, endedAt: int)
    requires 1 <= m.attempt <= MAX_ATTEMPTS
    ensures var o := Deliver(m, now, ok, endedAt);
            if Due(m, now) then Remaining(o.queued) < Remaining([m]) && |o.attempts| == 1
            else Remaining(o.queued) == Remaining([m]) && o.attempts == []
  {
    hide RetryDelay;
    var o := Deliver(m, now, ok, endedAt);
    assert Remaining([m]) == MAX_ATTEMPTS + 1 - m.attempt;
    assert o.queued != [] ==> Remaining(o.queued) == MAX_ATTEMPTS + 1 - o.queued[0].attempt;
  }

  lemma RemainingWithout(queue: seq<Message>, i: nat)
    requires i < |queue|
    ensures Remaining(queue) == Remaining(Without(queue, i)) + Remaining([queue[i]])
  {
    hide Remaining;
    var a, m, b := queue[..i], queue[i], queue[i + 1..];
    RemainingOfConcat(a, b);
    RemainingOfConcat(a + [m], b);
    RemainingOfConcat(a, [m]);
    assert queue == (a + [m]) + b;
  }

  /** Every post uses up at least one of the remaining ones; a message that is not due uses up none. */
  lemma TakeUsesUp(w: World, i: nat, now: int, ok: bool, endedAt: int)
    requires Invariant(w) && i < |w.queue|
    ensures var w' := Step(w, Take(i, now, ok, endedAt));
            if Due(w.queue[i], now) then Remaining(w'.queue) < Remaining(w.queue) && |w'.log| == |w.log| + 1
            else Remaining(w'.queue) == Remaining(w.queue) && w'.log == w.log
  {
    hide Invariant, Remaining, Deliver, Due, Without;
    var o := Deliver(w.queue[i], now, ok, endedAt);
    QueuedAttempt(w, i);
    OutcomeUsesUp(w.queue[i], now, ok, endedAt);
    RemainingWithout(w.queue, i);
    RemainingOfConcat(Without(w.queue, i), o.queued);
    assert w.log + [] == w.log;
  }

  lemma QueuedAttempt(w: World, i: nat)
    requires Invariant(w) && i < |w.queue|
    ensures 1 <= w.queue[i].attempt <= MAX_ATTEMPTS
  {
    hide MessagesOf, AttemptsOf, CountsOk, Spaced, DeliveriesOk;
    QueuedIsWaiting(w, i);
  }

  lemma {:induction false} RemainingBounds(w: World, n: nat)
    requires Invariant(w) && n <= |w.queue|
    ensures n <= Remaining(w.queue[..n]) <= 3 * n
  {
    hide Invariant;
    if n == 0 {
    } else {
      RemainingBounds(w, n - 1);
      QueuedAttempt(w, n - 1);
      assert w.queue[..n][..n - 1] == w.queue[..n - 1];
    }
  }

  /** Every step takes a message that is in the queue and due. */
  ghost predicate AllDue(w: World, rs: seq<Request>) {
    rs != [] ==>
      var init, r := rs[..|rs| - 1], rs[|rs| - 1];
      AllDue(w, init) && r.Take? && r.i < |Run(w, init).queue| && Due(Run(w, init).queue[r.i], r.now)
  }

  /**
   Once messages are due, the queue drains: however outcomes fall, taking due messages
   ends after at most three steps per message, and while a message is left there is a
   time at which it can be taken.
   */
  lemma {:induction false} QueueDrains(w: World, rs: seq<Request>)
    requires Invariant(w) && AllDue(w, rs)
    ensures Invariant(Run(w, rs))
    ensures |rs| + Remaining(Run(w, rs).queue) <= Remaining(w.queue) <= 3 * |w.queue|
    ensures Run(w, rs).queue != [] ==>
              forall ok: bool, endedAt: int :: AllDue(w, rs + [Take(0, Run(w, rs).queue[0].scheduledAt, ok, endedAt)])
  {
    hide Invariant, Step, Due;
    RemainingBounds(w, |w.queue|);
    assert w.queue[..|w.queue|] == w.queue;
    if rs != [] {
      var init, r := rs[..|rs| - 1], rs[|rs| - 1];
      QueueDrains(w, init);
      TakeUsesUp(Run(w, init), r.i, r.now, r.ok, r.endedAt);
      StepKeeps(Run(w, init), r);
    }
    var end := Run(w, rs);
    RemainingBounds(end, |end.queue|);
    assert end.queue[..|end.queue|] == end.queue;
    if end.queue != [] {
      NextIsDue(w, rs);
    }
  }

  lemma NextIsDue(w: World, rs: seq<Request>)
    requires AllDue(w, rs) && Run(w, rs).queue != []
    ensures forall ok: bool, endedAt: int :: AllDue(w, rs + [Take(0, Run(w, rs).queue[0].scheduledAt, ok, endedAt)])
  {
    hide Run;
    forall ok: bool, endedAt: int
      ensures AllDue(w, rs + [Take(0, Run(w, rs).queue[0].scheduledAt, ok, endedAt)])
    {
      assert (rs + [Take(0, Run(w, rs).queue[0].scheduledAt, ok, endedAt)])[..|rs|] == rs;
    }
  }

  // ----- Retry counts and failed attempts -----

  /** Failed posts for a subscription. */
  function FailuresFor(log: seq<Attempt>, subscription: nat): nat {
    if log == [] then 0 else
    var a := log[|log| - 1];
    FailuresFor(log[..|log| - 1], subscription) + if a.subscriptionId == subscription && !a.ok then 1 else 0
  }

  /** Failed posts behind the messages that wait for a subscription. */
  function WaitingFailures(queue: seq<Message>, subscription: nat): int {
    if queue == [] then 0 else
    var m := queue[|queue| - 1];
    WaitingFailures(queue[..|queue| - 1], subscription) + if m.subscriptionId == subscription then m.attempt - 1 else 0
  }

  lemma {:induction false} WaitingFailuresOfConcat(a: seq<Message>, b: seq<Message>, subscription: nat)
    ensures WaitingFailures(a + b, subscription) == WaitingFailures(a, subscription) + WaitingFailures(b, subscription)
  {
    if b == [] {
      assert a + b == a;
    } else {
      WaitingFailuresOfConcat(a, b[..|b| - 1], subscription);
      assert (a + b)[..|a + b| - 1] == a + b[..|b| - 1];
    }
  }

  lemma WaitingFailuresWithout(queue: seq<Message>, i: nat, subscription: nat)
    requires i < |queue|
    ensures WaitingFailures(queue, subscription)
         == WaitingFailures(Without(queue, i), subscription) + WaitingFailures([queue[i]], subscription)
  {
    hide WaitingFailures;
    var a, m, b := queue[..i], queue[i], queue[i + 1..];
    assert queue == (a + [m]) + b;
    WaitingFailuresOfConcat(a, b, subscription);
    WaitingFailuresOfConcat(a + [m], b, subscription);
    WaitingFailuresOfConcat(a, [m], subscription);
  }

  /** Every dead letter stands for three failed posts, and every waiting message for those before it. */
  ghost predicate FailuresCovered(w: World) {
    forall id: nat ::
      FailuresFor(w.log, id) >= MAX_ATTEMPTS * DeadFor(w.deadLetters, id) + WaitingFailures(w.queue, id)
  }

  lemma OutcomeCovered(m: Message, now: int, ok: bool, endedAt: int, id: nat)
    requires 1 <= m.attempt <= MAX_ATTEMPTS
    ensures var o := Deliver(m, now, ok, endedAt);
            FailuresFor(o.attempts, id) + WaitingFailures([m], id)
            >= MAX_ATTEMPTS * DeadFor(o.dead, id) + WaitingFailures(o.queued, id)
  {
    hide RetryDelay;
    var o := Deliver(m, now, ok, endedAt);
    WaitingFailuresOfOne(m, id);
    if o.queued != [] {
      WaitingFailuresOfOne(o.queued[0], id);
    }
    assert DeadFor([m], id) == if m.subscriptionId == id then 1 else 0;
    assert o.attempts != [] ==> FailuresFor(o.attempts, id) == if m.subscriptionId == id && !ok then 1 else 0;
  }

  lemma WaitingFailuresOfOne(m: Message, id: nat)
    ensures WaitingFailures([m], id) == if m.subscriptionId == id then m.attempt - 1 else 0
  {
  }

  lemma {:induction false} FailuresForConcat(a: seq<Attempt>, b: seq<Attempt>, id: nat)
    requires |b| <= 1
    ensures FailuresFor(a + b, id) == FailuresFor(a, id) + FailuresFor(b, id)
  {
    if b == [] {
      assert a + b == a;
    } else {
      assert (a + b)[..|a|] == a;
    }
  }

  lemma {:induction false} DeadForOutcome(a: seq<Message>, b: seq<Message>, id: nat)
    requires |b| <= 1
    ensures DeadFor(a + b, id) == DeadFor(a, id) + DeadFor(b, id)
  {
    if b == [] {
      assert a + b == a;
    } else {
      assert (a + b)[..|a|] == a;
    }
  }

  lemma TakeKeepsCover(w: World, i: nat, now: int, ok: bool, endedAt: int)
    requires Invariant(w) && FailuresCovered(w) && i < |w.queue|
    ensures FailuresCovered(Step(w, Take(i, now, ok, endedAt)))
  {
    hide Invariant, FailuresFor, WaitingFailures, DeadFor, Without;
    var w' := Step(w, Take(i, now, ok, endedAt));
    var m := w.queue[i];
    var o := Deliver(m, now, ok, endedAt);
    QueuedAttempt(w, i);
    assert |o.dead| <= 1 && |o.attempts| <= 1;
    hide Deliver;
    forall id: nat
      ensures FailuresFor(w'.log, id) >= MAX_ATTEMPTS * DeadFor(w'.deadLetters, id) + WaitingFailures(w'.queue, id)
    {
      OutcomeCovered(m, now, ok, endedAt, id);
      WaitingFailuresWithout(w.queue, i, id);
      WaitingFailuresOfConcat(Without(w.queue, i), o.queued, id);
      FailuresForConcat(w.log, o.attempts, id);
      DeadForOutcome(w.deadLetters, o.dead, id);
      assert FailuresFor(w.log, id) >= MAX_ATTEMPTS * DeadFor(w.deadLetters, id) + WaitingFailures(w.queue, id);
    }
  }

  lemma {:induction false} FirstHaveNoFailures(ms: seq<Message>, id: nat)
    requires forall k :: 0 <= k < |ms| ==> ms[k].attempt == 1
    ensures WaitingFailures(ms, id) == 0
  {
    if ms == [] {
    } else {
      FirstHaveNoFailures(ms[..|ms| - 1], id);
    }
  }

  lemma QueueKeepsCover(w: World, event: EventType, clock: nat -> int)
    requires FailuresCovered(w)
    ensures FailuresCovered(Step(w, Queue(event, clock)))
  {
    hide FailuresFor, WaitingFailures, DeadFor;
    var w' := Step(w, Queue(event, clock));
    var ids := Matching(w.subscriptions, w.created, event);
    MatchingExists(w.subscriptions, w.created, event);
    var added := FirstMessages(w.subscriptions, ids, event, clock, w.issued);
    forall id: nat
      ensures FailuresFor(w'.log, id) >= MAX_ATTEMPTS * DeadFor(w'.deadLetters, id) + WaitingFailures(w'.queue, id)
    {
      WaitingFailuresOfConcat(w.queue, added, id);
      FirstHaveNoFailures(added, id);
      assert FailuresFor(w.log, id) >= MAX_ATTEMPTS * DeadFor(w.deadLetters, id) + WaitingFailures(w.queue, id);
    }
  }

  lemma {:induction false} RunKeepsCover(rs: seq<Request>)
    ensures FailuresCovered(Run(EMPTY, rs))
  {
    if rs == [] {
    } else {
      var init, r := rs[..|rs| - 1], rs[|rs| - 1];
      RunKeepsCover(init);
      RunKeeps(init);
      var w := Run(EMPTY, init);
      hide Invariant, FailuresFor, WaitingFailures, DeadFor;
      match r
      case Queue(event, clock) =>
        QueueKeepsCover(w, event, clock);
      case Take(i, now, ok, endedAt) =>
        if i < |w.queue| {
          TakeKeepsCover(w, i, now, ok, endedAt);
        }
      case _ =>
        assert FailuresCovered(Step(w, r));
    }
  }

  lemma {:induction false} WaitingFailuresNonNegative(queue: seq<Message>, id: nat)
    requires forall k :: 0 <= k < |queue| ==> queue[k].attempt >= 1
    ensures WaitingFailures(queue, id) >= 0
  {
    if queue == [] {
    } else {
      WaitingFailuresNonNegative(queue[..|queue| - 1], id);
    }
  }

  /**
   In every run the retry count of a subscription is at most a third of its failed
   posts, so the two agree exactly when no post has failed.
   */
  lemma RetryCountMissesFailures(rs: seq<Request>, w: World, id: nat)
    requires w == Run(EMPTY, rs) && id in w.subscriptions
    ensures 3 * w.subscriptions[id].retryCount <= FailuresFor(w.log, id)
    ensures w.subscriptions[id].retryCount == FailuresFor(w.log, id) <==> FailuresFor(w.log, id) == 0
  {
    hide Run, Invariant, FailuresFor, DeadFor, WaitingFailures;
    RunKeeps(rs);
    RunKeepsCover(rs);
    RetryCountIsDeadLetters(rs, w, id);
    forall k | 0 <= k < |w.queue|
      ensures w.queue[k].attempt >= 1
    {
      QueuedAttempt(w, k);
    }
    WaitingFailuresNonNegative(w.queue, id);
  }

  // One subscription, one event and one failed post, a step at a time.

  const SUBSCRIBE := Create("tpp", [PaymentSettled], "url")
  const NOTIFY := Queue(PaymentSettled, _ => 0)
  const FAIL := Take(0, 0, false, 10)
  const LISTENER := Subscription("tpp", [PaymentSettled], "url", Active, 0)
  const FIRST := Message(0, 0, "url", PaymentSettled, 1, 0)

  lemma AfterSubscribe()
    ensures Run(EMPTY, [SUBSCRIBE]) == World(map[0 := LISTENER], 1, [], [], 0, [])
  {
    EmptyRun();
    hide Run;
    RunOn([], EMPTY, SUBSCRIBE);
    assert [] + [SUBSCRIBE] == [SUBSCRIBE];
  }

  lemma AfterNotify()
    ensures Run(EMPTY, [SUBSCRIBE, NOTIFY]) == World(map[0 := LISTENER], 1, [FIRST], [], 1, [])
  {
    hide Run, Matching, FirstMessages;
    AfterSubscribe();
    var w := World(map[0 := LISTENER], 1, [], [], 0, []);
    RunOn([SUBSCRIBE], w, NOTIFY);
    assert [SUBSCRIBE] + [NOTIFY] == [SUBSCRIBE, NOTIFY];
    MatchingOne(w.subscriptions, PaymentSettled);
    MatchingExists(w.subscriptions, 1, PaymentSettled);
    assert FirstMessages(w.subscriptions, [0], PaymentSettled, _ => 0, 0) == [FIRST];
  }

  /** One failed post of one subscription leaves its retry count at 0. */
  lemma FailureNotCounted()
    ensures var w := Run(EMPTY, [SUBSCRIBE, NOTIFY, FAIL]);
            0 in w.subscriptions && w.subscriptions[0].retryCount == 0 && FailuresFor(w.log, 0) == 1
  {
    hide Run, Matching;
    AfterNotify();
    RunOn([SUBSCRIBE, NOTIFY], World(map[0 := LISTENER], 1, [FIRST], [], 1, []), FAIL);
    assert [SUBSCRIBE, NOTIFY] + [FAIL] == [SUBSCRIBE, NOTIFY, FAIL];
    OneFailedPost(Attempt(0, 0, 1, 0, 10, false));
  }

  lemma OneFailedPost(a: Attempt)
    requires !a.ok
    ensures FailuresFor([a], a.subscriptionId) == 1
  {
  }

  lemma EmptyRun()
    ensures Run(EMPTY, []) == EMPTY
  {
  }

  lemma RunOn(rs: seq<Request>, w: World, r: Request)
    requires Run(EMPTY, rs) == w
    ensures Run(EMPTY, rs + [r]) == Step(w, r)
  {
    hide Step;
    assert (rs + [r])[..|rs|] == rs;
  }

  lemma MatchingOne(subs: map<nat, Subscription>, event: EventType)
    ensures Matching(subs, 1, event) == if Listens(subs, 0, event) then [0] else []
  {
    assert Matching(subs, 0, event) == [];
  }

  // ----- What the service does -----

  /** One first attempt more, under the next identifier, for each active subscription that lists the event. */
  ghost predicate Notified(w: World, w': World, event: EventType, clock: nat -> int) {
    var n := |w.queue|;
    && w'.subscriptions == w.subscriptions && w'.created == w.created
    && w'.deadLetters == w.deadLetters && w'.log == w.log
    && w.queue <= w'.queue && w'.issued == w.issued + |w'.queue| - n
    && (forall k :: n <= k < |w'.queue| ==>
          && w'.queue[k].subscriptionId in w.subscriptions
          && w'.queue[k] == Message(w.issued + k - n, w'.queue[k].subscriptionId,
                                    w.subscriptions[w'.queue[k].subscriptionId].callbackUrl, event, 1, clock(k - n)))
    && (forall j, k :: n <= j < k < |w'.queue| ==> w'.queue[j].subscriptionId < w'.queue[k].subscriptionId)
    && forall id: nat :: Addressed(w'.queue, n, id) <==> id < w.created && Listens(w.subscriptions, id, event)
  }

  ghost predicate Addressed(queue: seq<Message>, n: nat, id: nat) {
    exists k :: n <= k < |queue| && queue[k].subscriptionId == id
  }

  lemma QueueNotifies(w: World, event: EventType, clock: nat -> int)
    ensures Notified(w, Step(w, Queue(event, clock)), event, clock)
  {
    hide Matching, Listens, Notified, Increasing;
    var ids := Matching(w.subscriptions, w.created, event);
    MatchingExists(w.subscriptions, w.created, event);
    MatchingIsListening(w.subscriptions, w.created, event);
    AddedNotifies(w, FirstMessages(w.subscriptions, ids, event, clock, w.issued), ids, event, clock);
    hide FirstMessages;
  }

  lemma AddedNotifies(w: World, added: seq<Message>, ids: seq<nat>, event: EventType, clock: nat -> int)
    requires |added| == |ids|
    requires forall k :: 0 <= k < |ids| ==>
               && ids[k] in w.subscriptions
               && added[k] == Message(w.issued + k, ids[k], w.subscriptions[ids[k]].callbackUrl, event, 1, clock(k))
    requires Increasing(ids)
    requires forall id: nat :: id in ids <==> id < w.created && Listens(w.subscriptions, id, event)
    ensures Notified(w, w.(queue := w.queue + added, issued := w.issued + |ids|), event, clock)
  {
    hide Listens, Addressed;
    AddressedAre(w.queue, added, ids);
    var n, all := |w.queue|, w.queue + added;
    forall k | n <= k < |all|
      ensures all[k] == added[k - n] && all[k].subscriptionId == ids[k - n]
    {
    }
    assert w.queue <= all;
  }

  lemma AddressedAre(queue: seq<Message>, added: seq<Message>, ids: seq<nat>)
    requires |added| == |ids| && forall k :: 0 <= k < |ids| ==> added[k].subscriptionId == ids[k]
    ensures forall id: nat :: Addressed(queue + added, |queue|, id) <==> id in ids
  {
    forall id: nat
      ensures Addressed(queue + added, |queue|, id) <==> id in ids
    {
      if id in ids {
        var k :| 0 <= k < |ids| && ids[k] == id;
        assert (queue + added)[|queue| + k].subscriptionId == id;
      }
      if Addressed(queue + added, |queue|, id) {
        var k :| |queue| <= k < |queue + added| && (queue + added)[k].subscriptionId == id;
        assert ids[k - |queue|] == id;
      }
    }
  }

  /** What becomes of the message taken: put back, delivered, queued again later, or dead and counted. */
  ghost predicate Settled(w: World, w': World, i: nat, now: int, ok: bool, endedAt: int)
    requires i < |w.queue|
  {
    var m, rest := w.queue[i], w.queue[..i] + w.queue[i + 1..];
    if m.scheduledAt > now then w' == w.(queue := rest + [m]) else
    var posted := w.(log := w.log + [Attempt(m.deliveryId, m.subscriptionId, m.attempt, now, endedAt, ok)]);
    if ok then w' == posted.(queue := rest)
    else if m.attempt == 3 then
      && w'.subscriptions.Keys == w.subscriptions.Keys
      && (forall id :: id in w.subscriptions ==>
            w'.subscriptions[id] == if id != m.subscriptionId then w.subscriptions[id]
                                    else w.subscriptions[id].(retryCount := w.subscriptions[id].retryCount + 1))
      && w' == posted.(queue := rest, deadLetters := w.deadLetters + [m], subscriptions := w'.subscriptions)
    else
      var due := endedAt + if m.attempt == 1 then 60_000 else 300_000;
      w' == posted.(queue := rest + [Message(m.deliveryId, m.subscriptionId, m.callbackUrl, m.eventType, m.attempt + 1, due)])
  }

  lemma TakeSettles(w: World, i: nat, now: int, ok: bool, endedAt: int)
    requires Invariant(w) && i < |w.queue|
    ensures Settled(w, Step(w, Take(i, now, ok, endedAt)), i, now, ok, endedAt)
  {
    QueuedAttempt(w, i);
    hide Invariant;
    var rest := w.queue[..i] + w.queue[i + 1..];
    assert rest + [] == rest && w.deadLetters + [] == w.deadLetters && w.log + [] == w.log;
  }

  // ----- The store and the service -----

  class WebhookSubscriptionStore {
    var subscriptions: map<nat, Subscription>
    var created: nat

    constructor ()
      ensures subscriptions == map[] && created == 0
    {
      subscriptions, created := map[], 0;
    }

    method CreateSubscription(clientId: string, eventTypes: seq<EventType>, callbackUrl: string) returns (id: nat)
      modifies this
      ensures id == old(created) && created == old(created) + 1
      ensures subscriptions == old(subscriptions)[id := Subscription(clientId, eventTypes, callbackUrl, Active, 0)]
    {
      id := created;
      subscriptions := subscriptions[id := Subscription(clientId, eventTypes, callbackUrl, Active, 0)];
      created := created + 1;
    }

    function FindById(id: nat): Option<Subscription>
      reads this
    {
      if id in subscriptions then Some(subscriptions[id]) else None
    }

    method SuspendSubscription(id: nat) returns (r: Option<Subscription>)
      modifies this
      ensures created == old(created) && r == FindById(id)
      ensures subscriptions.Keys == old(subscriptions).Keys
      ensures forall k :: k in subscriptions ==>
                subscriptions[k] == if k == id then old(subscriptions)[k].(status := Suspended) else old(subscriptions)[k]
    {
      if id in subscriptions {
        subscriptions := subscriptions[id := subscriptions[id].(status := Suspended)];
      }
      r := FindById(id);
    }

    method DeleteSubscription(id: nat) returns (found: bool)
      modifies this
      ensures created == old(created) && found == (id in old(subscriptions))
      ensures subscriptions == old(subscriptions) - {id}
    {
      found := id in subscriptions;
      subscriptions := subscriptions - {id};
    }

    method IncrementRetryCount(id: nat)
      modifies this
      ensures created == old(created) && subscriptions == CountFailure(old(subscriptions), id)
      ensures subscriptions.Keys == old(subscriptions).Keys
      ensures forall k :: k in subscriptions ==>
                subscriptions[k] == if k == id then old(subscriptions)[k].(retryCount := old(subscriptions)[k].retryCount + 1)
                                    else old(subscriptions)[k]
    {
      if id in subscriptions {
        subscriptions := subscriptions[id := subscriptions[id].(retryCount := subscriptions[id].retryCount + 1)];
      }
    }
  }

  class WebhookDeliveryService {
    const store: WebhookSubscriptionStore
    var queue: seq<Message>
    var deadLetters: seq<Message>
    var issued: nat
    ghost var log: seq<Attempt>

    ghost predicate Valid()
      reads this, store
    {
      Invariant(Snapshot())
    }

    ghost function Snapshot(): World
      reads this, store
    {
      World(store.subscriptions, store.created, queue, deadLetters, issued, log)
    }

    constructor (store: WebhookSubscriptionStore)
      requires store.subscriptions == map[] && store.created == 0
      ensures Valid() && Snapshot() == EMPTY && this.store == store
    {
      this.store := store;
      queue, deadLetters, issued, log := [], [], 0, [];
      new;
      EmptyOk();
    }

    method QueueDelivery(event: EventType, clock: nat -> int)
      requires Valid()
      modifies this
      ensures Valid() && Snapshot() == Step(old(Snapshot()), Queue(event, clock))
      ensures Notified(old(Snapshot()), Snapshot(), event, clock)
    {
      hide Invariant, Matching, FirstMessages, Notified;
      QueueNotifies(Snapshot(), event, clock);
      StepKeeps(Snapshot(), Queue(event, clock));
      var ids := Matching(store.subscriptions, store.created, event);
      MatchingExists(store.subscriptions, store.created, event);
      EmitFirst(ids, event, clock);
    }

    /** The loop over the subscriptions to notify. */
    method EmitFirst(ids: seq<nat>, event: EventType, clock: nat -> int)
      requires forall k :: 0 <= k < |ids| ==> ids[k] in store.subscriptions
      modifies this
      ensures queue == old(queue) + FirstMessages(store.subscriptions, ids, event, clock, old(issued))
      ensures issued == old(issued) + |ids| && deadLetters == old(deadLetters) && log == old(log)
    {
      ghost var added := FirstMessages(store.subscriptions, ids, event, clock, issued);
      hide FirstMessages;
      for k := 0 to |ids|
        invariant issued == old(issued) + k
        invariant queue == old(queue) + added[..k]
        invariant deadLetters == old(deadLetters) && log == old(log)
      {
        var message := Message(issued, ids[k], store.subscriptions[ids[k]].callbackUrl, event, 1, clock(k));
        assert added[..k + 1] == added[..k] + [message];
        queue := queue + [message];
        issued := issued + 1;
      }
      assert added[..|ids|] == added;
    }

    /** Takes the message at a position of the queue; `ok` is the outcome of the post, `endedAt` the time it ended. */
    method DeliverWebhook(i: nat, now: int, ok: bool, endedAt: int)
      requires Valid() && i < |queue|
      modifies this, store
      ensures Valid() && Snapshot() == Step(old(Snapshot()), Take(i, now, ok, endedAt))
      ensures Settled(old(Snapshot()), Snapshot(), i, now, ok, endedAt)
    {
      StepKeeps(Snapshot(), Take(i, now, ok, endedAt));
      TakeSettles(Snapshot(), i, now, ok, endedAt);
      hide Invariant, RetryDelay, Settled;
      var message := queue[i];
      ghost var o := Deliver(message, now, ok, endedAt);
      queue := queue[..i] + queue[i + 1..];
      if message.scheduledAt > now {
        queue := queue + [message];
        assert deadLetters == deadLetters + o.dead && log == log + o.attempts;
        return;
      }
      log := log + [Attempt(message.deliveryId, message.subscriptionId, message.attempt, now, endedAt, ok)];
      if !ok {
        if message.attempt < MAX_ATTEMPTS {
          queue := queue + [message.(attempt := message.attempt + 1, scheduledAt := endedAt + RetryDelay(message.attempt))];
          assert deadLetters == deadLetters + o.dead;
        } else {
          store.IncrementRetryCount(message.subscriptionId);
          deadLetters := deadLetters + [message];
          assert queue == queue + o.queued;
        }
      } else {
        assert deadLetters == deadLetters + o.dead && queue == queue + o.queued;
      }
    }
  }
}
