/** The delay between two claims of one outbox event. */
module Backoff {
  const DEFAULT_LIMIT: int := 32
  const DEFAULT_BASE_MS: int := 500
  const DEFAULT_MAX_MS: int := 30_000

  /** The bounds of `ClaimPendingOutboxEvents`, in milliseconds, from durations in nanoseconds. */
  function Bounds(baseNs: int, maxNs: int): (r: (int, int))
    ensures 1 <= r.0 <= r.1
    ensures baseNs < 1_000_000 ==> r.0 == 500
    ensures baseNs >= 1_000_000 ==> r.0 * 1_000_000 <= baseNs < (r.0 + 1) * 1_000_000
    ensures r.0 < r.1 && maxNs < 1_000_000 ==> r.1 == 30_000
    ensures r.0 < r.1 && maxNs >= 1_000_000 ==> r.1 * 1_000_000 <= maxNs < (r.1 + 1) * 1_000_000
    ensures r.0 == r.1 ==> (if maxNs < 1_000_000 then 30_000 else maxNs / 1_000_000) <= r.0
  {
    var base := if baseNs / 1_000_000 <= 0 then DEFAULT_BASE_MS else baseNs / 1_000_000;
    var top := if maxNs / 1_000_000 <= 0 then DEFAULT_MAX_MS else maxNs / 1_000_000;
    (base, if top < base then base else top)
  }

  /** The retry bounds the dispatcher's constructor derives from its settings, in milliseconds. */
  method DispatcherBounds(baseSetting: int, maxSetting: int) returns (baseMs: int, maxMs: int)
    ensures Bounds(baseMs * 1_000_000, maxMs * 1_000_000) == (baseMs, maxMs)
    ensures baseSetting > 0 ==> baseMs == baseSetting
    ensures 0 < maxSetting && baseMs <= maxSetting ==> maxMs == maxSetting
  {
    baseMs := baseSetting;
    if baseMs <= 0 {
      baseMs := DEFAULT_BASE_MS;
    }
    maxMs := maxSetting;
    if maxMs <= 0 {
      maxMs := DEFAULT_MAX_MS;
    }
    if maxMs < baseMs {
      maxMs := baseMs;
    }
  }

  function Pow2(n: nat): (r: nat)
    ensures r >= 1
  {
    if n == 0 then 1 else 2 * Pow2(n - 1)
  }

  /** Doubling from the base, thirty times at most, and never above the cap. */
  function Nominal(base: int, top: int, attempts: nat): int {
    var grown := base * Pow2(if attempts < 30 then attempts else 30);
    if grown < top then grown else top
  }

  lemma PowersOfTwo(n: nat)
    ensures Pow2(0) == 1 && Pow2(n + 1) == 2 * Pow2(n)
  {
  }

  /** The nominal delay starts at the base and doubles with every attempt up to the cap, thirty times at most. */
  lemma NominalDoubles(base: int, top: int, k: nat)
    requires 1 <= base <= top
    ensures Nominal(base, top, 0) == base
    ensures k < 30 ==>
      Nominal(base, top, k + 1) == if 2 * Nominal(base, top, k) < top then 2 * Nominal(base, top, k) else top
    ensures k >= 30 ==> Nominal(base, top, k) == Nominal(base, top, 30)
  {
    hide Pow2;
    var p := Pow2(k);
    PowersOfTwo(k);
    assert base * (2 * p) == 2 * (base * p);
  }

  /** Below the cap that is the base times a power of two. */
  lemma {:induction false} NominalIsPower(base: int, top: int, k: nat)
    requires 1 <= base && base * Pow2(k) <= top && k <= 30
    ensures base <= top && Nominal(base, top, k) == base * Pow2(k)
  {
    hide Pow2;
    AtLeastBase(base, Pow2(k));
  }

  /** Postgres rounds a double to an integer half to even. */
  function RoundHalfEven(x: real): int {
    var f := x.Floor;
    var rest := x - f as real;
    if rest < 0.5 || (rest == 0.5 && f % 2 == 0) then f else f + 1
  }

  /** Ten per cent of jitter either way, at least one and at most the cap. */
  function Jittered(nominal: int, top: int, random: real): real {
    var jittered := nominal as real * (0.9 + random * 0.2);
    var atLeastOne := if jittered < 1.0 then 1.0 else jittered;
    if top as real < atLeastOne then top as real else atLeastOne
  }

  /** The delay in milliseconds, for a random number in [0, 1). */
  function Delay(base: int, top: int, attempts: nat, random: real): int {
    RoundHalfEven(Jittered(Nominal(base, top, attempts), top, random))
  }

  /** The shortest delay that jitter can leave. */
  function LeastDelay(base: int, top: int, attempts: nat): int {
    Least(Nominal(base, top, attempts))
  }

  function Least(nominal: int): int {
    if nominal * 9 / 10 < 1 then 1 else nominal * 9 / 10
  }

  /** The nearest integer, and of two equally near ones the even one. */
  lemma RoundIsNearest(x: real)
    ensures -0.5 <= RoundHalfEven(x) as real - x <= 0.5
    ensures RoundHalfEven(x) as real - x == 0.5 || x - RoundHalfEven(x) as real == 0.5 ==> RoundHalfEven(x) % 2 == 0
  {
  }

  lemma RoundIsMonotoneAtIntegers(x: real, n: int)
    ensures n as real <= x ==> n <= RoundHalfEven(x)
    ensures x <= n as real ==> RoundHalfEven(x) <= n
  {
  }

  lemma DelayBounds(base: int, top: int, attempts: nat, random: real)
    requires 1 <= base <= top && 0.0 <= random < 1.0
    ensures LeastDelay(base, top, attempts) <= Delay(base, top, attempts, random) <= top
  {
    hide RoundHalfEven, Nominal, Jittered, Least;
    var nominal := Nominal(base, top, attempts);
    NominalBounds(base, top, attempts);
    JitterBounds(nominal, top, random);
    RoundIsMonotoneAtIntegers(Jittered(nominal, top, random), Least(nominal));
    RoundIsMonotoneAtIntegers(Jittered(nominal, top, random), top);
  }

  /** From above: at most eleven tenths of the nominal delay, rounded up, and at least one. */
  lemma DelayIsNear(base: int, top: int, attempts: nat, random: real)
    requires 1 <= base <= top && 0.0 <= random < 1.0
    ensures Delay(base, top, attempts, random) <= (11 * Nominal(base, top, attempts) + 9) / 10
  {
    hide RoundHalfEven, Nominal;
    var nominal := Nominal(base, top, attempts);
    NominalBounds(base, top, attempts);
    JitterCeiling(nominal, random);
    RoundIsMonotoneAtIntegers(Jittered(nominal, top, random), (11 * nominal + 9) / 10);
  }

  lemma JitterCeiling(n: int, random: real)
    requires n >= 1 && random < 1.0
    ensures n as real * (0.9 + random * 0.2) <= ((11 * n + 9) / 10) as real && 1 <= (11 * n + 9) / 10
  {
    var m, slack := n as real, 0.2 - random * 0.2;
    assert m * (0.9 + random * 0.2) == m * (1.1 - slack) == m * 1.1 - m * slack;
    assert m * slack >= 0.0;
    RoundedUp(11 * n);
    assert 10.0 * (m * 1.1) == (11 * n) as real;
  }

  lemma RoundedUp(x: int)
    ensures x as real <= 10.0 * ((x + 9) / 10) as real
  {
    assert x <= 10 * ((x + 9) / 10);
  }

  lemma JitterBounds(nominal: int, top: int, random: real)
    requires 1 <= nominal <= top && 0.0 <= random
    ensures Least(nominal) as real <= Jittered(nominal, top, random) <= top as real
  {
    JitterFloor(nominal, random);
  }

  lemma NominalBounds(base: int, top: int, attempts: nat)
    requires 1 <= base <= top
    ensures 1 <= Nominal(base, top, attempts) <= top
  {
    hide Pow2;
    AtLeastBase(base, Pow2(if attempts < 30 then attempts else 30));
  }

  lemma AtLeastBase(base: int, p: int)
    requires base >= 1 && p >= 1
    ensures base * p >= base
  {
    assert base * p == base * (p - 1) + base && base * (p - 1) >= 0;
  }

  lemma JitterFloor(n: int, random: real)
    requires n >= 0 && 0.0 <= random
    ensures (n * 9 / 10) as real <= n as real * (0.9 + random * 0.2)
  {
    assert n as real * (0.9 + random * 0.2) == n as real * 0.9 + n as real * (random * 0.2);
    assert n as real * (random * 0.2) >= 0.0;
  }

  /** The least time, in milliseconds, that `n` delays in a row take from the first claim on. */
  function LeastWait(base: int, top: int, n: nat): int {
    if n == 0 then 0 else LeastWait(base, top, n - 1) + LeastDelay(base, top, n - 1)
  }

  /** Until the cap is reached they add up to nine tenths of a geometric sum, up to a millisecond for each. */
  lemma {:induction false} LeastWaitDoubles(base: int, top: int, n: nat)
    requires 1 <= base <= top && n <= 30 && (n > 0 ==> base * Pow2(n - 1) <= top)
    ensures 10 * LeastWait(base, top, n) >= 9 * (base * (Pow2(n) - 1)) - 9 * n
  {
    hide Nominal, Pow2, Least;
    PowersOfTwo(n);
    if n > 0 {
      var p := Pow2(n - 1);
      PowersOfTwo(n - 1);
      if n > 1 {
        PowersOfTwo(n - 2);
        HalfFits(base, Pow2(n - 2), top);
      }
      LeastWaitDoubles(base, top, n - 1);
      NominalIsPower(base, top, n - 1);
      GeometricStep(base, p);
      LeastIsNear(base * p);
    }
  }

  lemma HalfFits(base: int, half: int, top: int)
    requires 1 <= base && half >= 1 && base * (2 * half) <= top
    ensures base * half <= top
  {
    assert base * (2 * half) == base * half + base * half;
    assert base * half >= 0;
  }

  lemma GeometricStep(base: int, p: int)
    ensures base * (2 * p - 1) == base * (p - 1) + base * p
  {
  }

  lemma LeastIsNear(nominal: int)
    ensures 10 * Least(nominal) >= 9 * nominal - 9
  {
  }
}

/**
 The `outbox_events` table and its statements, each one atomic step; `OutboxStore` issues them on a
 table it updates in place.
 */
module Outbox {
  import opened Options
  import opened GoStrings
  import opened Submissions
  import opened Backoff

  const MILLISECOND: int := 1_000

  datatype Event = Event(
    job: string,
    status: string,
    attempts: nat,
    nextAttemptAt: Time,
    lastError: Option<string>,
    dispatchedAt: Option<Time>,
    streamEntry: Option<string>,
    createdAt: Time,
    updatedAt: Time)

  /** Events by id. */
  type Events = map<nat, Event>

  /** The status an event is stored under: blank means pending. */
  function StoredStatus(status: string): string {
    if TrimSpace(status) == "" then "pending" else TrimSpace(status)
  }

  function NewEvent(job: string, status: string, now: Time): Event {
    Event(job, StoredStatus(status), 0, now, None, None, None, now, now)
  }

  /** Undelivered and pending: some later claim can take it. */
  predicate Claimable(e: Event) {
    e.status == "pending" && e.dispatchedAt.None?
  }

  predicate Due(e: Event, now: Time) {
    Claimable(e) && e.nextAttemptAt <= now
  }

  /** The ORDER BY of a claim. */
  predicate Before(events: Events, i: nat, j: nat)
    requires i in events && j in events
  {
    events[i].nextAttemptAt < events[j].nextAttemptAt ||
    (events[i].nextAttemptAt == events[j].nextAttemptAt && i < j)
  }

  lemma BeforeIs(events: Events)
    ensures forall i, j :: i in events && j in events && Before(events, i, j) ==>
              || events[i].nextAttemptAt < events[j].nextAttemptAt
              || (events[i].nextAttemptAt == events[j].nextAttemptAt && i < j)
  {
  }

  /** What a claim may pick: the first due events not locked by another session, `limit` at most. */
  predicate IsPick(events: Events, picks: seq<nat>, locked: set<nat>, limit: int, now: Time) {
    && |picks| <= limit
    && (forall k :: 0 <= k < |picks| ==> picks[k] in events && picks[k] !in locked && Due(events[picks[k]], now))
    && (forall k, m :: 0 <= k < m < |picks| ==> Before(events, picks[k], picks[m]))
    && (forall i :: i in events && i !in locked && Due(events[i], now) && i !in picks ==>
          |picks| == limit && forall k :: 0 <= k < |picks| ==> Before(events, picks[k], i))
  }

  function ClaimedEvent(e: Event, base: int, top: int, random: real, now: Time): Event {
    e.(attempts := e.attempts + 1,
       nextAttemptAt := now + Delay(base, top, e.attempts, random) * MILLISECOND,
       updatedAt := now)
  }

  function ClaimedEvents(events: Events, picks: seq<nat>, base: int, top: int, random: nat -> real, now: Time)
    : Events
  {
    map id | id in events ::
      if id in picks then ClaimedEvent(events[id], base, top, random(id), now) else events[id]
  }

  lemma ClaimedAre(events: Events, picks: seq<nat>, base: int, top: int, random: nat -> real, now: Time)
    ensures var r := ClaimedEvents(events, picks, base, top, random, now);
      && r.Keys == events.Keys && (forall id :: id in events && id !in picks ==> r[id] == events[id])
      && (forall id :: id in events && id in picks ==>
            && r[id].attempts == events[id].attempts + 1
            && r[id].nextAttemptAt == now + 1_000 * Delay(base, top, events[id].attempts, random(id))
            && r[id].status == events[id].status && r[id].job == events[id].job
            && r[id].dispatchedAt == events[id].dispatchedAt)
    ensures forall id :: id in events && id in picks ==>
              var r := ClaimedEvents(events, picks, base, top, random, now);
              && r[id].lastError == events[id].lastError && r[id].streamEntry == events[id].streamEntry
              && r[id].createdAt == events[id].createdAt && r[id].updatedAt == now
    ensures forall e: Event :: Due(e, now) <==> e.status == "pending" && e.dispatchedAt == None && e.nextAttemptAt <= now
  {
    hide Delay;
  }

  function Dispatched(events: Events, id: nat, entry: string, now: Time): Events {
    if id in events then
      events[id := events[id].(status := "delivered", lastError := None, dispatchedAt := Some(now),
                               streamEntry := Some(entry), updatedAt := now)]
    else events
  }

  function DispatchFailed(events: Events, id: nat, error: string, now: Time): Events {
    if id in events && events[id].dispatchedAt.None? then
      events[id := events[id].(status := "pending", lastError := Some(error), updatedAt := now)]
    else events
  }

  predicate CollectableEvent(e: Event, cutoff: Time) {
    e.status == "delivered" && e.updatedAt < cutoff
  }

  function DeletedEvents(events: Events, targets: set<nat>, cutoff: Time): Events {
    map id | id in events && !(id in targets && CollectableEvent(events[id], cutoff)) :: events[id]
  }

  predicate JobTaken(events: Events, job: string) {
    exists id :: id in events && events[id].job == job
  }

  /** Some due, unlocked, unpicked event comes first in the claim order. */
  lemma {:induction false} FirstExists(events: Events, pool: set<nat>) returns (first: nat)
    requires pool != {} && pool <= events.Keys
    ensures first in pool
    ensures forall i :: i in pool && i != first ==> Before(events, first, i)
    decreases |pool|
  {
    first :| first in pool;
    var rest := pool - {first};
    if rest == {} {
      assert pool == {first};
    } else {
      var other := FirstExists(events, rest);
      var chosen := if Before(events, other, first) then other else first;
      forall i | i in pool && i != chosen
        ensures Before(events, chosen, i)
      {
        assert i == first || i in rest;
        assert i in rest && i != other ==> Before(events, other, i);
      }
      first := chosen;
    }
  }

  class OutboxStore {
    var events: Events
    var nextId: nat

    constructor ()
      ensures events == map[] && nextId == 0
    {
      events, nextId := map[], 0;
    }

    /** ORDER BY and LIMIT over the rows the WHERE clause leaves. */
    method PickInOrder(table: Events, all: set<nat>, top: int) returns (picks: seq<nat>)
      requires all <= table.Keys && top >= 0
      ensures |picks| <= top && forall k :: 0 <= k < |picks| ==> picks[k] in all
      ensures forall k, m :: 0 <= k < m < |picks| ==> Before(table, picks[k], picks[m])
      ensures forall i :: i in all && i !in picks ==>
        |picks| == top && forall k :: 0 <= k < |picks| ==> Before(table, picks[k], i)
    {
      hide Before;
      var pool := all;
      picks := [];
      while |picks| < top && pool != {}
        invariant |picks| <= top && pool <= all
        invariant forall i :: i in all ==> i in pool || i in picks
        invariant forall k :: 0 <= k < |picks| ==> picks[k] in all
        invariant forall k, m :: 0 <= k < m < |picks| ==> Before(table, picks[k], picks[m])
        invariant forall k, i :: 0 <= k < |picks| && i in pool ==> Before(table, picks[k], i)
        decreases |pool|
      {
        ghost var first := FirstExists(table, pool);
        var next :| next in pool && forall i :: i in pool && i != next ==> Before(table, next, i);
        pool := pool - {next};
        picks := picks + [next];
      }
    }

    /** Claims due events, oldest deadline first, and pushes each one's next attempt into the future. */
    method ClaimPendingOutboxEvents(
      limit: int, baseNs: int, maxNs: int, locked: set<nat>, random: nat -> real, now: Time)
      returns (picks: seq<nat>)
      modifies this`events
      ensures IsPick(old(events), picks, locked, if limit <= 0 then DEFAULT_LIMIT else limit, now)
      ensures events == ClaimedEvents(old(events), picks, Bounds(baseNs, maxNs).0, Bounds(baseNs, maxNs).1, random, now)
      ensures forall k :: 0 <= k < |picks| ==>
        && picks[k] in old(events) && picks[k] !in locked && old(events)[picks[k]].status == "pending"
        && old(events)[picks[k]].dispatchedAt == None && old(events)[picks[k]].nextAttemptAt <= now
      ensures |picks| <= if limit <= 0 then 32 else limit
      ensures forall k, m :: 0 <= k < m < |picks| ==>
        || old(events)[picks[k]].nextAttemptAt < old(events)[picks[m]].nextAttemptAt
        || (old(events)[picks[k]].nextAttemptAt == old(events)[picks[m]].nextAttemptAt && picks[k] < picks[m])
      ensures forall i ::
        (&& i in old(events) && i !in locked && i !in picks && old(events)[i].status == "pending"
         && old(events)[i].dispatchedAt == None && old(events)[i].nextAttemptAt <= now) ==>
          (&& |picks| == (if limit <= 0 then 32 else limit)
           && forall k :: 0 <= k < |picks| ==> old(events)[picks[k]].nextAttemptAt <= old(events)[i].nextAttemptAt)
      ensures events.Keys == old(events).Keys && forall id :: id in events && id !in picks ==> events[id] == old(events)[id]
      ensures forall id :: id in events && id in picks ==>
        && events[id].attempts == old(events)[id].attempts + 1
        && events[id].nextAttemptAt ==
           now + 1_000 * Delay(Bounds(baseNs, maxNs).0, Bounds(baseNs, maxNs).1, old(events)[id].attempts, random(id))
        && events[id].status == old(events)[id].status && events[id].job == old(events)[id].job
        && events[id].dispatchedAt == old(events)[id].dispatchedAt && events[id].updatedAt == now
    {
      hide Due, Before, Bounds, ClaimedEvents;
      var top, table := if limit <= 0 then DEFAULT_LIMIT else limit, events;
      var pool := set id | id in table && id !in locked && Due(table[id], now);
      picks := PickInOrder(table, pool, top);
      assert forall i :: i in table && i !in locked && Due(table[i], now) ==> i in pool;
      var bounds := Bounds(baseNs, maxNs);
      events := ClaimedEvents(table, picks, bounds.0, bounds.1, random, now);
      ClaimedAre(table, picks, bounds.0, bounds.1, random, now);
      BeforeIs(table);
    }

    /** Sets the delivered columns whatever the row's state. */
    method MarkOutboxDispatched(id: nat, entry: string, now: Time)
      modifies this`events
      ensures events == Dispatched(old(events), id, entry, now)
      ensures if id !in old(events) then events == old(events)
              else
                && events == old(events)[id := events[id]] && events[id].status == "delivered"
                && events[id].dispatchedAt == Some(now) && events[id].streamEntry == Some(entry)
                && events[id].lastError == None && events[id].job == old(events)[id].job
                && events[id].attempts == old(events)[id].attempts
    {
      if id in events {
        events := events[id := events[id].(
          status := "delivered", lastError := None, dispatchedAt := Some(now),
          streamEntry := Some(entry), updatedAt := now)];
      }
    }

    /** Touches only rows that were never dispatched. */
    method MarkOutboxDispatchError(id: nat, error: string, now: Time)
      modifies this`events
      ensures events == DispatchFailed(old(events), id, error, now)
      ensures if id !in old(events) || old(events)[id].dispatchedAt.Some? then events == old(events)
              else
                && events == old(events)[id := events[id]] && events[id].status == "pending"
                && events[id].lastError == Some(error) && events[id].job == old(events)[id].job
                && events[id].attempts == old(events)[id].attempts && events[id].dispatchedAt == None
                && events[id].nextAttemptAt == old(events)[id].nextAttemptAt
    {
      if id in events && events[id].dispatchedAt == None {
        events := events[id := events[id].(status := "pending", lastError := Some(error), updatedAt := now)];
      }
    }

    /** Both INSERTs commit together; a taken job id in either table rolls both back. */
    method CreateSubmissionAndOutbox(
      store: SubmissionStore, job: string, status: string, state: string,
      eventJob: string, eventStatus: string, now: Time)
      returns (ok: bool)
      modifies this, store
      ensures ok <==> old(job !in store.rows && !JobTaken(events, eventJob))
      ensures ok ==>
        && store.State() == Step(old(store.State()), Create(job, status, state, now)).0
        && events == old(events)[old(nextId) := NewEvent(eventJob, eventStatus, now)]
        && job in store.rows && store.rows[job].status == status && store.rows[job].state == state
        && events[old(nextId)].job == eventJob && events[old(nextId)].attempts == 0
        && events[old(nextId)].nextAttemptAt == now && events[old(nextId)].dispatchedAt == None
        && events[old(nextId)].status == (if TrimSpace(eventStatus) == "" then "pending" else TrimSpace(eventStatus))
        && nextId == old(nextId) + 1
      ensures !ok ==> store.State() == old(store.State()) && events == old(events) && nextId == old(nextId)
    {
      ok := job !in store.rows && forall id | id in events :: events[id].job != eventJob;
      if ok {
        var created := store.CreateSubmission(job, status, state, now);
        events := events[nextId := Event(eventJob, StoredStatus(eventStatus), 0, now, None, None, None, now, now)];
        nextId := nextId + 1;
      }
    }
  }
}
