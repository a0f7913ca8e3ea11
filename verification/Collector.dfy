/**
 The batched garbage collection of both tables. Other sessions run before every batch, with clocks at
 or past the cutoff; the loops still end, because no statement can make a row collectable.
 */
module Collector {
  import opened Options
  import opened Submissions
  import opened Backoff
  import opened Outbox
  import opened Dispatch
  import opened Dispatcher

  const DEFAULT_BATCH: int := 500

  /** The first rows of an ORDER BY on the given times: `n` of them, or all. */
  ghost predicate Oldest<K>(ages: map<K, Time>, targets: set<K>, n: nat) {
    && targets <= ages.Keys
    && |targets| == (if n < |ages| then n else |ages|)
    && forall t, r :: t in targets && r in ages && r !in targets ==> ages[t] <= ages[r]
  }

  lemma {:induction false} OldestExists<K>(ages: map<K, Time>, pool: set<K>) returns (first: K)
    requires pool != {} && pool <= ages.Keys
    ensures first in pool && forall r :: r in pool ==> ages[first] <= ages[r]
    decreases |pool|
  {
    first :| first in pool;
    var rest := pool - {first};
    if rest != {} {
      var other := OldestExists(ages, rest);
      if ages[other] < ages[first] {
        first := other;
      }
      assert forall r :: r in pool ==> r in rest || r in pool - rest;
    } else {
      assert pool == {first};
    }
  }

  method SelectOldest<K(==)>(ages: map<K, Time>, n: nat) returns (targets: set<K>)
    ensures Oldest(ages, targets, n)
  {
    targets := {};
    var pool := ages.Keys;
    while |targets| < n && pool != {}
      invariant targets !! pool && targets + pool == ages.Keys && |targets| <= n
      invariant forall t, r :: t in targets && r in pool ==> ages[t] <= ages[r]
      decreases |pool|
    {
      ghost var first := OldestExists(ages, pool);
      var next :| next in pool && forall r :: r in pool ==> ages[next] <= ages[r];
      targets, pool := targets + {next}, pool - {next};
    }
    assert |targets + pool| == |targets| + |pool|;
    assert |ages.Keys| == |ages|;
  }

  /** How far a collection has come: what is left, what it removed, and what it counted. */
  ghost predicate Progress<K>(all: set<K>, left: set<K>, removed: set<K>, total: nat, quiet: bool) {
    && left <= all && removed <= all && total + |left| <= |all|
    && (quiet ==> left == all - removed && total == |removed|)
  }

  lemma BatchProgress<K>(
    all: set<K>, before: set<K>, left: set<K>, targets: set<K>, removed: set<K>, total: nat, quiet: bool)
    requires Progress(all, before, removed, total, quiet)
    requires targets <= left <= before && (quiet ==> left == before)
    ensures Progress(all, left - targets, removed + targets, total + |targets|, quiet)
    ensures |left - targets| + |targets| <= |before|
  {
    SubsetSize(left, before);
    assert left == targets + (left - targets);
    if quiet {
      assert targets !! removed;
    }
  }

  // ----- submissions -----

  function Collectables(d: Db, cutoff: Time): map<string, Time> {
    map job | job in d.rows && Collectable(d.rows[job], cutoff) :: d.rows[job].updatedAt
  }

  /** No clock reading before the cutoff. */
  predicate Late(ops: seq<Op>, cutoff: Time) {
    forall i :: 0 <= i < |ops| && !ops[i].DeleteDone? ==> ops[i].now >= cutoff
  }

  lemma StepCollectsNothingNew(d: Db, op: Op, cutoff: Time)
    requires !op.DeleteDone? ==> op.now >= cutoff
    ensures Collectables(Step(d, op).0, cutoff).Keys <= Collectables(d, cutoff).Keys
  {
  }

  /** With a cutoff in the past no statement makes a row collectable. */
  lemma {:induction false} NothingBecomesCollectable(d: Db, ops: seq<Op>, cutoff: Time)
    requires Late(ops, cutoff)
    ensures Collectables(Run(d, ops), cutoff).Keys <= Collectables(d, cutoff).Keys
    decreases |ops|
  {
    if ops != [] {
      hide Step, Collectables;
      NothingBecomesCollectable(d, ops[..|ops| - 1], cutoff);
      StepCollectsNothingNew(Run(d, ops[..|ops| - 1]), ops[|ops| - 1], cutoff);
    }
  }

  lemma DeletionShrinks(d: Db, targets: set<string>, cutoff: Time)
    requires targets <= Collectables(d, cutoff).Keys
    ensures var d' := Step(d, DeleteDone(targets, cutoff)).0;
      && d'.rows == d.rows - targets
      && Collectables(d', cutoff).Keys == Collectables(d, cutoff).Keys - targets
  {
  }

  /** What other sessions and then one DELETE of the oldest collectable rows make of the table. */
  ghost predicate RowsCollected(before: Db, after: Db, targets: set<string>, cutoff: Time, size: nat, others: seq<Op>) {
    var mid := Run(before, others);
    var left := Collectables(mid, cutoff);
    && Oldest(left, targets, size)
    && left.Keys <= Collectables(before, cutoff).Keys
    && after == Step(mid, DeleteDone(targets, cutoff)).0
    && Collectables(after, cutoff).Keys == left.Keys - targets
    && after.rows == mid.rows - targets
  }

  method SubmissionBatch(store: SubmissionStore, cutoff: Time, size: nat, others: seq<Op>)
    returns (targets: set<string>)
    requires Late(others, cutoff)
    modifies store
    ensures RowsCollected(old(store.State()), store.State(), targets, cutoff, size, others)
  {
    hide Run, Collectables, Step;
    NothingBecomesCollectable(store.State(), others, cutoff);
    store.Interfere(others);
    targets := SelectOldest(Collectables(Db(store.rows, store.nextId), cutoff), size);
    DeletionShrinks(store.State(), targets, cutoff);
    store.DeleteBatch(targets, cutoff);
  }

  /** One more round of the loop: what it keeps, and what it uses up. */
  lemma RowsRound(
    start: Db, trace: seq<Op>, steps: seq<Op>, after: Db, targets: set<string>, cutoff: Time, size: nat,
    removed: set<string>, total: nat, quiet: bool)
    requires var (all, before) := (Collectables(start, cutoff).Keys, Run(start, trace));
      && Progress(all, Collectables(before, cutoff).Keys, removed, total, quiet)
      && (quiet ==> steps == [] && before.rows == start.rows - removed)
      && RowsCollected(before, after, targets, cutoff, size, steps)
    ensures var (all, left) := (Collectables(start, cutoff).Keys, Collectables(after, cutoff).Keys);
      && after == Run(start, trace + steps + [DeleteDone(targets, cutoff)])
      && Progress(all, left, removed + targets, total + |targets|, quiet)
      && (quiet ==> after.rows == start.rows - (removed + targets))
      && (|targets| < size ==> left == {})
      && |left| + |targets| <= |Collectables(Run(start, trace), cutoff).Keys|
  {
    hide Step, Run, Collectables, Progress, Oldest;
    var before := Run(start, trace);
    var left := Collectables(Run(before, steps), cutoff);
    RunNone(before);
    OldestSize(left, targets, size);
    BatchProgress(Collectables(start, cutoff).Keys, Collectables(before, cutoff).Keys, left.Keys, targets, removed,
                  total, quiet);
    TraceGrows(start, trace, steps, DeleteDone(targets, cutoff));
    MinusMinus(start.rows, removed, targets);
  }

  /**
   Deletes batch after batch until one comes up short. Whatever else runs, nothing collectable is left;
   left alone, the loop removes exactly the rows that were collectable, and returns their number.
   */
  method DeleteOldDoneSubmissions(store: SubmissionStore, cutoff: Time, batch: int, others: seq<seq<Op>>)
    returns (total: nat, ghost trace: seq<Op>)
    requires forall i :: 0 <= i < |others| ==> Late(others[i], cutoff)
    modifies store
    ensures store.State() == Run(old(store.State()), trace)
    ensures Collectables(store.State(), cutoff) == map[]
    ensures total <= |Collectables(old(store.State()), cutoff)|
    ensures others == [] ==>
      && total == |Collectables(old(store.State()), cutoff)|
      && store.rows == old(store.rows) - Collectables(old(store.State()), cutoff).Keys
    ensures forall job :: job in store.rows && store.rows[job].state == "done" ==> store.rows[job].updatedAt >= cutoff
    ensures others == [] ==>
      forall job :: job in old(store.rows) ==>
        (job !in store.rows <==> old(store.rows)[job].state == "done" && old(store.rows)[job].updatedAt < cutoff)
  {
    hide Run, Collectables, Progress, RowsCollected;
    var size := if batch <= 0 then DEFAULT_BATCH else batch;
    ghost var start := store.State();
    ghost var all := Collectables(start, cutoff).Keys;
    ghost var removed: set<string> := {};
    ghost var quiet := others == [];
    total, trace := 0, [];
    RunNone(start);
    ProgressStart(all, quiet);
    MinusNothing(start.rows);
    var round, deleted := 0, size;
    while deleted >= size
      invariant store.State() == Run(start, trace)
      invariant Progress(all, Collectables(store.State(), cutoff).Keys, removed, total, quiet)
      invariant deleted < size ==> Collectables(store.State(), cutoff).Keys == {}
      invariant quiet ==> store.rows == start.rows - removed
      decreases |Collectables(store.State(), cutoff).Keys|, deleted
    {
      var steps := Nth(others, round);
      var targets := SubmissionBatch(store, cutoff, size, steps);
      RowsRound(start, trace, steps, store.State(), targets, cutoff, size, removed, total, quiet);
      trace := trace + steps + [DeleteDone(targets, cutoff)];
      removed, total := removed + targets, total + |targets|;
      round, deleted := round + 1, |targets|;
    }
    ProgressEnd(all, Collectables(store.State(), cutoff), removed, total, quiet);
    assert |all| == |Collectables(start, cutoff)|;
    CollectablesAre(start, cutoff);
    CollectablesAre(store.State(), cutoff);
  }

  lemma CollectablesAre(d: Db, cutoff: Time)
    ensures forall job :: job in Collectables(d, cutoff) <==>
              job in d.rows && d.rows[job].state == "done" && d.rows[job].updatedAt < cutoff
  {
  }

  /** What other sessions do before batch `k`; after the last entry they are quiet. */
  function Nth<T>(others: seq<seq<T>>, k: nat): seq<T> {
    if k < |others| then others[k] else []
  }

  lemma MinusMinus<K, V>(m: map<K, V>, a: set<K>, b: set<K>)
    ensures m - a - b == m - (a + b)
  {
  }

  lemma MinusNothing<K, V>(m: map<K, V>)
    ensures m - {} == m
  {
  }

  lemma TraceGrows(start: Db, trace: seq<Op>, steps: seq<Op>, op: Op)
    ensures Run(start, trace + steps + [op]) == Step(Run(Run(start, trace), steps), op).0
  {
    RunConcat(start, trace, steps);
    RunSnoc(start, trace + steps, op);
  }

  lemma SysTraceGrows(start: Sys, trace: seq<SysOp>, steps: seq<SysOp>, op: SysOp)
    ensures SysRun(start, trace + steps + [op]) == SysStep(SysRun(SysRun(start, trace), steps), op)
  {
    hide SysStep;
    SysRunConcat(start, trace, steps);
    SysRunSnoc(start, trace + steps, op);
  }

  lemma ProgressStart<K>(all: set<K>, quiet: bool)
    ensures Progress(all, all, {}, 0, quiet)
  {
  }

  lemma ProgressEnd<K>(all: set<K>, left: map<K, Time>, removed: set<K>, total: nat, quiet: bool)
    requires Progress(all, left.Keys, removed, total, quiet) && left.Keys == {}
    ensures left == map[] && total <= |all|
    ensures quiet ==> removed == all && total == |all|
  {
  }

  /** A batch that came up short took everything. */
  lemma OldestSize<K>(ages: map<K, Time>, targets: set<K>, n: nat)
    requires Oldest(ages, targets, n)
    ensures targets <= ages.Keys
    ensures |targets| < n ==> targets == ages.Keys && ages.Keys - targets == {}
  {
    assert ages.Keys == targets + (ages.Keys - targets);
    assert |ages.Keys| == |ages|;
  }

  // ----- outbox_events -----

  function CollectableEvents(events: Events, cutoff: Time): map<nat, Time> {
    map id | id in events && CollectableEvent(events[id], cutoff) :: events[id].updatedAt
  }

  predicate LateStep(op: SysOp, cutoff: Time) {
    op.CreateWithOutbox? || op.ClaimBatch? || op.MarkSent? || op.MarkFailed? ==> op.now >= cutoff
  }

  predicate LateSteps(ops: seq<SysOp>, cutoff: Time) {
    forall i :: 0 <= i < |ops| ==> LateStep(ops[i], cutoff)
  }

  lemma SysStepCollectsNothingNew(s: Sys, op: SysOp, cutoff: Time)
    requires LateStep(op, cutoff)
    ensures CollectableEvents(SysStep(s, op).events, cutoff).Keys <= CollectableEvents(s.events, cutoff).Keys
  {
    hide SysStep;
    forall id | id in CollectableEvents(SysStep(s, op).events, cutoff)
      ensures id in CollectableEvents(s.events, cutoff)
    {
      EventStepped(s, op, id);
    }
  }

  /** A step leaves an event as it is, or stamps it with its clock reading. */
  lemma EventStepped(s: Sys, op: SysOp, id: nat)
    requires id in SysStep(s, op).events
    ensures var e := SysStep(s, op).events[id];
      || (id in s.events && s.events[id] == e)
      || ((op.CreateWithOutbox? || op.ClaimBatch? || op.MarkSent? || op.MarkFailed?) && e.updatedAt == op.now)
  {
    hide Step, Bounds, Delay, ClaimEnabled, JobTaken, StoredStatus;
  }

  /** With a cutoff in the past no step of the system makes an event collectable. */
  lemma {:induction false} NoEventBecomesCollectable(s: Sys, ops: seq<SysOp>, cutoff: Time)
    requires LateSteps(ops, cutoff)
    ensures CollectableEvents(SysRun(s, ops).events, cutoff).Keys <= CollectableEvents(s.events, cutoff).Keys
    decreases |ops|
  {
    if |ops| > 0 {
      hide SysStep, CollectableEvents;
      NoEventBecomesCollectable(s, ops[..|ops| - 1], cutoff);
      SysStepCollectsNothingNew(SysRun(s, ops[..|ops| - 1]), ops[|ops| - 1], cutoff);
    }
  }

  lemma EventDeletionShrinks(s: Sys, targets: set<nat>, cutoff: Time)
    requires targets <= CollectableEvents(s.events, cutoff).Keys
    ensures var s' := SysStep(s, CollectEvents(targets, cutoff));
      && s'.events == s.events - targets
      && CollectableEvents(s'.events, cutoff).Keys == CollectableEvents(s.events, cutoff).Keys - targets
  {
  }

  ghost predicate EventsCollected(
    before: Sys, after: Sys, targets: set<nat>, cutoff: Time, size: nat, others: seq<SysOp>)
  {
    var mid := SysRun(before, others);
    var left := CollectableEvents(mid.events, cutoff);
    && Oldest(left, targets, size)
    && left.Keys <= CollectableEvents(before.events, cutoff).Keys
    && after == SysStep(mid, CollectEvents(targets, cutoff))
    && CollectableEvents(after.events, cutoff).Keys == left.Keys - targets
    && after.events == mid.events - targets
  }

  method EventBatch(platform: Platform, cutoff: Time, size: nat, others: seq<SysOp>)
    returns (targets: set<nat>)
    requires LateSteps(others, cutoff)
    modifies platform
    ensures EventsCollected(old(platform.state), platform.state, targets, cutoff, size, others)
  {
    hide SysRun, CollectableEvents, SysStep;
    NoEventBecomesCollectable(platform.state, others, cutoff);
    platform.Interfere(others);
    targets := SelectOldest(CollectableEvents(platform.state.events, cutoff), size);
    EventDeletionShrinks(platform.state, targets, cutoff);
    platform.Perform(CollectEvents(targets, cutoff));
  }

  lemma EventsRound(
    start: Sys, trace: seq<SysOp>, steps: seq<SysOp>, after: Sys, targets: set<nat>, cutoff: Time, size: nat,
    removed: set<nat>, total: nat, quiet: bool)
    requires var (all, before) := (CollectableEvents(start.events, cutoff).Keys, SysRun(start, trace));
      && Progress(all, CollectableEvents(before.events, cutoff).Keys, removed, total, quiet)
      && (quiet ==> |steps| == 0 && before.events == start.events - removed)
      && EventsCollected(before, after, targets, cutoff, size, steps)
    ensures var (all, left) := (CollectableEvents(start.events, cutoff).Keys, CollectableEvents(after.events, cutoff).Keys);
      && after == SysRun(start, trace + steps + [CollectEvents(targets, cutoff)])
      && Progress(all, left, removed + targets, total + |targets|, quiet)
      && (quiet ==> after.events == start.events - (removed + targets))
      && (|targets| < size ==> left == {})
      && |left| + |targets| <= |CollectableEvents(SysRun(start, trace).events, cutoff).Keys|
  {
    hide SysStep, SysRun, CollectableEvents, Progress, Oldest;
    var before := SysRun(start, trace);
    var left := CollectableEvents(SysRun(before, steps).events, cutoff);
    if quiet {
      NoLines(before, steps);
    }
    OldestSize(left, targets, size);
    BatchProgress(CollectableEvents(start.events, cutoff).Keys, CollectableEvents(before.events, cutoff).Keys, left.Keys,
                  targets, removed, total, quiet);
    SysTraceGrows(start, trace, steps, CollectEvents(targets, cutoff));
    MinusMinus(start.events, removed, targets);
  }

  /** The same loop over delivered outbox events, inside the whole system. */
  method DeleteOldOutboxEvents(platform: Platform, cutoff: Time, batch: int, others: seq<seq<SysOp>>)
    returns (total: nat, ghost trace: seq<SysOp>)
    requires forall i :: 0 <= i < |others| ==> LateSteps(others[i], cutoff)
    modifies platform
    ensures platform.state == SysRun(old(platform.state), trace)
    ensures CollectableEvents(platform.state.events, cutoff) == map[]
    ensures total <= |CollectableEvents(old(platform.state.events), cutoff)|
    ensures |others| == 0 ==>
      && total == |CollectableEvents(old(platform.state.events), cutoff)|
      && platform.state.events
         == old(platform.state.events) - CollectableEvents(old(platform.state.events), cutoff).Keys
    ensures forall id :: id in platform.state.events && platform.state.events[id].status == "delivered" ==>
              platform.state.events[id].updatedAt >= cutoff
    ensures |others| == 0 ==>
      forall id :: id in old(platform.state.events) ==>
        (id !in platform.state.events <==>
           old(platform.state.events)[id].status == "delivered" && old(platform.state.events)[id].updatedAt < cutoff)
  {
    hide SysStep, SysRun, CollectableEvents, Progress, EventsCollected;
    var size := if batch <= 0 then DEFAULT_BATCH else batch;
    ghost var start := platform.state;
    ghost var all := CollectableEvents(start.events, cutoff).Keys;
    ghost var removed: set<nat> := {};
    ghost var quiet := |others| == 0;
    total, trace := 0, [];
    SysRunNone(start);
    ProgressStart(all, quiet);
    MinusNothing(start.events);
    var round, deleted := 0, size;
    while deleted >= size
      invariant platform.state == SysRun(start, trace)
      invariant Progress(all, CollectableEvents(platform.state.events, cutoff).Keys, removed, total, quiet)
      invariant deleted < size ==> CollectableEvents(platform.state.events, cutoff).Keys == {}
      invariant quiet ==> platform.state.events == start.events - removed
      decreases |CollectableEvents(platform.state.events, cutoff).Keys|, deleted
    {
      var steps := Nth(others, round);
      var targets := EventBatch(platform, cutoff, size, steps);
      EventsRound(start, trace, steps, platform.state, targets, cutoff, size, removed, total, quiet);
      trace := trace + steps + [CollectEvents(targets, cutoff)];
      removed, total := removed + targets, total + |targets|;
      round, deleted := round + 1, |targets|;
    }
    ProgressEnd(all, CollectableEvents(platform.state.events, cutoff), removed, total, quiet);
    assert |all| == |CollectableEvents(start.events, cutoff)|;
    CollectableEventsAre(start.events, cutoff);
    CollectableEventsAre(platform.state.events, cutoff);
  }

  lemma CollectableEventsAre(events: Events, cutoff: Time)
    ensures forall id :: id in CollectableEvents(events, cutoff) <==>
              id in events && events[id].status == "delivered" && events[id].updatedAt < cutoff
  {
  }

  lemma NoLines(s: Sys, ops: seq<SysOp>)
    requires |ops| == 0
    ensures SysRun(s, ops) == s
  {
  }

  lemma RunNone(d: Db)
    ensures Run(d, []) == d
  {
  }

  lemma SubsetSize<K>(a: set<K>, b: set<K>)
    requires a <= b
    ensures |a| <= |b|
  {
    assert b == a + (b - a);
  }
}
