/**
 The whole enqueue path as a transition system: submission statements, the transactional outbox, any
 number of dispatchers that may stop between any two lines, the repair loop and the garbage collector.
 The stream is kept as the multiset of entries ever added, and commits are kept on record: both only grow.
 */
module Dispatch {
  import opened Options
  import opened GoStrings
  import opened Submissions
  import opened Backoff
  import opened Outbox

  /** Where a dispatcher stands with the first event of its batch. */
  datatype Pc =
    | Start
    | PayloadSet
    | AddFailed
    | Failing
    | Sent(entry: string)

  datatype Worker = Worker(batch: seq<(nat, string)>, pc: Pc)

  /** An XADD that reached the stream; the repair loop's entries name no event. */
  datatype StreamEntry = StreamEntry(job: string, event: Option<nat>)

  datatype Commit = Commit(job: string, status: string)

  datatype Sys = Sys(
    db: Db,
    events: Events,
    nextEvent: nat,
    workers: map<nat, Worker>,
    payloads: set<string>,
    stream: multiset<StreamEntry>,
    committed: map<nat, Commit>)

  const INITIAL := Sys(EMPTY, map[], 0, map[], {}, multiset{}, map[])

  /** An XADD may append and answer, append and lose the answer, or do nothing and fail. */
  datatype AddResult = Added(entry: string) | AddedUnseen | NotAdded

  datatype SysOp =
    | Statement(op: Op)
    | CreateWithOutbox(job: string, status: string, state: string, eventJob: string, eventStatus: string, now: Time)
    | ClaimBatch(worker: nat, picks: seq<nat>, locked: set<nat>, limit: int,
                 baseNs: int, maxNs: int, random: nat -> real, now: Time)
    | EncodeFails(worker: nat)
    | SetPayload(worker: nat, ok: bool)
    | AddToStream(worker: nat, result: AddResult)
    | DropPayload(worker: nat, ok: bool)
    | MarkSent(worker: nat, ok: bool, now: Time)
    | MarkFailed(worker: nat, ok: bool, error: string, now: Time)
    | Crash(worker: nat)
    | RepairSend(sentJob: string, setOk: bool, result: AddResult)
    | CollectEvents(targets: set<nat>, cutoff: Time)

  predicate At(s: Sys, worker: nat, pc: Pc) {
    worker in s.workers && s.workers[worker].batch != [] && s.workers[worker].pc == pc
  }

  /** The id and the job of the event a dispatcher is busy with. */
  function Current(s: Sys, worker: nat): (nat, string)
    requires worker in s.workers && s.workers[worker].batch != []
  {
    s.workers[worker].batch[0]
  }

  function Goto(s: Sys, worker: nat, pc: Pc): Sys
    requires worker in s.workers
  {
    s.(workers := s.workers[worker := s.workers[worker].(pc := pc)])
  }

  /** The loop of `DispatchOnce` moves on, or ends. */
  function NextEvent(s: Sys, worker: nat): Sys
    requires worker in s.workers && s.workers[worker].batch != []
  {
    var rest := s.workers[worker].batch[1..];
    if rest == [] then s.(workers := s.workers - {worker})
    else s.(workers := s.workers[worker := Worker(rest, Start)])
  }

  function Taken(events: Events, picks: seq<nat>): (r: seq<(nat, string)>)
    requires forall k :: 0 <= k < |picks| ==> picks[k] in events
    ensures |r| == |picks|
    ensures forall k :: 0 <= k < |picks| ==> r[k] == (picks[k], events[picks[k]].job)
  {
    seq(|picks|, k requires 0 <= k < |picks| => (picks[k], events[picks[k]].job))
  }

  /** The claim is one the SQL could make. */
  predicate ClaimEnabled(s: Sys, op: SysOp)
    requires op.ClaimBatch?
  {
    && op.worker !in s.workers
    && IsPick(s.events, op.picks, op.locked, if op.limit <= 0 then DEFAULT_LIMIT else op.limit, op.now)
    && forall i :: i in op.picks ==> 0.0 <= op.random(i) < 1.0
  }

  function Claimed(s: Sys, op: SysOp): Sys
    requires op.ClaimBatch? && ClaimEnabled(s, op)
  {
    var (base, top) := Bounds(op.baseNs, op.maxNs);
    s.(events := ClaimedEvents(s.events, op.picks, base, top, op.random, op.now),
       workers := if op.picks == [] then s.workers
                  else s.workers[op.worker := Worker(Taken(s.events, op.picks), Start)])
  }

  function WithEntry(s: Sys, job: string, event: Option<nat>, result: AddResult): Sys {
    if result.NotAdded? then s else s.(stream := s.stream + multiset{StreamEntry(job, event)})
  }

  /** One atomic step. A step that its actor cannot take changes nothing. */
  function SysStep(s: Sys, op: SysOp): Sys {
    match op
    case Statement(stmt) =>
      s.(db := Step(s.db, stmt).0)
    case CreateWithOutbox(job, status, state, eventJob, eventStatus, now) =>
      if job in s.db.rows || JobTaken(s.events, eventJob) then s
      else
        s.(db := Step(s.db, Create(job, status, state, now)).0,
           events := s.events[s.nextEvent := NewEvent(eventJob, eventStatus, now)],
           nextEvent := s.nextEvent + 1,
           committed := s.committed[s.nextEvent := Commit(eventJob, StoredStatus(eventStatus))])
    case ClaimBatch(_, _, _, _, _, _, _, _) =>
      if ClaimEnabled(s, op) then Claimed(s, op) else s
    case EncodeFails(w) =>
      if At(s, w, Start) then Goto(s, w, Failing) else s
    case SetPayload(w, ok) =>
      if !At(s, w, Start) then s
      else if ok then Goto(s, w, PayloadSet).(payloads := s.payloads + {Current(s, w).1})
      else Goto(s, w, Failing)
    case AddToStream(w, result) =>
      if !At(s, w, PayloadSet) then s
      else WithEntry(Goto(s, w, if result.Added? then Sent(result.entry) else AddFailed),
                     Current(s, w).1, Some(Current(s, w).0), result)
    case DropPayload(w, ok) =>
      if !At(s, w, AddFailed) then s
      else Goto(s, w, Failing).(payloads := if ok then s.payloads - {Current(s, w).1} else s.payloads)
    case MarkSent(w, ok, now) =>
      if !(w in s.workers && s.workers[w].batch != [] && s.workers[w].pc.Sent?) then s
      else
        NextEvent(if ok then s.(events := Dispatched(s.events, Current(s, w).0, s.workers[w].pc.entry, now)) else s, w)
    case MarkFailed(w, ok, error, now) =>
      if !At(s, w, Failing) then s
      else NextEvent(if ok then s.(events := DispatchFailed(s.events, Current(s, w).0, error, now)) else s, w)
    case Crash(w) =>
      s.(workers := s.workers - {w})
    case RepairSend(job, setOk, result) =>
      if setOk then WithEntry(s.(payloads := s.payloads + {job}), job, None, result) else s
    case CollectEvents(targets, cutoff) =>
      s.(events := DeletedEvents(s.events, targets, cutoff))
  }

  function SysRun(s: Sys, ops: seq<SysOp>): Sys
    decreases |ops|
  {
    if ops == [] then s else SysStep(SysRun(s, ops[..|ops| - 1]), ops[|ops| - 1])
  }

  lemma SysRunSnoc(s: Sys, ops: seq<SysOp>, op: SysOp)
    ensures SysRun(s, ops + [op]) == SysStep(SysRun(s, ops), op)
  {
    assert (ops + [op])[..|ops|] == ops;
  }

  lemma {:induction false} SysRunConcat(s: Sys, a: seq<SysOp>, b: seq<SysOp>)
    ensures SysRun(s, a + b) == SysRun(SysRun(s, a), b)
    decreases |b|
  {
    hide SysStep;
    if |b| == 0 {
      assert a + b == a;
    } else {
      assert (a + b)[..|a + b| - 1] == a + b[..|b| - 1];
      SysRunConcat(s, a, b[..|b| - 1]);
    }
  }

  // ----- Every run of the system is a run of submission statements -----

  ghost function SubmissionOps(s: Sys, op: SysOp): seq<Op> {
    match op
    case Statement(stmt) => [stmt]
    case CreateWithOutbox(job, status, state, eventJob, _, now) =>
      if job in s.db.rows || JobTaken(s.events, eventJob) then [] else [Create(job, status, state, now)]
    case _ => []
  }

  ghost function Projection(ops: seq<SysOp>): seq<Op> {
    if ops == [] then []
    else Projection(ops[..|ops| - 1]) + SubmissionOps(SysRun(INITIAL, ops[..|ops| - 1]), ops[|ops| - 1])
  }

  lemma OthersKeepDb(s: Sys, op: SysOp)
    requires !op.Statement? && !op.CreateWithOutbox?
    ensures SysStep(s, op).db == s.db && SubmissionOps(s, op) == []
  {
    hide ClaimEnabled, Bounds, ClaimedEvents, Dispatched, DispatchFailed, DeletedEvents, At;
  }

  lemma StepProjects(s: Sys, op: SysOp)
    ensures SysStep(s, op).db == Run(s.db, SubmissionOps(s, op))
  {
    hide Run, SysStep, SubmissionOps;
    RunIsEmpty(s.db);
    if op.Statement? || op.CreateWithOutbox? {
      OneStatement(s, op);
      var stmts := SubmissionOps(s, op);
      if stmts != [] {
        RunSnoc(s.db, [], stmts[0]);
        assert [] + [stmts[0]] == stmts;
      }
    } else {
      OthersKeepDb(s, op);
    }
  }

  lemma OneStatement(s: Sys, op: SysOp)
    requires op.Statement? || op.CreateWithOutbox?
    ensures var stmts := SubmissionOps(s, op);
      if stmts == [] then SysStep(s, op).db == s.db
      else |stmts| == 1 && SysStep(s, op).db == Step(s.db, stmts[0]).0
  {
    hide Step, JobTaken, NewEvent, StoredStatus;
  }

  /** So what holds of every run of the submission statements holds inside the whole system. */
  lemma {:induction false} SystemProjects(ops: seq<SysOp>)
    ensures SysRun(INITIAL, ops).db == Run(EMPTY, Projection(ops))
  {
    hide SysStep, SubmissionOps, Run;
    if |ops| > 0 {
      var before := ops[..|ops| - 1];
      SystemProjects(before);
      StepProjects(SysRun(INITIAL, before), ops[|ops| - 1]);
      RunConcat(EMPTY, Projection(before), SubmissionOps(SysRun(INITIAL, before), ops[|ops| - 1]));
    } else {
      RunIsEmpty(EMPTY);
    }
  }

  lemma RunIsEmpty(d: Db)
    ensures Run(d, []) == d
  {
  }

  // ----- At least once -----

  predicate SentBy(s: Sys, id: nat)
    requires id in s.committed
  {
    StreamEntry(s.committed[id].job, Some(id)) in s.stream
  }

  /** A committed event still waits to be claimed, or has an entry of its own in the stream. */
  predicate Safe(s: Sys, id: nat)
    requires id in s.committed
  {
    (id in s.events && Claimable(s.events[id])) || SentBy(s, id)
  }

  predicate EventOk(s: Sys, id: nat)
    requires id in s.committed
  {
    && id < s.nextEvent
    && (id in s.events ==>
          && s.events[id].job == s.committed[id].job
          && (s.events[id].dispatchedAt.Some? ==> s.events[id].status == "delivered"))
    && (s.committed[id].status == "pending" ==>
          && Safe(s, id)
          && (id in s.events ==> s.events[id].status == "pending" || s.events[id].status == "delivered")
          && (id in s.events ==> (s.events[id].status == "delivered" <==> s.events[id].dispatchedAt.Some?)))
    && (s.committed[id].status != "pending" ==>
          && (id in s.events ==> s.events[id].status == s.committed[id].status && s.events[id].dispatchedAt.None?)
          && !SentBy(s, id))
  }

  predicate BatchOk(s: Sys, w: Worker) {
    && w.batch != []
    && (forall b :: b in w.batch ==> TaskOk(s, b.0, b.1))
    && (w.pc.Sent? ==> SentBy(s, w.batch[0].0))
  }

  /** This event of this job was committed as pending. */
  predicate TaskOk(s: Sys, id: nat, job: string) {
    id in s.committed && s.committed[id] == Commit(job, "pending")
  }

  ghost predicate SysOk(s: Sys) {
    && (forall id :: id in s.events ==> id in s.committed)
    && (forall id :: id in s.committed ==> EventOk(s, id))
    && (forall w :: w in s.workers ==> BatchOk(s, s.workers[w]))
    && (forall e :: e in s.stream && e.event.Some? ==> TaskOk(s, e.event.value, e.job))
  }

  /** How a step other than a commit may treat one event: keep its standing, deliver it once sent, or drop it delivered. */
  predicate EventKept(s: Sys, s': Sys, id: nat)
    requires id in s.events && id in s.committed
  {
    var e := s.events[id];
    if id !in s'.events then e.status == "delivered"
    else
      && s'.events[id].job == e.job
      && (|| (s'.events[id].status == e.status && s'.events[id].dispatchedAt.Some? == e.dispatchedAt.Some?)
          || (s'.events[id].status == "delivered" && s'.events[id].dispatchedAt.Some? && SentBy(s, id)))
  }

  /** A step that commits nothing keeps the invariant if it treats events and batches well. */
  lemma QuietStepKeepsOk(s: Sys, s': Sys)
    requires SysOk(s)
    requires s'.committed == s.committed && s'.nextEvent == s.nextEvent
    requires s.stream <= s'.stream
    requires forall e :: e in s'.stream && e.event.Some? ==> TaskOk(s, e.event.value, e.job)
    requires s'.events.Keys <= s.events.Keys && forall id :: id in s.events ==> EventKept(s, s', id)
    requires forall w :: w in s'.workers ==> BatchOk(s', s'.workers[w])
    ensures SysOk(s')
  {
    forall id | id in s.committed
      ensures EventOk(s', id)
    {
      assert EventOk(s, id);
      assert SentBy(s, id) ==> SentBy(s', id);
      assert id in s.events ==> EventKept(s, s', id);
      assert s.committed[id].status != "pending" ==> !SentBy(s', id);
    }
  }

  /** Batches stay sound when their dispatcher does not move and the stream only grows. */
  lemma BatchesKept(s: Sys, s': Sys, busy: nat)
    requires SysOk(s) && s'.committed == s.committed && s.stream <= s'.stream
    requires forall w :: w in s'.workers && w != busy ==> w in s.workers && s'.workers[w] == s.workers[w]
    requires busy in s'.workers ==> BatchOk(s', s'.workers[busy])
    ensures forall w :: w in s'.workers ==> BatchOk(s', s'.workers[w])
  {
    forall w | w in s'.workers && w != busy
      ensures BatchOk(s', s'.workers[w])
    {
      assert BatchOk(s, s.workers[w]);
      BatchGrows(s, s', s.workers[w]);
    }
  }

  lemma BatchGrows(s: Sys, s': Sys, w: Worker)
    requires BatchOk(s, w) && s'.committed == s.committed && s.stream <= s'.stream
    ensures BatchOk(s', w)
  {
  }

  /** A step that leaves events and dispatchers alone and adds at most entries that name no event. */
  lemma AsideKeepsOk(s: Sys, s': Sys)
    requires SysOk(s)
    requires s'.events == s.events && s'.workers == s.workers
    requires s'.committed == s.committed && s'.nextEvent == s.nextEvent
    requires s.stream <= s'.stream && forall e :: e in s'.stream && e.event.Some? ==> e in s.stream
    ensures SysOk(s')
  {
    forall w | w in s'.workers
      ensures BatchOk(s', s'.workers[w])
    {
      assert BatchOk(s, s.workers[w]);
      BatchGrows(s, s', s.workers[w]);
    }
    hide BatchOk, TaskOk;
    QuietStepKeepsOk(s, s');
  }

  lemma StepKeepsOk(s: Sys, op: SysOp)
    requires SysOk(s)
    ensures SysOk(SysStep(s, op))
  {
    match op
    case Statement(_) => StatementKeepsOk(s, op);
    case CreateWithOutbox(_, _, _, _, _, _) => CommitKeepsOk(s, op);
    case ClaimBatch(_, _, _, _, _, _, _, _) => ClaimKeepsOk(s, op);
    case EncodeFails(_) => MoveKeepsOk(s, op);
    case SetPayload(_, _) => MoveKeepsOk(s, op);
    case DropPayload(_, _) => MoveKeepsOk(s, op);
    case AddToStream(_, _) => AddKeepsOk(s, op);
    case MarkSent(_, _, _) => MarkSentKeepsOk(s, op);
    case MarkFailed(_, _, _, _) => MarkFailedKeepsOk(s, op);
    case Crash(_) => MoveKeepsOk(s, op);
    case RepairSend(_, _, _) => RepairKeepsOk(s, op);
    case CollectEvents(_, _) => CollectKeepsOk(s, op);
  }

  lemma StatementKeepsOk(s: Sys, op: SysOp)
    requires SysOk(s) && op.Statement?
    ensures SysOk(SysStep(s, op))
  {
    hide Step, SysOk;
    AsideKeepsOk(s, SysStep(s, op));
  }

  lemma CommitKeepsOk(s: Sys, op: SysOp)
    requires SysOk(s) && op.CreateWithOutbox?
    ensures SysOk(SysStep(s, op))
  {
    hide Step, StoredStatus, NewEvent, JobTaken, SysOk;
    if !(op.job in s.db.rows || JobTaken(s.events, op.eventJob)) {
      NewEventKeepsOk(s, SysStep(s, op), op.eventJob, op.eventStatus, op.now);
    }
  }

  lemma NewEventKeepsOk(s: Sys, s': Sys, job: string, status: string, now: Time)
    requires SysOk(s)
    requires s'.events == s.events[s.nextEvent := NewEvent(job, status, now)] && s'.nextEvent == s.nextEvent + 1
    requires s'.committed == s.committed[s.nextEvent := Commit(job, StoredStatus(status))]
    requires s'.stream == s.stream && s'.workers == s.workers
    ensures SysOk(s')
  {
    var id := s.nextEvent;
    OldEventsKnown(s);
    NewEventOk(s, s', job, status, now);
    hide StoredStatus, NewEvent, BatchOk, EventOk, TaskOk;
    forall w | w in s'.workers
      ensures BatchOk(s', s'.workers[w])
    {
      OldBatchOk(s, s', s.workers[w]);
    }
    forall i | i in s.committed
      ensures EventOk(s', i)
    {
      OldEventOk(s, s', i);
    }
    forall e | e in s'.stream && e.event.Some?
      ensures TaskOk(s', e.event.value, e.job)
    {
      OldTaskOk(s, s', e.event.value, e.job);
    }
  }

  lemma OldEventsKnown(s: Sys)
    requires SysOk(s)
    ensures forall i :: i in s.committed ==> i < s.nextEvent
  {
    forall i | i in s.committed
      ensures i < s.nextEvent
    {
      assert EventOk(s, i);
    }
  }

  lemma OldTaskOk(s: Sys, s': Sys, id: nat, job: string)
    requires TaskOk(s, id, job) && forall i :: i in s.committed ==> i in s'.committed && s'.committed[i] == s.committed[i]
    ensures TaskOk(s', id, job)
  {
  }

  lemma OldBatchOk(s: Sys, s': Sys, w: Worker)
    requires BatchOk(s, w) && s'.stream == s.stream
    requires forall i :: i in s.committed ==> i in s'.committed && s'.committed[i] == s.committed[i]
    ensures BatchOk(s', w)
  {
    assert w.batch[0] in w.batch;
  }

  lemma OldEventOk(s: Sys, s': Sys, id: nat)
    requires id in s.committed && EventOk(s, id) && s'.stream == s.stream && s.nextEvent <= s'.nextEvent
    requires id in s'.committed && s'.committed[id] == s.committed[id]
    requires (id in s'.events <==> id in s.events) && (id in s.events ==> s'.events[id] == s.events[id])
    ensures EventOk(s', id)
  {
  }

  lemma NewEventOk(s: Sys, s': Sys, job: string, status: string, now: Time)
    requires SysOk(s) && s.nextEvent !in s.committed
    requires s'.events == s.events[s.nextEvent := NewEvent(job, status, now)] && s'.nextEvent == s.nextEvent + 1
    requires s'.committed == s.committed[s.nextEvent := Commit(job, StoredStatus(status))]
    requires s'.stream == s.stream
    ensures EventOk(s', s.nextEvent)
  {
    hide StoredStatus, EventOk, BatchOk;
    assert !SentBy(s', s.nextEvent) by {
      var e := StreamEntry(job, Some(s.nextEvent));
      assert e in s.stream ==> TaskOk(s, e.event.value, e.job);
    }
    FreshEventOk(s', s.nextEvent);
  }

  lemma FreshEventOk(s: Sys, id: nat)
    requires id in s.committed && id in s.events && id < s.nextEvent && !SentBy(s, id)
    requires s.events[id].job == s.committed[id].job && s.events[id].status == s.committed[id].status
    requires s.events[id].dispatchedAt.None?
    ensures EventOk(s, id)
  {
  }

  lemma ClaimKeepsOk(s: Sys, op: SysOp)
    requires SysOk(s) && op.ClaimBatch?
    ensures SysOk(SysStep(s, op))
  {
    hide Bounds, Delay;
    var s' := SysStep(s, op);
    if ClaimEnabled(s, op) {
      forall k | 0 <= k < |op.picks|
        ensures TaskOk(s, op.picks[k], s.events[op.picks[k]].job)
      {
        assert EventOk(s, op.picks[k]);
      }
      BatchesKept(s, s', op.worker);
      QuietStepKeepsOk(s, s');
    }
  }

  lemma GotoKeepsOk(s: Sys, w: nat, pc: Pc, payloads: set<string>)
    requires SysOk(s) && w in s.workers && !pc.Sent?
    ensures SysOk(Goto(s, w, pc).(payloads := payloads))
  {
    var s' := Goto(s, w, pc).(payloads := payloads);
    assert BatchOk(s, s.workers[w]);
    BatchesKept(s, s', w);
    QuietStepKeepsOk(s, s');
  }

  lemma CrashKeepsOk(s: Sys, w: nat)
    requires SysOk(s)
    ensures SysOk(s.(workers := s.workers - {w}))
  {
    BatchesKept(s, s.(workers := s.workers - {w}), w);
    QuietStepKeepsOk(s, s.(workers := s.workers - {w}));
  }

  lemma MoveKeepsOk(s: Sys, op: SysOp)
    requires SysOk(s) && (op.EncodeFails? || op.SetPayload? || op.DropPayload? || op.Crash?)
    ensures SysOk(SysStep(s, op))
  {
    hide SysOk;
    if op.Crash? {
      CrashKeepsOk(s, op.worker);
    } else if op.worker in s.workers {
      GotoKeepsOk(s, op.worker, Failing, SysStep(s, op).payloads);
      GotoKeepsOk(s, op.worker, PayloadSet, SysStep(s, op).payloads);
    }
  }

  lemma SentKeepsOk(s: Sys, w: nat, pc: Pc)
    requires SysOk(s) && At(s, w, PayloadSet)
    ensures var (id, job) := Current(s, w);
      SysOk(Goto(s, w, pc).(stream := s.stream + multiset{StreamEntry(job, Some(id))}))
  {
    var (id, job) := Current(s, w);
    var s' := Goto(s, w, pc).(stream := s.stream + multiset{StreamEntry(job, Some(id))});
    assert BatchOk(s, s.workers[w]);
    assert (id, job) in s.workers[w].batch && TaskOk(s, id, job);
    BatchesKept(s, s', w);
    QuietStepKeepsOk(s, s');
  }

  lemma AddKeepsOk(s: Sys, op: SysOp)
    requires SysOk(s) && op.AddToStream?
    ensures SysOk(SysStep(s, op))
  {
    hide SysOk;
    if At(s, op.worker, PayloadSet) {
      if op.result.NotAdded? {
        GotoKeepsOk(s, op.worker, AddFailed, s.payloads);
      } else {
        SentKeepsOk(s, op.worker, if op.result.Added? then Sent(op.result.entry) else AddFailed);
      }
    }
  }

  lemma RepairKeepsOk(s: Sys, op: SysOp)
    requires SysOk(s) && op.RepairSend?
    ensures SysOk(SysStep(s, op))
  {
    hide SysStep, SysOk;
    RepairOnlySends(s, op);
    AsideKeepsOk(s, SysStep(s, op));
  }

  lemma RepairOnlySends(s: Sys, op: SysOp)
    requires op.RepairSend?
    ensures var s' := SysStep(s, op);
      && s'.events == s.events && s'.workers == s.workers
      && s'.committed == s.committed && s'.nextEvent == s.nextEvent
      && s.stream <= s'.stream && forall e :: e in s'.stream && e.event.Some? ==> e in s.stream
  {
  }

  lemma NextKeepsBatchOk(s: Sys, s': Sys, w: nat)
    requires w in s.workers && BatchOk(s, s.workers[w]) && s'.committed == s.committed && s'.stream == s.stream
    requires s'.workers == NextEvent(s, w).workers
    ensures w in s'.workers ==> BatchOk(s', s'.workers[w])
  {
  }

  /** A dispatcher is done with an event: the row is untouched, delivered after it was sent, or marked failed. */
  lemma FinishKeepsOk(s: Sys, s': Sys, w: nat, entry: string, error: string, now: Time)
    requires SysOk(s) && w in s.workers && BatchOk(s, s.workers[w])
    requires s'.committed == s.committed && s'.nextEvent == s.nextEvent && s'.stream == s.stream
    requires s'.workers == NextEvent(s, w).workers
    requires var id := Current(s, w).0;
      || s'.events == s.events
      || (s.workers[w].pc.Sent? && s'.events == Dispatched(s.events, id, entry, now))
      || s'.events == DispatchFailed(s.events, id, error, now)
    ensures SysOk(s')
  {
    var (id, job) := Current(s, w);
    assert (id, job) in s.workers[w].batch && TaskOk(s, id, job);
    NextKeepsBatchOk(s, s', w);
    BatchesKept(s, s', w);
    hide BatchOk, NextEvent, Current;
    assert EventOk(s, id);
    QuietStepKeepsOk(s, s');
  }

  lemma NextIgnoresEvents(s: Sys, events: Events, w: nat)
    requires w in s.workers && s.workers[w].batch != []
    ensures NextEvent(s.(events := events), w) == NextEvent(s, w).(events := events)
    ensures var r := NextEvent(s, w);
      && r.events == s.events && r.committed == s.committed && r.nextEvent == s.nextEvent && r.stream == s.stream
  {
  }

  lemma MarkSentKeepsOk(s: Sys, op: SysOp)
    requires SysOk(s) && op.MarkSent?
    ensures SysOk(SysStep(s, op))
  {
    var w := op.worker;
    if w in s.workers && s.workers[w].batch != [] && s.workers[w].pc.Sent? {
      assert BatchOk(s, s.workers[w]);
      NextIgnoresEvents(s, Dispatched(s.events, Current(s, w).0, s.workers[w].pc.entry, op.now), w);
      hide SysOk, BatchOk, Dispatched, NextEvent, Current;
      FinishKeepsOk(s, SysStep(s, op), w, s.workers[w].pc.entry, "", op.now);
    }
  }

  lemma MarkFailedKeepsOk(s: Sys, op: SysOp)
    requires SysOk(s) && op.MarkFailed?
    ensures SysOk(SysStep(s, op))
  {
    var w := op.worker;
    if At(s, w, Failing) {
      assert BatchOk(s, s.workers[w]);
      NextIgnoresEvents(s, DispatchFailed(s.events, Current(s, w).0, op.error, op.now), w);
      hide SysOk, BatchOk, DispatchFailed, NextEvent, Current;
      FinishKeepsOk(s, SysStep(s, op), w, "", op.error, op.now);
    }
  }

  lemma CollectKeepsOk(s: Sys, op: SysOp)
    requires SysOk(s) && op.CollectEvents?
    ensures SysOk(SysStep(s, op))
  {
    BatchesKept(s, SysStep(s, op), 0);
    QuietStepKeepsOk(s, SysStep(s, op));
  }

  lemma {:induction false} AlwaysOk(ops: seq<SysOp>)
    ensures SysOk(SysRun(INITIAL, ops))
  {
    if |ops| > 0 {
      AlwaysOk(ops[..|ops| - 1]);
      StepKeepsOk(SysRun(INITIAL, ops[..|ops| - 1]), ops[|ops| - 1]);
    }
  }

  /**
   At least once: in every reachable state, whatever crashed and whatever was collected, an event
   committed as pending can still be claimed or has been added to the stream for its own job.
   */
  lemma AtLeastOnce(ops: seq<SysOp>, id: nat)
    requires id in SysRun(INITIAL, ops).committed
    requires SysRun(INITIAL, ops).committed[id].status == "pending"
    ensures var s := SysRun(INITIAL, ops);
      || (id in s.events && Claimable(s.events[id]) && s.events[id].job == s.committed[id].job)
      || StreamEntry(s.committed[id].job, Some(id)) in s.stream
  {
    AlwaysOk(ops);
    var s := SysRun(INITIAL, ops);
    assert EventOk(s, id);
  }

  /** Only events committed as pending: one stored under any other status is never claimed and never sent. */
  lemma OtherStatusIsNeverSent(ops: seq<SysOp>, id: nat)
    requires id in SysRun(INITIAL, ops).committed
    ensures SysRun(INITIAL, ops).committed[id].status != "pending" <==> !Safe(SysRun(INITIAL, ops), id)
  {
    AlwaysOk(ops);
    assert EventOk(SysRun(INITIAL, ops), id);
  }

  /** A commit is on record for good, and its guarantee with it. */
  lemma {:induction false} CommitsStay(s: Sys, ops: seq<SysOp>, id: nat)
    requires SysOk(s) && id in s.committed
    ensures SysOk(SysRun(s, ops))
    ensures id in SysRun(s, ops).committed && SysRun(s, ops).committed[id] == s.committed[id]
    ensures s.committed[id].status == "pending" ==> Safe(SysRun(s, ops), id)
    decreases |ops|
  {
    if |ops| == 0 {
      assert EventOk(s, id);
    } else {
      hide SysOk, SysStep, EventOk, Safe;
      var before, op := SysRun(s, ops[..|ops| - 1]), ops[|ops| - 1];
      CommitsStay(s, ops[..|ops| - 1], id);
      StepKeepsOk(before, op);
      StepKeepsCommit(before, op, id);
    }
  }

  lemma StepKeepsCommit(s: Sys, op: SysOp, id: nat)
    requires SysOk(s) && id in s.committed && SysOk(SysStep(s, op))
    ensures var s' := SysStep(s, op);
      && id in s'.committed && s'.committed[id] == s.committed[id]
      && (s.committed[id].status == "pending" ==> Safe(s', id))
  {
    hide SysStep, Safe;
    assert EventOk(s, id);
    CommittedStays(s, op, id);
    assert EventOk(SysStep(s, op), id);
  }

  lemma CommittedStays(s: Sys, op: SysOp, id: nat)
    requires id in s.committed && id < s.nextEvent
    ensures id in SysStep(s, op).committed && SysStep(s, op).committed[id] == s.committed[id]
  {
    hide Step, ClaimEnabled, StoredStatus, JobTaken, At, Bounds, ClaimedEvents, Dispatched, DispatchFailed,
      DeletedEvents, NewEvent;
  }

  /** Such an event, committed as "sent": whatever runs afterwards, it is neither claimable nor in the stream. */
  lemma SentStatusIsNeverSent(more: seq<SysOp>) returns (first: SysOp)
    ensures first.CreateWithOutbox? && first.eventStatus == "sent"
    ensures var s := SysRun(INITIAL, [first] + more);
      0 in s.committed && s.committed[0] == Commit("j", "sent") && !Safe(s, 0)
  {
    first := CreateWithOutbox("j", "pending", "pending", "j", "sent", 0);
    FirstCommit(first);
    hide SysRun, SysStep, Safe, SysOk;
    SysRunConcat(INITIAL, [first], more);
    AlwaysOk([first]);
    CommitsStay(SysRun(INITIAL, [first]), more, 0);
    OtherStatusIsNeverSent([first] + more, 0);
  }

  lemma FirstCommit(first: SysOp)
    requires first == CreateWithOutbox("j", "pending", "pending", "j", "sent", 0)
    ensures var s := SysRun(INITIAL, [first]);
      0 in s.committed && s.committed[0] == Commit("j", "sent")
  {
    hide Step, TrimSpace;
    SentIsStored();
    SysRunSnoc(INITIAL, [], first);
    assert [] + [first] == [first];
    assert SysRun(INITIAL, []) == INITIAL;
  }

  lemma SentIsStored()
    ensures StoredStatus("sent") == "sent"
  {
    hide TrimSpace;
    SmallLetterIsNotSpace('s');
    SmallLetterIsNotSpace('t');
    TrimSpaceKeepsTrimmed("sent");
  }

  /** Once an event is dispatched it is gone or delivered. */
  predicate Delivered(s: Sys, id: nat) {
    id in s.committed && (id in s.events ==> s.events[id].status == "delivered" && s.events[id].dispatchedAt.Some?)
  }

  lemma StepKeepsDelivered(s: Sys, op: SysOp, id: nat)
    requires id < s.nextEvent && (id in s.events ==> s.events[id].dispatchedAt.Some?)
    ensures id in SysStep(s, op).events ==> id in s.events && SysStep(s, op).events[id].dispatchedAt.Some?
    ensures s.nextEvent <= SysStep(s, op).nextEvent
  {
    hide Step, Delay, Bounds, StoredStatus, IsPick, JobTaken;
  }

  /** Delivered is absorbing: no retry, no late error mark and no second dispatcher makes the event claimable again. */
  lemma {:induction false} DeliveredIsAbsorbing(s: Sys, ops: seq<SysOp>, id: nat)
    requires SysOk(s) && id in s.events && s.events[id].dispatchedAt.Some?
    ensures Delivered(SysRun(s, ops), id) && SysOk(SysRun(s, ops)) && id < SysRun(s, ops).nextEvent
    decreases |ops|
  {
    if |ops| == 0 {
      assert EventOk(s, id);
    } else {
      var before, op := SysRun(s, ops[..|ops| - 1]), ops[|ops| - 1];
      DeliveredIsAbsorbing(s, ops[..|ops| - 1], id);
      DeliveredStep(before, op, id);
    }
  }

  lemma DeliveredStep(s: Sys, op: SysOp, id: nat)
    requires SysOk(s) && Delivered(s, id) && id < s.nextEvent
    ensures Delivered(SysStep(s, op), id) && SysOk(SysStep(s, op)) && id < SysStep(s, op).nextEvent
  {
    hide SysStep;
    StepKeepsOk(s, op);
    StepKeepsDelivered(s, op, id);
    CommitsStay(s, [op], id);
    SysRunSnoc(s, [], op);
    assert [] + [op] == [op];
    assert EventOk(SysStep(s, op), id);
  }
}
