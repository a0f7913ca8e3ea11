/**
 The `submissions` table and the SQL statements that move a row through its life.
 Each statement is one atomic step: a function on the table, and a method of `SubmissionStore`
 that updates the table in place and is proved to do what the function says.
 Times are microseconds, the resolution of a Postgres timestamp.
 */
module Submissions {
  import opened Options

  type Time = int

  const SECOND: int := 1_000_000

  datatype Row = Row(
    id: nat,
    attempt: nat,
    status: string,
    state: string,
    owner: Option<string>,
    until: Option<Time>,
    result: Option<string>,
    errorCode: Option<string>,
    errorMessage: Option<string>,
    createdAt: Time,
    updatedAt: Time)

  /** Rows by job id, which is unique, and the next value of the id sequence. */
  datatype Db = Db(rows: map<string, Row>, nextId: nat)

  const EMPTY := Db(map[], 0)

  /** One call of a statement, with its arguments and the reading of NOW(). */
  datatype Op =
    | Create(job: string, status: string, state: string, now: Time)
    | Claim(job: string, owner: string, leaseSec: int, now: Time)
    | Refresh(job: string, attempt: int, owner: string, leaseSec: int, now: Time)
    | Finalize(job: string, attempt: int, owner: string, status: string, result: string, now: Time)
    | Poison(job: string, code: string, message: string, now: Time)
    | ResultIfNotDone(job: string, status: string, result: string, now: Time)
    | Reclaim(job: string, owner: string, leaseSec: int, now: Time)
    | DeleteDone(targets: set<string>, cutoff: Time)

  /** What the caller learns: no row matched, one row matched, or the returned attempt_id. */
  datatype Outcome = Rejected | Applied | Granted(attempt: nat)

  function EffectiveLease(leaseSec: int): int {
    if leaseSec <= 0 then 60 else leaseSec
  }

  function LeaseEnd(now: Time, leaseSec: int): Time {
    now + EffectiveLease(leaseSec) * SECOND
  }

  /** The WHERE clause of a statement, on the row of its job. */
  predicate Guard(r: Row, op: Op)
    requires !op.Create? && !op.DeleteDone?
  {
    match op
    case Claim(_, _, _, _) =>
      r.state == "pending"
    case Refresh(_, attempt, owner, _, _) =>
      r.attempt == attempt && r.owner == Some(owner) && r.status == "running" && r.state == "processing"
    case Finalize(_, attempt, owner, _, _, now) =>
      && r.attempt == attempt && r.owner == Some(owner)
      && r.until.Some? && r.until.value > now
      && r.status == "running" && r.state == "processing"
    case Poison(_, _, _, _) =>
      r.state != "done"
    case ResultIfNotDone(_, _, _, _) =>
      r.state != "done"
    case Reclaim(_, _, _, now) =>
      && r.status == "running" && r.state == "processing"
      && r.until.Some? && r.until.value < now
  }

  /** The SET clause of a statement. */
  function Updated(r: Row, op: Op): Row
    requires !op.Create? && !op.DeleteDone?
  {
    match op
    case Claim(_, owner, leaseSec, now) =>
      r.(attempt := r.attempt + 1, status := "running", state := "processing",
         owner := Some(owner), until := Some(LeaseEnd(now, leaseSec)),
         errorCode := None, errorMessage := None, updatedAt := now)
    case Refresh(_, _, _, leaseSec, now) =>
      r.(until := Some(LeaseEnd(now, leaseSec)), updatedAt := now)
    case Finalize(_, _, _, status, result, now) =>
      r.(status := status, state := "done", result := Some(result),
         owner := None, until := None, updatedAt := now)
    case Poison(_, code, message, now) =>
      r.(status := "System Error", state := "done", errorCode := Some(code), errorMessage := Some(message),
         owner := None, until := None, updatedAt := now)
    case ResultIfNotDone(_, status, result, now) =>
      r.(status := status, state := "done", result := Some(result), updatedAt := now)
    case Reclaim(_, owner, leaseSec, now) =>
      r.(attempt := r.attempt + 1, owner := Some(owner), until := Some(LeaseEnd(now, leaseSec)), updatedAt := now)
  }

  /** The row an INSERT makes; the columns it does not name take their defaults. */
  function Inserted(id: nat, status: string, state: string, now: Time): Row {
    Row(id, 0, status, state, None, None, None, None, None, now, now)
  }

  /** The rows the garbage collector may delete. */
  predicate Collectable(r: Row, cutoff: Time) {
    r.state == "done" && r.updatedAt < cutoff
  }

  function Deleted(rows: map<string, Row>, targets: set<string>, cutoff: Time): map<string, Row> {
    map job | job in rows && !(job in targets && Collectable(rows[job], cutoff)) :: rows[job]
  }

  /** One statement on the whole table. */
  function Step(d: Db, op: Op): (Db, Outcome) {
    match op
    case Create(job, status, state, now) =>
      if job in d.rows then (d, Rejected)
      else (Db(d.rows[job := Inserted(d.nextId, status, state, now)], d.nextId + 1), Applied)
    case DeleteDone(targets, cutoff) =>
      (d.(rows := Deleted(d.rows, targets, cutoff)), Applied)
    case _ =>
      if op.job in d.rows && Guard(d.rows[op.job], op) then
        var r := Updated(d.rows[op.job], op);
        (d.(rows := d.rows[op.job := r]), if op.Claim? || op.Reclaim? then Granted(r.attempt) else Applied)
      else (d, Rejected)
  }

  /** A run: the table after a sequence of statements, issued by anyone in any order. */
  function Run(d: Db, ops: seq<Op>): Db
    decreases |ops|
  {
    if ops == [] then d else Step(Run(d, ops[..|ops| - 1]), ops[|ops| - 1]).0
  }

  lemma {:induction false} RunConcat(d: Db, a: seq<Op>, b: seq<Op>)
    ensures Run(d, a + b) == Run(Run(d, a), b)
    decreases |b|
  {
    if b == [] {
      assert a + b == a;
    } else {
      assert (a + b)[..|a + b| - 1] == a + b[..|b| - 1];
      RunConcat(d, a, b[..|b| - 1]);
    }
  }

  lemma RunSnoc(d: Db, ops: seq<Op>, op: Op)
    ensures Run(d, ops + [op]) == Step(Run(d, ops), op).0
  {
    assert (ops + [op])[..|ops|] == ops;
  }

  lemma RunCons(d: Db, op: Op, ops: seq<Op>)
    ensures Run(d, [op] + ops) == Run(Step(d, op).0, ops)
  {
    RunConcat(d, [op], ops);
    RunSnoc(d, [], op);
    assert [] + [op] == [op];
  }

  /** What no statement changes in a row. */
  predicate SameOrigin(r: Row, r': Row) {
    r'.id == r.id && r'.createdAt == r.createdAt
  }

  predicate SameErrors(r: Row, r': Row) {
    r'.errorCode == r.errorCode && r'.errorMessage == r.errorMessage
  }

  /** The statements as the repository's methods issue them, on a table held in a mutable field. */
  class SubmissionStore {
    var rows: map<string, Row>
    var nextId: nat

    function State(): Db
      reads this
    {
      Db(rows, nextId)
    }

    constructor ()
      ensures State() == EMPTY
    {
      rows, nextId := map[], 0;
    }

    /** Fails when the job id is already present. */
    method CreateSubmission(job: string, status: string, state: string, now: Time) returns (ok: bool)
      modifies this
      ensures (State(), if ok then Applied else Rejected) == Step(old(State()), Create(job, status, state, now))
      ensures ok <==> job !in old(rows)
      ensures ok ==>
        && rows == old(rows)[job := rows[job]] && rows[job].id == old(nextId) && nextId == old(nextId) + 1
        && rows[job].status == status && rows[job].state == state && rows[job].attempt == 0
        && rows[job].createdAt == rows[job].updatedAt == now && rows[job].owner == None && rows[job].until == None
        && rows[job].result == None && rows[job].errorCode == None && rows[job].errorMessage == None
    {
      ok := job !in rows;
      if ok {
        rows := rows[job := Row(nextId, 0, status, state, None, None, None, None, None, now, now)];
        nextId := nextId + 1;
      }
    }

    method UpdateSubmissionResultIfNotDone(job: string, status: string, result: string, now: Time)
      returns (latency: int, ok: bool)
      modifies this
      ensures (State(), if ok then Applied else Rejected)
           == Step(old(State()), ResultIfNotDone(job, status, result, now))
      ensures latency == if ok then now - old(rows)[job].createdAt else 0
      ensures ok <==> job in old(rows) && old(rows)[job].state != "done"
      ensures ok ==>
        && rows == old(rows)[job := rows[job]] && SameOrigin(old(rows)[job], rows[job])
        && rows[job].state == "done" && rows[job].status == status && rows[job].result == Some(result)
        && rows[job].attempt == old(rows)[job].attempt && rows[job].updatedAt == now
        && rows[job].owner == old(rows)[job].owner && rows[job].until == old(rows)[job].until
        && SameErrors(old(rows)[job], rows[job])
    {
      latency, ok := 0, false;
      if job in rows && rows[job].state != "done" {
        var row := rows[job];
        rows := rows[job := row.(status := status, result := Some(result), state := "done", updatedAt := now)];
        latency, ok := now - row.createdAt, true;
      }
    }

    method ClaimSubmissionForRun(job: string, leaseOwner: string, leaseSec: int, now: Time)
      returns (attempt: nat, ok: bool)
      modifies this
      ensures (State(), if ok then Granted(attempt) else Rejected)
           == Step(old(State()), Claim(job, leaseOwner, leaseSec, now))
      ensures !ok ==> attempt == 0
      ensures ok <==> job in old(rows) && old(rows)[job].state == "pending"
      ensures ok ==>
        && rows == old(rows)[job := rows[job]] && SameOrigin(old(rows)[job], rows[job])
        && rows[job].attempt == attempt == old(rows)[job].attempt + 1
        && rows[job].status == "running" && rows[job].state == "processing"
        && rows[job].owner == Some(leaseOwner)
        && rows[job].until == Some(now + if leaseSec <= 0 then 60_000_000 else leaseSec * 1_000_000)
        && rows[job].errorCode == None && rows[job].errorMessage == None
        && rows[job].result == old(rows)[job].result && rows[job].updatedAt == now
    {
      attempt, ok := 0, false;
      var secs := leaseSec;
      if secs <= 0 {
        secs := 60;
      }
      if job in rows && rows[job].state == "pending" {
        attempt, ok := rows[job].attempt + 1, true;
        rows := rows[job := rows[job].(
          attempt := attempt, status := "running", state := "processing",
          owner := Some(leaseOwner), until := Some(now + secs * SECOND),
          errorCode := None, errorMessage := None, updatedAt := now)];
      }
    }

    method RefreshSubmissionLease(job: string, attempt: int, leaseOwner: string, leaseSec: int, now: Time)
      returns (ok: bool)
      modifies this
      ensures (State(), if ok then Applied else Rejected)
           == Step(old(State()), Refresh(job, attempt, leaseOwner, leaseSec, now))
      ensures ok <==>
        && job in old(rows) && old(rows)[job].attempt == attempt && old(rows)[job].owner == Some(leaseOwner)
        && old(rows)[job].status == "running" && old(rows)[job].state == "processing"
      ensures ok ==>
        && rows == old(rows)[job := rows[job]]
        && rows[job].until == Some(now + if leaseSec <= 0 then 60_000_000 else leaseSec * 1_000_000)
        && rows[job] == old(rows)[job].(until := rows[job].until, updatedAt := now)
    {
      var secs := leaseSec;
      if secs <= 0 {
        secs := 60;
      }
      ok := && job in rows && rows[job].attempt == attempt && rows[job].owner == Some(leaseOwner)
            && rows[job].status == "running" && rows[job].state == "processing";
      if ok {
        rows := rows[job := rows[job].(until := Some(now + secs * SECOND), updatedAt := now)];
      }
    }

    /** The fenced UPDATE of `FinalizeSubmissionWithFence`. */
    method FinalizeUpdate(job: string, attempt: int, leaseOwner: string, status: string, result: string, now: Time)
      returns (ok: bool)
      modifies this
      ensures (State(), if ok then Applied else Rejected)
           == Step(old(State()), Finalize(job, attempt, leaseOwner, status, result, now))
      ensures ok <==>
        && job in old(rows) && old(rows)[job].attempt == attempt && old(rows)[job].owner == Some(leaseOwner)
        && old(rows)[job].until.Some? && now < old(rows)[job].until.value
        && old(rows)[job].status == "running" && old(rows)[job].state == "processing"
      ensures ok ==>
        && rows == old(rows)[job := rows[job]] && SameOrigin(old(rows)[job], rows[job])
        && rows[job].state == "done" && rows[job].status == status && rows[job].result == Some(result)
        && rows[job].attempt == attempt && rows[job].owner == None && rows[job].until == None
        && SameErrors(old(rows)[job], rows[job]) && rows[job].updatedAt == now
    {
      ok := && job in rows && rows[job].attempt == attempt && rows[job].owner == Some(leaseOwner)
            && rows[job].until != None && rows[job].until.value > now
            && rows[job].status == "running" && rows[job].state == "processing";
      if ok {
        rows := rows[job := rows[job].(
          status := status, state := "done", result := Some(result),
          owner := None, until := None, updatedAt := now)];
      }
    }

    method MarkSubmissionPoison(job: string, code: string, message: string, now: Time) returns (ok: bool)
      modifies this
      ensures (State(), if ok then Applied else Rejected) == Step(old(State()), Poison(job, code, message, now))
      ensures ok <==> job in old(rows) && old(rows)[job].state != "done"
      ensures ok ==>
        && rows == old(rows)[job := rows[job]] && SameOrigin(old(rows)[job], rows[job])
        && rows[job].state == "done" && rows[job].status == "System Error"
        && rows[job].errorCode == Some(code) && rows[job].errorMessage == Some(message)
        && rows[job].result == old(rows)[job].result && rows[job].attempt == old(rows)[job].attempt
        && rows[job].owner == None && rows[job].until == None && rows[job].updatedAt == now
    {
      ok := job in rows && rows[job].state != "done";
      if ok {
        rows := rows[job := rows[job].(
          status := "System Error", state := "done", errorCode := Some(code), errorMessage := Some(message),
          owner := None, until := None, updatedAt := now)];
      }
    }

    /** The UPDATE of `ReclaimSubmissionForRun`. */
    method ReclaimUpdate(job: string, leaseOwner: string, leaseSec: int, now: Time)
      returns (attempt: nat, ok: bool)
      modifies this
      ensures (State(), if ok then Granted(attempt) else Rejected)
           == Step(old(State()), Reclaim(job, leaseOwner, leaseSec, now))
      ensures !ok ==> attempt == 0
      ensures ok <==>
        && job in old(rows) && old(rows)[job].status == "running" && old(rows)[job].state == "processing"
        && old(rows)[job].until.Some? && old(rows)[job].until.value < now
      ensures ok ==>
        && rows == old(rows)[job := rows[job]] && SameOrigin(old(rows)[job], rows[job])
        && rows[job].attempt == attempt == old(rows)[job].attempt + 1
        && rows[job].status == "running" && rows[job].state == "processing"
        && rows[job].owner == Some(leaseOwner)
        && rows[job].until == Some(now + if leaseSec <= 0 then 60_000_000 else leaseSec * 1_000_000)
        && SameErrors(old(rows)[job], rows[job]) && rows[job].result == old(rows)[job].result
        && rows[job].updatedAt == now
    {
      attempt, ok := 0, false;
      var secs := leaseSec;
      if secs <= 0 {
        secs := 60;
      }
      if && job in rows && rows[job].status == "running" && rows[job].state == "processing"
         && rows[job].until != None && rows[job].until.value < now {
        attempt, ok := rows[job].attempt + 1, true;
        rows := rows[job := rows[job].(
          attempt := attempt, owner := Some(leaseOwner), until := Some(now + secs * SECOND), updatedAt := now)];
      }
    }

    /** One batched DELETE: of the targets, those that are done and old enough go; every other row stays as it is. */
    method DeleteBatch(targets: set<string>, cutoff: Time)
      modifies this`rows
      ensures State() == Step(old(State()), DeleteDone(targets, cutoff)).0
      ensures forall job :: job in rows <==>
        job in old(rows) && (job !in targets || old(rows)[job].state != "done" || old(rows)[job].updatedAt >= cutoff)
      ensures forall job :: job in rows ==> rows[job] == old(rows)[job]
    {
      rows := rows - set job | job in targets && job in rows && Collectable(rows[job], cutoff);
    }

    /** Other sessions run between two statements of one caller. */
    method Interfere(ops: seq<Op>)
      modifies this
      ensures State() == Run(old(State()), ops)
    {
      ghost var start := State();
      for i := 0 to |ops|
        invariant State() == Run(start, ops[..i])
      {
        assert ops[..i + 1] == ops[..i] + [ops[i]];
        RunSnoc(start, ops[..i], ops[i]);
        var next := Step(Db(rows, nextId), ops[i]).0;
        rows, nextId := next.rows, next.nextId;
      }
      assert ops[..|ops|] == ops;
    }
  }
}
