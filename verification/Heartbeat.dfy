/** What a heartbeat buys the holder of a lease, and what a reclaim takes away for good. */
module Heartbeat {
  import opened Options
  import opened Submissions
  import opened LeaseHistory
  import opened FencingSafety

  predicate OnJob(op: Op, job: string) {
    !op.DeleteDone? && op.job == job
  }

  /** Row `id` of `job` is held under `attempt` by `owner` until the given time. */
  predicate Holds(d: Db, job: string, id: nat, attempt: nat, owner: string, until: Time) {
    job in d.rows && d.rows[job].id == id && LeaseOf(d.rows[job]) == Lease(attempt, Held(owner, until))
  }

  /** The holder's own heartbeat. */
  predicate Beats(op: Op, job: string, attempt: nat, owner: string) {
    op.Refresh? && op.job == job && op.attempt == attempt && op.owner == owner
  }

  /**
   Every statement on the job comes strictly less than the current lease after the holder's last beat
   (its grant or its last refresh), no unfenced writer touches the job, and the holder has not finished.
   The clock need not be monotone.
   */
  predicate InTime(ops: seq<Op>, job: string, attempt: nat, owner: string, beat: Time, lease: int) {
    if ops == [] then true
    else
      var op := ops[0];
      if !OnJob(op, job) then InTime(ops[1..], job, attempt, owner, beat, lease)
      else
        && op.now - beat < lease * SECOND
        && !op.Poison? && !op.ResultIfNotDone?
        && !(op.Finalize? && op.attempt == attempt && op.owner == owner)
        && if Beats(op, job, attempt, owner)
           then InTime(ops[1..], job, attempt, owner, op.now, EffectiveLease(op.leaseSec))
           else InTime(ops[1..], job, attempt, owner, beat, lease)
  }

  /** When the lease runs out after these statements: the last beat plus the lease it asked for. */
  function Deadline(ops: seq<Op>, job: string, attempt: nat, owner: string, until: Time): Time
    decreases |ops|
  {
    if ops == [] then until
    else if Beats(ops[|ops| - 1], job, attempt, owner)
    then LeaseEnd(ops[|ops| - 1].now, ops[|ops| - 1].leaseSec)
    else Deadline(ops[..|ops| - 1], job, attempt, owner, until)
  }

  lemma {:induction false} DeadlineCons(op: Op, ops: seq<Op>, job: string, attempt: nat, owner: string, until: Time)
    ensures Deadline([op] + ops, job, attempt, owner, until)
         == Deadline(ops, job, attempt, owner, Deadline([op], job, attempt, owner, until))
    decreases |ops|
  {
    if ops == [] {
      assert [op] + ops == [op];
    } else {
      assert ([op] + ops)[..|ops|] == [op] + ops[..|ops| - 1];
      DeadlineCons(op, ops[..|ops| - 1], job, attempt, owner, until);
    }
  }

  lemma FirstInTime(op: Op, rest: seq<Op>, job: string, attempt: nat, owner: string, beat: Time, lease: int)
    requires InTime([op] + rest, job, attempt, owner, beat, lease)
    ensures InTime([op], job, attempt, owner, beat, lease)
    ensures Deadline([op], job, attempt, owner, beat + lease * SECOND) ==
            if Beats(op, job, attempt, owner) then LeaseEnd(op.now, op.leaseSec) else beat + lease * SECOND
    ensures if Beats(op, job, attempt, owner)
            then InTime(rest, job, attempt, owner, op.now, EffectiveLease(op.leaseSec))
            else InTime(rest, job, attempt, owner, beat, lease)
  {
    assert ([op] + rest)[1..] == rest && [op][1..] == [] && [op][..0] == [];
  }

  lemma RunPrefix(d: Db, op: Op, rest: seq<Op>, i: nat)
    requires i <= |rest|
    ensures Run(d, ([op] + rest)[..i]) == if i == 0 then d else Run(Step(d, op).0, rest[..i - 1])
    ensures ([op] + rest)[i] == if i == 0 then op else rest[i - 1]
  {
    hide Step;
    if i > 0 {
      assert ([op] + rest)[..i] == [op] + rest[..i - 1];
      RunCons(d, op, rest[..i - 1]);
    }
  }

  lemma StepInTime(d: Db, op: Op, job: string, id: nat, attempt: nat, owner: string, beat: Time, lease: int)
    requires Holds(d, job, id, attempt, owner, beat + lease * SECOND)
    requires InTime([op], job, attempt, owner, beat, lease)
    ensures Holds(Step(d, op).0, job, id, attempt, owner,
                  if Beats(op, job, attempt, owner) then LeaseEnd(op.now, op.leaseSec) else beat + lease * SECOND)
    ensures OnJob(op, job) && !Beats(op, job, attempt, owner) ==> Step(d, op).1 == Rejected
  {
  }

  /**
   Heartbeat guarantee: while beats come in time the row stays with its holder, and every other worker
   statement on the job is turned away, a Reclaim or a rival Finalize included.
   */
  lemma {:induction false} HolderKeepsLease(
    d: Db, ops: seq<Op>, job: string, id: nat, attempt: nat, owner: string, beat: Time, lease: int)
    requires Holds(d, job, id, attempt, owner, beat + lease * SECOND)
    requires InTime(ops, job, attempt, owner, beat, lease)
    ensures Holds(Run(d, ops), job, id, attempt, owner,
                  Deadline(ops, job, attempt, owner, beat + lease * SECOND))
    ensures forall i :: 0 <= i < |ops| && OnJob(ops[i], job) && !Beats(ops[i], job, attempt, owner) ==>
      Step(Run(d, ops[..i]), ops[i]).1 == Rejected
    decreases |ops|
  {
    if ops == [] { return; }
    hide Step, Run, Holds, InTime, Deadline;
    var op, rest := ops[0], ops[1..];
    assert ops == [op] + rest;
    FirstInTime(op, rest, job, attempt, owner, beat, lease);
    StepInTime(d, op, job, id, attempt, owner, beat, lease);
    var d' := Step(d, op).0;
    var (beat', lease') :=
      if Beats(op, job, attempt, owner) then (op.now, EffectiveLease(op.leaseSec)) else (beat, lease);
    HolderKeepsLease(d', rest, job, id, attempt, owner, beat', lease');
    RunCons(d, op, rest);
    DeadlineCons(op, rest, job, attempt, owner, beat + lease * SECOND);
    forall i | 0 <= i < |ops| && OnJob(ops[i], job) && !Beats(ops[i], job, attempt, owner)
      ensures Step(Run(d, ops[..i]), ops[i]).1 == Rejected
    {
      RunPrefix(d, op, rest, i);
    }
  }

  /**
   From the grant on: a worker whose claim or reclaim was granted, and whose beats come in time, has its
   Finalize applied exactly when it comes before the deadline of its last beat.
   */
  lemma TimelyFinalizeIsApplied(d: Db, grant: Op, ops: seq<Op>, fin: Op)
    requires (grant.Claim? || grant.Reclaim?) && Step(d, grant).1.Granted?
    requires var attempt := Step(d, grant).1.attempt;
      && InTime(ops, grant.job, attempt, grant.owner, grant.now, EffectiveLease(grant.leaseSec))
      && fin.Finalize? && fin.job == grant.job && fin.attempt == attempt && fin.owner == grant.owner
    ensures var attempt := Step(d, grant).1.attempt;
      var until := Deadline(ops, grant.job, attempt, grant.owner, LeaseEnd(grant.now, grant.leaseSec));
      Step(Run(Step(d, grant).0, ops), fin).1 == if fin.now < until then Applied else Rejected
  {
    hide Step, Run, InTime, Deadline;
    var d', attempt := Step(d, grant).0, Step(d, grant).1.attempt;
    GrantIsHeld(d, grant);
    var id := d'.rows[grant.job].id;
    HolderKeepsLease(d', ops, grant.job, id, attempt, grant.owner, grant.now, EffectiveLease(grant.leaseSec));
    FinalizeIsTimely(Run(d', ops), fin, id,
                     Deadline(ops, grant.job, attempt, grant.owner, LeaseEnd(grant.now, grant.leaseSec)));
  }

  lemma GrantIsHeld(d: Db, grant: Op)
    requires (grant.Claim? || grant.Reclaim?) && Step(d, grant).1.Granted?
    ensures var d' := Step(d, grant).0;
      && grant.job in d'.rows
      && Holds(d', grant.job, d'.rows[grant.job].id, Step(d, grant).1.attempt, grant.owner,
               LeaseEnd(grant.now, grant.leaseSec))
  {
  }

  lemma FinalizeIsTimely(d: Db, fin: Op, id: nat, until: Time)
    requires fin.Finalize? && fin.attempt >= 0 && Holds(d, fin.job, id, fin.attempt, fin.owner, until)
    ensures Step(d, fin).1 == if fin.now < until then Applied else Rejected
  {
  }

  /** What stays true of a row once its attempt counter has reached `attempt`. */
  predicate Reached(d: Db, job: string, id: nat, attempt: nat) {
    id < d.nextId && (job in d.rows && d.rows[job].id == id ==> attempt <= d.rows[job].attempt)
  }

  lemma {:induction false} ReachedForever(d: Db, ops: seq<Op>, job: string, id: nat, attempt: nat)
    requires Reached(d, job, id, attempt)
    ensures Reached(Run(d, ops), job, id, attempt)
    decreases |ops|
  {
    if ops != [] {
      ReachedForever(d, ops[..|ops| - 1], job, id, attempt);
    }
  }

  /**
   Once a Reclaim has granted an attempt, no Refresh and no Finalize with a smaller attempt ever takes
   effect on that row again, whatever runs in between.
   */
  lemma OlderAttemptsAreFenced(before: seq<Op>, reclaim: Op, between: seq<Op>, late: Op)
    requires reclaim.Reclaim? && Step(Run(EMPTY, before), reclaim).1.Granted?
    requires (late.Refresh? || late.Finalize?) && late.job == reclaim.job
    requires late.attempt < Step(Run(EMPTY, before), reclaim).1.attempt
    requires var d := Run(Step(Run(EMPTY, before), reclaim).0, between);
      late.job in d.rows ==> d.rows[late.job].id == Run(EMPTY, before).rows[reclaim.job].id
    ensures Step(Run(Step(Run(EMPTY, before), reclaim).0, between), late).1 == Rejected
  {
    hide Step, Run, Reached;
    var d, job := Run(EMPTY, before), reclaim.job;
    var (d', granted) := Step(d, reclaim);
    GrantedHasRow(d, reclaim);
    RowIsKnown(before, job);
    ReclaimReaches(d, reclaim);
    ReachedForever(d', between, job, d.rows[job].id, granted.attempt);
    LateIsRejected(Run(d', between), late, d.rows[job].id, granted.attempt);
  }

  lemma GrantedHasRow(d: Db, reclaim: Op)
    requires reclaim.Reclaim? && Step(d, reclaim).1.Granted?
    ensures reclaim.job in d.rows
  {
  }

  lemma RowIsKnown(ops: seq<Op>, job: string)
    requires job in Run(EMPTY, ops).rows
    ensures Run(EMPTY, ops).rows[job].id < Run(EMPTY, ops).nextId
  {
    hide Run, WorldAfter, LegalHistory, History, RowOk;
    WorldIsRun(ops);
    Reachable(ops);
    assert RowConsistent(WorldAfter(ops), WorldAfter(ops).db.rows[job]);
  }

  lemma ReclaimReaches(d: Db, reclaim: Op)
    requires reclaim.Reclaim? && reclaim.job in d.rows && d.rows[reclaim.job].id < d.nextId
    requires Step(d, reclaim).1.Granted?
    ensures Reached(Step(d, reclaim).0, reclaim.job, d.rows[reclaim.job].id, Step(d, reclaim).1.attempt)
  {
  }

  lemma LateIsRejected(d: Db, late: Op, id: nat, attempt: nat)
    requires (late.Refresh? || late.Finalize?) && late.attempt < attempt
    requires Reached(d, late.job, id, attempt) && (late.job in d.rows ==> d.rows[late.job].id == id)
    ensures Step(d, late).1 == Rejected
  {
  }
}
