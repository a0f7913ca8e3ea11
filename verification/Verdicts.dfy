/** What a finished submission reads: the verdict of the one statement that finished it, for as long as it exists. */
module Verdicts {
  import opened Options
  import opened Submissions

  predicate Finishes(op: Op) {
    op.Finalize? || op.ResultIfNotDone? || op.Poison?
  }

  /** The row carries what this statement was called with, each argument in its own column. */
  predicate Carries(r: Row, op: Op)
    requires Finishes(op)
  {
    && r.state == "done"
    && match op
       case Finalize(_, _, _, status, result, _) => r.status == status && r.result == Some(result)
       case ResultIfNotDone(_, status, result, _) => r.status == status && r.result == Some(result)
       case Poison(_, code, message, _) =>
         r.status == "System Error" && r.errorCode == Some(code) && r.errorMessage == Some(message)
  }

  lemma FinisherIsCarried(d: Db, op: Op)
    requires Finishes(op) && Step(d, op).1 == Applied
    ensures var d' := Step(d, op).0;
      op.job in d.rows && op.job in d'.rows && d'.rows[op.job].id == d.rows[op.job].id && Carries(d'.rows[op.job], op)
  {
  }

  /** No statement touches a finished row, except to delete it. */
  lemma StepLeavesDone(d: Db, op: Op, job: string)
    requires job in d.rows && d.rows[job].state == "done"
    ensures job in Step(d, op).0.rows ==> Step(d, op).0.rows[job] == d.rows[job]
    ensures Step(d, op).0.nextId >= d.nextId
  {
  }

  /** The row of this id and job, if it is still there, reads as it did when it was finished. */
  predicate Settled(d: Db, job: string, r: Row) {
    r.id < d.nextId && r.state == "done" && (job in d.rows && d.rows[job].id == r.id ==> d.rows[job] == r)
  }

  lemma StepKeepsSettled(d: Db, op: Op, job: string, r: Row)
    requires Settled(d, job, r)
    ensures Settled(Step(d, op).0, job, r)
  {
    hide Guard;
    if job in d.rows && d.rows[job].state == "done" {
      StepLeavesDone(d, op, job);
    }
  }

  lemma {:induction false} SettledForever(d: Db, ops: seq<Op>, job: string, r: Row)
    requires Settled(d, job, r)
    ensures Settled(Run(d, ops), job, r)
    decreases |ops|
  {
    hide Step, Settled;
    if ops != [] {
      SettledForever(d, ops[..|ops| - 1], job, r);
      StepKeepsSettled(Run(d, ops[..|ops| - 1]), ops[|ops| - 1], job, r);
    }
  }

  lemma {:induction false} IdsAreKnown(ops: seq<Op>)
    ensures forall job :: job in Run(EMPTY, ops).rows ==> Run(EMPTY, ops).rows[job].id < Run(EMPTY, ops).nextId
    decreases |ops|
  {
    if ops != [] {
      var d := Run(EMPTY, ops[..|ops| - 1]);
      IdsAreKnown(ops[..|ops| - 1]);
      hide Run;
      StepKnowsIds(d, ops[|ops| - 1]);
    }
  }

  lemma StepKnowsIds(d: Db, op: Op)
    requires forall job :: job in d.rows ==> d.rows[job].id < d.nextId
    ensures forall job :: job in Step(d, op).0.rows ==> Step(d, op).0.rows[job].id < Step(d, op).0.nextId
  {
    hide Guard;
  }

  /**
   Whatever ran before, and whatever runs afterwards with whatever arguments: as long as the row that an applied
   Finalize, ResultIfNotDone or Poison finished is in the table, it carries exactly that call's verdict.
   */
  lemma VerdictStays(before: seq<Op>, op: Op, after: seq<Op>)
    requires Finishes(op) && Step(Run(EMPTY, before), op).1 == Applied
    ensures var d := Run(EMPTY, before);
      var d' := Run(Step(d, op).0, after);
      && op.job in d.rows
      && (op.job in d'.rows && d'.rows[op.job].id == d.rows[op.job].id ==> Carries(d'.rows[op.job], op))
  {
    hide Step, Run, Carries;
    var d := Run(EMPTY, before);
    FinisherIsCarried(d, op);
    var r := Step(d, op).0.rows[op.job];
    IdsAreKnown(before + [op]);
    RunSnoc(EMPTY, before, op);
    CarriedIsDone(r, op);
    SettledForever(Step(d, op).0, after, op.job, r);
  }

  lemma CarriedIsDone(r: Row, op: Op)
    requires Finishes(op) && Carries(r, op)
    ensures r.state == "done"
  {
  }

  /** And the converse: every finished row carries the verdict of a statement of the run that was applied to it. */
  lemma {:induction false} DoneRowHasItsVerdict(ops: seq<Op>, job: string) returns (i: nat)
    requires job in Run(EMPTY, ops).rows && Run(EMPTY, ops).rows[job].state == "done"
    ensures i < |ops| && !ops[i].DeleteDone? && ops[i].job == job && Step(Run(EMPTY, ops[..i]), ops[i]).1 == Applied
    ensures var r := Run(EMPTY, ops).rows[job];
      if ops[i].Create? then ops[i].state == "done" && r.status == ops[i].status
      else Finishes(ops[i]) && Carries(r, ops[i])
    decreases |ops|
  {
    hide Step, Carries;
    var before, op := ops[..|ops| - 1], ops[|ops| - 1];
    var d := Run(EMPTY, before);
    if job in d.rows && d.rows[job].state == "done" {
      StepLeavesDone(d, op, job);
      i := DoneRowHasItsVerdict(before, job);
      assert before[..i] == ops[..i];
    } else {
      i := |ops| - 1;
      NewlyDone(d, op, job);
    }
  }

  lemma NewlyDone(d: Db, op: Op, job: string)
    requires job in Step(d, op).0.rows && Step(d, op).0.rows[job].state == "done"
    requires job in d.rows ==> d.rows[job].state != "done"
    ensures !op.DeleteDone? && op.job == job && Step(d, op).1 == Applied
    ensures var r := Step(d, op).0.rows[job];
      if op.Create? then op.state == "done" && r.status == op.status else Finishes(op) && Carries(r, op)
  {
  }
}
