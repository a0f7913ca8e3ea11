/**
 Fencing by job id. A job id can be given to a new row once its old row was collected, so a job may have had several
 rows; here their events are taken together.
 */
module JobFencing {
  import opened Options
  import opened Submissions
  import opened LeaseHistory
  import opened FencingSafety
  import opened Heartbeat

  type Entry = (nat, Event)

  /** Everything that took effect under one job id, each event with the row it happened to. */
  function JobLog(ops: seq<Op>, job: string): seq<Entry> {
    if ops == [] then []
    else
      var before, op := ops[..|ops| - 1], ops[|ops| - 1];
      JobLog(before, job) + if OnJob(op, job) then Log(WorldAfter(before).db, op) else []
  }

  /** What fencing promises for a job: one claim, one terminal write, every attempt id granted once, and the last
   write made under the largest of them. */
  ghost predicate JobFenced(log: seq<Entry>) {
    && (forall i, j :: 0 <= i < j < |log| && log[i].1.Claimed? ==> !log[j].1.Claimed?)
    && (forall i, j :: 0 <= i < j < |log| && IsTerminal(log[i].1) ==> !IsTerminal(log[j].1))
    && (forall i, j :: 0 <= i < j < |log| && IsGrant(log[i].1) && IsGrant(log[j].1) ==>
          log[i].1.attempt != log[j].1.attempt)
    && (forall i, j :: 0 <= i < |log| && 0 <= j < |log| && log[i].1.Finalized? && IsGrant(log[j].1) ==>
          log[j].1.attempt <= log[i].1.attempt)
  }

  /** Two rows of the job both reached this kind of event. */
  ghost predicate TwoRowsClaimed(log: seq<Entry>) {
    exists i, j :: 0 <= i < |log| && 0 <= j < |log| && log[i].0 != log[j].0 && log[i].1.Claimed? && log[j].1.Claimed?
  }

  ghost predicate TwoRowsFinished(log: seq<Entry>) {
    exists i, j ::
      0 <= i < |log| && 0 <= j < |log| && log[i].0 != log[j].0 && IsTerminal(log[i].1) && IsTerminal(log[j].1)
  }

  /** The log of a job holds all events of the row the job has, and for every row all of its events or none. */
  ghost predicate Belongs(w: World, log: seq<Entry>, job: string) {
    && (forall id :: History(log, id) == [] || History(log, id) == History(w.log, id))
    && (forall id :: id >= w.db.nextId ==> History(log, id) == [])
    && (forall j :: j in w.db.rows && j != job ==> History(log, w.db.rows[j].id) == [])
    && (job in w.db.rows ==> History(log, w.db.rows[job].id) == History(w.log, w.db.rows[job].id))
  }

  lemma JobLogStep(before: seq<Op>, op: Op, job: string)
    ensures JobLog(before + [op], job) ==
            JobLog(before, job) + if OnJob(op, job) then Log(WorldAfter(before).db, op) else []
    ensures WorldAfter(before + [op]) ==
            World(Step(WorldAfter(before).db, op).0, WorldAfter(before).log + Log(WorldAfter(before).db, op))
  {
    hide Log, Step;
    assert (before + [op])[..|before|] == before;
  }

  lemma {:induction false} AlwaysBelongs(ops: seq<Op>, job: string)
    ensures Belongs(WorldAfter(ops), JobLog(ops, job), job)
    decreases |ops|
  {
    hide Belongs, Consistent, Log, Step, OnJob;
    if ops == [] {
      NothingBelongs(job);
    } else {
      var before, op := ops[..|ops| - 1], ops[|ops| - 1];
      assert ops == before + [op];
      AlwaysBelongs(before, job);
      Reachable(before);
      JobLogStep(before, op, job);
      StepKeepsBelonging(WorldAfter(before), JobLog(before, job), op, job);
    }
  }

  lemma NothingBelongs(job: string)
    ensures Belongs(World(EMPTY, []), [], job)
  {
  }

  lemma StepKeepsBelonging(w: World, log: seq<Entry>, op: Op, job: string)
    requires Belongs(w, log, job) && Consistent(w)
    ensures Belongs(World(Step(w.db, op).0, w.log + Log(w.db, op)),
                    log + if OnJob(op, job) then Log(w.db, op) else [], job)
  {
    hide History, RowConsistent, LegalHistory, OnJob, Log, Step;
    if Log(w.db, op) == [] {
      NothingLogged(w.db, op);
      assert w.log + [] == w.log && log + [] == log;
    } else {
      var id, e := SomethingLogged(w.db, op);
      RowsAreKnown(w);
      HistoryAppend(w.log, id, e);
      HistoryAppend(log, id, e);
      if op.job == job {
        assert History(log, id) == History(w.log, id);
      } else {
        assert History(log, id) == [] && log + [] == log;
      }
    }
  }

  lemma RowsAreKnown(w: World)
    requires Consistent(w)
    ensures forall job :: job in w.db.rows ==> w.db.rows[job].id < w.db.nextId
    ensures forall id :: id >= w.db.nextId ==> History(w.log, id) == []
  {
    hide LegalHistory, History, RowOk;
    forall job | job in w.db.rows
      ensures w.db.rows[job].id < w.db.nextId
    {
      assert RowConsistent(w, w.db.rows[job]);
    }
  }

  /** A statement that took effect touched the one row of its job, or made a new one. */
  lemma SomethingLogged(d: Db, op: Op) returns (id: nat, e: Event)
    requires Log(d, op) != []
    ensures Log(d, op) == [(id, e)]
    ensures var d' := Step(d, op).0;
      && !op.DeleteDone? && (forall job :: OnJob(op, job) <==> job == op.job)
      && (if op.job in d.rows then id == d.rows[op.job].id && d'.nextId == d.nextId
          else id == d.nextId && d'.nextId == id + 1)
      && op.job in d'.rows && d'.rows[op.job].id == id
      && (forall job :: job != op.job ==>
            (job in d'.rows <==> job in d.rows) && (job in d.rows ==> d'.rows[job] == d.rows[job]))
  {
    hide Guard;
    var entry := Log(d, op)[0];
    id, e := entry.0, entry.1;
  }

  lemma NothingLogged(d: Db, op: Op)
    requires Log(d, op) == []
    ensures Step(d, op).0.nextId == d.nextId
    ensures forall job :: job in Step(d, op).0.rows ==>
      job in d.rows && Step(d, op).0.rows[job] == d.rows[job]
  {
  }

  /** An entry of a log is an event of its row's history, at the place its predecessors leave. */
  lemma {:induction false} EntryInHistory(log: seq<Entry>, i: nat) returns (p: nat)
    requires i < |log|
    ensures p == |History(log[..i], log[i].0)| < |History(log, log[i].0)|
    ensures History(log, log[i].0)[p] == log[i].1
    decreases |log|
  {
    var shorter := log[..|log| - 1];
    if i == |log| - 1 {
      p := |History(shorter, log[i].0)|;
    } else {
      assert shorter[..i] == log[..i];
      p := EntryInHistory(shorter, i);
    }
  }

  lemma {:induction false} HistoryGrows(log: seq<Entry>, id: nat, i: nat, j: nat)
    requires i <= j <= |log|
    ensures |History(log[..i], id)| <= |History(log[..j], id)|
    decreases j
  {
    if i < j {
      assert log[..j][..j - 1] == log[..j - 1];
      HistoryGrows(log, id, i, j - 1);
    }
  }

  /** Two entries of one row come in the same order in its history. */
  lemma EntriesInOrder(log: seq<Entry>, i: nat, j: nat) returns (p: nat, q: nat)
    requires i < j < |log| && log[i].0 == log[j].0
    ensures p < q < |History(log, log[i].0)|
    ensures History(log, log[i].0)[p] == log[i].1 && History(log, log[i].0)[q] == log[j].1
  {
    hide History;
    p := EntryInHistory(log, i);
    q := EntryInHistory(log, j);
    HistoryGrows(log, log[i].0, i + 1, j);
    HistoryEndsWith(log, i);
  }

  lemma HistoryEndsWith(log: seq<Entry>, i: nat)
    requires i < |log|
    ensures |History(log[..i + 1], log[i].0)| == |History(log[..i], log[i].0)| + 1
  {
    assert log[..i + 1][..i] == log[..i];
  }

  /** Each row of a job is fenced, and what was granted on it began with a Claim of attempt 1. */
  lemma RowOfJob(ops: seq<Op>, job: string, i: nat)
    requires i < |JobLog(ops, job)|
    ensures var log := JobLog(ops, job); Fenced(History(log, log[i].0)) && LegalHistory(History(log, log[i].0))
  {
    hide JobLog, History, Fenced, LegalHistory;
    var log := JobLog(ops, job);
    AlwaysBelongs(ops, job);
    Reachable(ops);
    var p := EntryInHistory(log, i);
    FencingHolds(ops, log[i].0);
    assert History(log, log[i].0) == History(WorldAfter(ops).log, log[i].0);
  }

  /** The first grant of a legal history is a Claim. */
  lemma {:induction false} GrantsBeginWithClaim(h: seq<Event>, k: nat) returns (c: nat)
    requires LegalHistory(h) && k < |h| && IsGrant(h[k])
    ensures c <= k && h[c].Claimed?
  {
    if h[k].Claimed? {
      c := k;
    } else {
      LegalPrefix(h, k + 1);
      assert h[..k + 1][..k] == h[..k];
      c := HeldWasClaimed(h[..k]);
    }
  }

  lemma {:induction false} HeldWasClaimed(h: seq<Event>) returns (c: nat)
    requires LegalHistory(h) && After(h).phase.Held?
    ensures c < |h| && h[c].Claimed?
    decreases |h|
  {
    if h[|h| - 1].Claimed? {
      c := |h| - 1;
    } else {
      c := HeldWasClaimed(h[..|h| - 1]);
    }
  }

  lemma {:induction false} EntryOfHistory(log: seq<Entry>, id: nat, c: nat) returns (i: nat)
    requires c < |History(log, id)|
    ensures i < |log| && log[i] == (id, History(log, id)[c])
    decreases |log|
  {
    var shorter := log[..|log| - 1];
    if c < |History(shorter, id)| {
      i := EntryOfHistory(shorter, id, c);
    } else {
      i := |log| - 1;
    }
  }

  /** A row on which anything was granted, or finalized, was claimed before. */
  lemma RowWasClaimed(ops: seq<Op>, job: string, i: nat) returns (c: nat)
    requires i < |JobLog(ops, job)|
    requires IsGrant(JobLog(ops, job)[i].1) || JobLog(ops, job)[i].1.Finalized?
    ensures c < |JobLog(ops, job)| && JobLog(ops, job)[c].0 == JobLog(ops, job)[i].0 && JobLog(ops, job)[c].1.Claimed?
  {
    hide JobLog, History, LegalHistory, Fenced;
    var log := JobLog(ops, job);
    var id := log[i].0;
    RowOfJob(ops, job, i);
    var p := EntryInHistory(log, i);
    var h := History(log, id);
    var k: nat;
    if IsGrant(h[p]) {
      k := GrantsBeginWithClaim(h, p);
    } else {
      FinalizedWasHeld(h, p);
      k := HeldWasClaimed(h[..p]);
      assert h[..p][k] == h[k];
    }
    c := EntryOfHistory(log, id, k);
  }

  lemma FinalizedWasHeld(h: seq<Event>, p: nat)
    requires LegalHistory(h) && p < |h| && h[p].Finalized?
    ensures LegalHistory(h[..p]) && After(h[..p]).phase.Held?
  {
    LegalPrefix(h, p + 1);
    assert h[..p + 1][..p] == h[..p];
  }

  /** In one legal history no grant exceeds the attempt a Finalize was made under. */
  lemma FinalizedIsLargest(h: seq<Event>, p: nat, q: nat)
    requires LegalHistory(h) && Fenced(h) && p < |h| && q < |h| && h[p].Finalized? && IsGrant(h[q])
    ensures h[q].attempt <= h[p].attempt
  {
    hide LegalHistory, Grants;
    GrantNumber(h, q);
    GrantsGrow(h, q + 1);
  }

  lemma SameRowIsFenced(ops: seq<Op>, job: string, i: nat, j: nat)
    requires i < j < |JobLog(ops, job)| && JobLog(ops, job)[i].0 == JobLog(ops, job)[j].0
    ensures var a, b := JobLog(ops, job)[i].1, JobLog(ops, job)[j].1;
      && (a.Claimed? ==> !b.Claimed?)
      && (IsTerminal(a) ==> !IsTerminal(b))
      && (IsGrant(a) && IsGrant(b) ==> a.attempt < b.attempt)
      && (a.Finalized? && IsGrant(b) ==> b.attempt <= a.attempt)
      && (b.Finalized? && IsGrant(a) ==> a.attempt <= b.attempt)
  {
    hide JobLog, History, LegalHistory;
    var log := JobLog(ops, job);
    RowOfJob(ops, job, i);
    var p, q := EntriesInOrder(log, i, j);
    var h := History(log, log[i].0);
    if h[p].Finalized? && IsGrant(h[q]) {
      FinalizedIsLargest(h, p, q);
    }
    if h[q].Finalized? && IsGrant(h[p]) {
      FinalizedIsLargest(h, q, p);
    }
  }

  /** On different rows, grants and finalizations of a job bear witness to two claimed rows. */
  lemma OtherRowsWereClaimed(ops: seq<Op>, job: string, i: nat, j: nat)
    requires i < |JobLog(ops, job)| && j < |JobLog(ops, job)| && JobLog(ops, job)[i].0 != JobLog(ops, job)[j].0
    requires IsGrant(JobLog(ops, job)[i].1) || JobLog(ops, job)[i].1.Finalized?
    requires IsGrant(JobLog(ops, job)[j].1)
    ensures TwoRowsClaimed(JobLog(ops, job))
  {
    hide JobLog;
    var c := RowWasClaimed(ops, job, i);
    var d := RowWasClaimed(ops, job, j);
  }

  /**
   A job is fenced, over every run and across all its rows, if and only if no two of its rows were both claimed and
   no two were both finished.
   */
  lemma JobFencedIff(ops: seq<Op>, job: string)
    ensures JobFenced(JobLog(ops, job)) <==>
            !TwoRowsClaimed(JobLog(ops, job)) && !TwoRowsFinished(JobLog(ops, job))
  {
    hide JobLog;
    var log := JobLog(ops, job);
    if !TwoRowsClaimed(log) && !TwoRowsFinished(log) {
      forall i, j | 0 <= i < j < |log|
        ensures log[i].1.Claimed? ==> !log[j].1.Claimed?
        ensures IsTerminal(log[i].1) ==> !IsTerminal(log[j].1)
        ensures IsGrant(log[i].1) && IsGrant(log[j].1) ==> log[i].1.attempt != log[j].1.attempt
      {
        PairIsFenced(ops, job, i, j);
      }
      forall i, j | 0 <= i < |log| && 0 <= j < |log| && log[i].1.Finalized? && IsGrant(log[j].1)
        ensures log[j].1.attempt <= log[i].1.attempt
      {
        if i < j {
          PairIsFenced(ops, job, i, j);
        } else {
          PairIsFenced(ops, job, j, i);
        }
      }
    }
  }

  lemma PairIsFenced(ops: seq<Op>, job: string, i: nat, j: nat)
    requires i < j < |JobLog(ops, job)|
    requires !TwoRowsClaimed(JobLog(ops, job)) && !TwoRowsFinished(JobLog(ops, job))
    ensures var a, b := JobLog(ops, job)[i].1, JobLog(ops, job)[j].1;
      && (a.Claimed? ==> !b.Claimed?)
      && (IsTerminal(a) ==> !IsTerminal(b))
      && (IsGrant(a) && IsGrant(b) ==> a.attempt != b.attempt)
      && (a.Finalized? && IsGrant(b) ==> b.attempt <= a.attempt)
      && (b.Finalized? && IsGrant(a) ==> a.attempt <= b.attempt)
  {
    hide JobLog;
    var log := JobLog(ops, job);
    if log[i].0 == log[j].0 {
      SameRowIsFenced(ops, job, i, j);
    } else {
      var a, b := log[i].1, log[j].1;
      if (IsGrant(a) || a.Finalized?) && IsGrant(b) {
        OtherRowsWereClaimed(ops, job, i, j);
      } else if IsGrant(a) && b.Finalized? {
        OtherRowsWereClaimed(ops, job, j, i);
      }
    }
  }

  /** How often a Create on the job id took effect. */
  function Births(ops: seq<Op>, job: string): nat {
    if ops == [] then 0
    else
      var before, op := ops[..|ops| - 1], ops[|ops| - 1];
      Births(before, job)
      + if op.Create? && op.job == job && Step(Run(EMPTY, before), op).1 == Applied then 1 else 0
  }

  /** All entries of a job name one row when only one was ever made; `id` is that row. */
  ghost predicate OneRow(ops: seq<Op>, job: string, id: nat) {
    && (forall i :: 0 <= i < |JobLog(ops, job)| ==> JobLog(ops, job)[i].0 == id)
    && (job in WorldAfter(ops).db.rows ==> WorldAfter(ops).db.rows[job].id == id)
  }

  /** Before the job's first Create took effect it has no row and no events. */
  ghost predicate Unborn(ops: seq<Op>, job: string) {
    JobLog(ops, job) == [] && job !in WorldAfter(ops).db.rows
  }

  lemma {:induction false} BornOnceIsOneRow(ops: seq<Op>, job: string) returns (id: nat)
    requires Births(ops, job) <= 1
    ensures OneRow(ops, job, id)
    ensures Births(ops, job) == 0 ==> Unborn(ops, job)
    decreases |ops|
  {
    hide OneRow, Births, Unborn;
    if ops == [] {
      id := 0;
      NeverBorn(job, id);
    } else {
      var before, op := ops[..|ops| - 1], ops[|ops| - 1];
      assert ops == before + [op];
      BirthsStep(before, op, job);
      id := BornOnceIsOneRow(before, job);
      id := BornStep(before, op, job, id);
    }
  }

  lemma NeverBorn(job: string, id: nat)
    ensures OneRow([], job, id) && Unborn([], job)
  {
  }

  /** Whether one more statement makes a row for the job. */
  predicate GivesBirth(d: Db, op: Op, job: string) {
    op.Create? && op.job == job && job !in d.rows
  }

  lemma BirthsStep(before: seq<Op>, op: Op, job: string)
    ensures Births(before + [op], job) ==
            Births(before, job) + if GivesBirth(WorldAfter(before).db, op, job) then 1 else 0
  {
    hide Run, WorldAfter, Guard;
    assert (before + [op])[..|before|] == before;
    WorldIsRun(before);
  }

  lemma BornStep(before: seq<Op>, op: Op, job: string, was: nat) returns (id: nat)
    requires OneRow(before, job, was)
    requires GivesBirth(WorldAfter(before).db, op, job) ==> Unborn(before, job)
    ensures OneRow(before + [op], job, id)
    ensures Unborn(before, job) && !GivesBirth(WorldAfter(before).db, op, job) ==> Unborn(before + [op], job)
  {
    hide JobLog, WorldAfter, Step, Log;
    JobLogStep(before, op, job);
    BirthStep(before, op, job);
    var d := WorldAfter(before).db;
    id := if GivesBirth(d, op, job) then d.nextId else was;
  }

  lemma BirthStep(before: seq<Op>, op: Op, job: string)
    ensures var d := WorldAfter(before).db;
      && (OnJob(op, job) && !op.Create? && Log(d, op) != [] ==> job in d.rows && Log(d, op)[0].0 == d.rows[job].id)
      && |Log(d, op)| <= 1
      && (OnJob(op, job) && !op.Create? && job !in d.rows ==> Log(d, op) == [])
      && (op.Create? && op.job == job ==> (Step(d, op).1 == Applied <==> job !in d.rows))
      && (op.Create? && op.job == job && job !in d.rows ==> Log(d, op)[0].0 == d.nextId)
      && (op.Create? && op.job == job && job in d.rows ==> Log(d, op) == [])
      && (job in Step(d, op).0.rows ==>
            if job in d.rows then Step(d, op).0.rows[job].id == d.rows[job].id
            else op.Create? && op.job == job && Step(d, op).0.rows[job].id == d.nextId)
  {
    hide WorldAfter, Guard;
  }

  /** Job ids that are made afresh for every submission, as the handlers make them, keep every job fenced. */
  lemma BornOnceIsFenced(ops: seq<Op>, job: string)
    requires Births(ops, job) <= 1
    ensures JobFenced(JobLog(ops, job))
  {
    hide JobLog, Births;
    JobFencedIff(ops, job);
    var id := BornOnceIsOneRow(ops, job);
  }
}
