/**
 The two statements that look again after a failed UPDATE: the reject reason of a fenced Finalize and
 the decision of a Reclaim. Other sessions may run between the UPDATE and the SELECT.
 */
module FinalizeReasons {
  import opened Options
  import opened GoStrings
  import opened Submissions
  import opened LeaseHistory
  import opened FencingSafety
  import opened Heartbeat

  datatype Reason = OK | StaleAttempt | AlreadyFinished | NotInExpectedState | LeaseLostOrOwnerMismatch

  datatype FinalizeFenceResult = FinalizeFenceResult(
    applied: bool,
    reason: Reason,
    dbAttempt: int,
    dbStatus: string,
    dbState: string,
    dbOwner: string,
    dbUntil: Option<Time>)

  datatype Decision = DecisionClaimed | DoneOrStale | LeaseStillValid | NotFound

  const TERMINAL_STATUSES: set<string> := {
    "finished", "accepted", "wrong answer", "compile error", "system error", "time limit",
    "time limit exceeded", "memory limit", "memory limit exceeded", "output limit",
    "output limit exceeded", "runtime error"
  }

  predicate SaysFinished(r: Row) {
    Normalise(r.state) == "done" || Normalise(r.status) in TERMINAL_STATUSES
  }

  predicate SaysRunning(r: Row) {
    Normalise(r.status) == "running" && Normalise(r.state) == "processing"
  }

  predicate LeaseLooksLost(r: Row, owner: string, clock: Time) {
    || (TrimSpace(owner) != "" && TrimSpace(r.owner.GetOr("")) != TrimSpace(owner))
    || r.until.None?
    || r.until.value <= clock
  }

  /** The reason reported for a row that the SELECT found. */
  function RejectReason(r: Row, attempt: int, owner: string, clock: Time): Reason {
    if r.attempt > attempt then StaleAttempt
    else if SaysFinished(r) then AlreadyFinished
    else if !SaysRunning(r) then NotInExpectedState
    else if LeaseLooksLost(r, owner, clock) then LeaseLostOrOwnerMismatch
    else NotInExpectedState
  }

  /** The classifier ran off its end: every test it makes passed. */
  predicate FallsThrough(r: Row, attempt: int, owner: string, clock: Time) {
    r.attempt <= attempt && !SaysFinished(r) && SaysRunning(r) && !LeaseLooksLost(r, owner, clock)
  }

  function Lookup(d: Db, job: string): Option<Row> {
    if job in d.rows then Some(d.rows[job]) else None
  }

  function RejectResult(row: Option<Row>, attempt: int, owner: string, clock: Time): FinalizeFenceResult {
    match row
    case None => FinalizeFenceResult(false, NotInExpectedState, 0, "", "", "", None)
    case Some(r) =>
      FinalizeFenceResult(false, RejectReason(r, attempt, owner, clock),
                          r.attempt, r.status, r.state, r.owner.GetOr(""), r.until)
  }

  method GetFinalizeFenceRejectReason(store: SubmissionStore, job: string, attempt: int, owner: string, clock: Time)
    returns (reject: FinalizeFenceResult)
    ensures reject == RejectResult(Lookup(store.State(), job), attempt, owner, clock)
    ensures !reject.applied
    ensures job in store.rows ==>
      var row := store.rows[job];
      && reject.dbAttempt == row.attempt && reject.dbStatus == row.status && reject.dbState == row.state
      && reject.dbOwner == row.owner.GetOr("") && reject.dbUntil == row.until
    ensures job !in store.rows ==> reject == FinalizeFenceResult(false, NotInExpectedState, 0, "", "", "", None)
    ensures job in store.rows ==>
      var row := store.rows[job];
      && (reject.reason == StaleAttempt <==> row.attempt > attempt)
      && (reject.reason == AlreadyFinished <==> row.attempt <= attempt && SaysFinished(row))
      && (reject.reason == LeaseLostOrOwnerMismatch <==>
            && row.attempt <= attempt && !SaysFinished(row)
            && Normalise(row.status) == "running" && Normalise(row.state) == "processing"
            && (row.until == None || row.until.value <= clock
                || (TrimSpace(owner) != "" && TrimSpace(row.owner.GetOr("")) != TrimSpace(owner))))
      && reject.reason != OK
  {
    hide Normalise, TrimSpace;
    reject := FinalizeFenceResult(false, NotInExpectedState, 0, "", "", "", None);
    if job !in store.rows {
      return;
    }
    var row := store.rows[job];
    reject := reject.(dbAttempt := row.attempt, dbStatus := row.status, dbState := row.state);
    if row.owner.Some? {
      reject := reject.(dbOwner := row.owner.value);
    }
    reject := reject.(dbUntil := row.until);
    var statusLower, stateLower := Normalise(row.status), Normalise(row.state);
    if row.attempt > attempt {
      reject := reject.(reason := StaleAttempt);
      return;
    }
    if stateLower == "done" || statusLower in TERMINAL_STATUSES {
      reject := reject.(reason := AlreadyFinished);
      return;
    }
    if statusLower != "running" || stateLower != "processing" {
      return;
    }
    var ownerMismatch := TrimSpace(owner) != "" && TrimSpace(reject.dbOwner) != TrimSpace(owner);
    var expiredOrMissing := row.until == None || !(row.until.value > clock);
    if ownerMismatch || expiredOrMissing {
      reject := reject.(reason := LeaseLostOrOwnerMismatch);
    }
  }

  /** UPDATE, then, if no row matched, SELECT; `between` is what other sessions do in the meantime. */
  method FinalizeSubmissionWithFence(
    store: SubmissionStore, job: string, attempt: int, owner: string, status: string, result: string,
    now: Time, between: seq<Op>, clock: Time)
    returns (r: FinalizeFenceResult)
    modifies store
    ensures var (d, outcome) := Step(old(store.State()), Finalize(job, attempt, owner, status, result, now));
      && r.applied == outcome.Applied?
      && (r.applied ==> r.reason == OK && store.State() == d)
      && (r.applied ==>
            && job in store.rows && store.rows[job].state == "done"
            && store.rows[job].status == status && store.rows[job].result == Some(result)
            && store.rows[job].owner == None && store.rows[job].until == None)
      && (!r.applied ==>
            && store.State() == Run(old(store.State()), between)
            && r == RejectResult(Lookup(store.State(), job), attempt, owner, clock))
  {
    var ok := store.FinalizeUpdate(job, attempt, owner, status, result, now);
    if ok {
      return FinalizeFenceResult(true, OK, 0, "", "", "", None);
    }
    store.Interfere(between);
    r := GetFinalizeFenceRejectReason(store, job, attempt, owner, clock);
  }

  function InspectDecision(row: Option<Row>, clock: Time): Decision {
    match row
    case None => NotFound
    case Some(r) =>
      if Normalise(r.state) == "done" || Normalise(r.status) == "finished" then DoneOrStale
      else if SaysRunning(r) && r.until.Some? && r.until.value > clock then LeaseStillValid
      else DoneOrStale
  }

  method ReclaimSubmissionForRun(
    store: SubmissionStore, job: string, owner: string, leaseSec: int, now: Time, between: seq<Op>, clock: Time)
    returns (attempt: nat, decision: Decision)
    modifies store
    ensures var (d, outcome) := Step(old(store.State()), Reclaim(job, owner, leaseSec, now));
      && (decision.DecisionClaimed? <==> outcome.Granted?)
      && (decision.DecisionClaimed? ==> outcome == Granted(attempt) && store.State() == d)
      && (!decision.DecisionClaimed? ==>
            && attempt == 0
            && store.State() == Run(old(store.State()), between)
            && decision == InspectDecision(Lookup(store.State(), job), clock))
    ensures decision.NotFound? ==> job !in store.rows
    ensures !decision.DecisionClaimed? && job !in store.rows ==> decision.NotFound?
  {
    hide Normalise, Run;
    var ok;
    attempt, ok := store.ReclaimUpdate(job, owner, leaseSec, now);
    if ok {
      return attempt, DecisionClaimed;
    }
    store.Interfere(between);
    if job !in store.rows {
      return 0, NotFound;
    }
    var status, state := Normalise(store.rows[job].status), Normalise(store.rows[job].state);
    var until := store.rows[job].until;
    if state == "done" || status == "finished" {
      return 0, DoneOrStale;
    }
    if status == "running" && state == "processing" {
      if until != None && until.value > clock {
        return 0, LeaseStillValid;
      }
      return 0, DoneOrStale;
    }
    return 0, DoneOrStale;
  }

  // ----- When a rejected token can still succeed later -----

  /** No continuation of the run lets this attempt id finalize this row. */
  ghost predicate Irrevocable(d: Db, job: string, attempt: int)
    requires job in d.rows
  {
    forall ops: seq<Op>, fin: Op ::
      fin.Finalize? && fin.job == job && fin.attempt == attempt && SameRow(d, Run(d, ops), job) ==>
        Step(Run(d, ops), fin).1 == Rejected
  }

  predicate SameRow(d: Db, d': Db, job: string)
    requires job in d.rows
  {
    job in d'.rows && d'.rows[job].id == d.rows[job].id
  }

  /** The token is spent: the row is past it, or will skip it. */
  predicate Dead(l: Lease, attempt: int) {
    match l.phase
    case Waiting => attempt <= l.attempt
    case Held(_, _) => attempt < l.attempt
    case Finished => true
    case Inert => true
  }

  predicate DeadOrGone(d: Db, job: string, id: nat, attempt: int) {
    && id < d.nextId
    && (job in d.rows && d.rows[job].id == id ==>
          RowOk(d.rows[job]) && Dead(LeaseOf(d.rows[job]), attempt))
  }

  lemma {:induction false} DeadForever(d: Db, ops: seq<Op>, job: string, id: nat, attempt: int)
    requires DeadOrGone(d, job, id, attempt)
    ensures DeadOrGone(Run(d, ops), job, id, attempt)
    decreases |ops|
  {
    if ops != [] {
      var d', op := Run(d, ops[..|ops| - 1]), ops[|ops| - 1];
      DeadForever(d, ops[..|ops| - 1], job, id, attempt);
      if Heartbeat.OnJob(op, job) && !op.Create? && job in d'.rows && d'.rows[job].id == id {
        StatementsRefineLease(d'.rows[job], op);
      }
    }
  }

  /** A held row whose attempt is not above the token's can be brought to accept it. */
  lemma HeldTokenCanFinish(d: Db, job: string, attempt: int) returns (ops: seq<Op>, fin: Op)
    requires job in d.rows && LeaseOf(d.rows[job]).phase.Held? && d.rows[job].attempt <= attempt
    ensures fin.Finalize? && fin.job == job && fin.attempt == attempt
    ensures SameRow(d, Run(d, ops), job) && Step(Run(d, ops), fin).1 == Applied
    decreases attempt - d.rows[job].attempt
  {
    var r := d.rows[job];
    var Held(owner, until) := LeaseOf(r).phase;
    if r.attempt == attempt {
      ops, fin := [], Finalize(job, attempt, owner, "", "", until - 1);
    } else {
      var op := Reclaim(job, owner, 1, until + 1);
      ops, fin := HeldTokenCanFinish(Step(d, op).0, job, attempt);
      RunCons(d, op, ops);
      ops := [op] + ops;
    }
  }

  lemma DeadIsIrrevocable(d: Db, job: string, attempt: int, ops: seq<Op>, fin: Op)
    requires job in d.rows && d.rows[job].id < d.nextId && RowOk(d.rows[job])
    requires Dead(LeaseOf(d.rows[job]), attempt)
    requires fin.Finalize? && fin.job == job && fin.attempt == attempt && SameRow(d, Run(d, ops), job)
    ensures Step(Run(d, ops), fin).1 == Rejected
  {
    DeadForever(d, ops, job, d.rows[job].id, attempt);
    StatementsRefineLease(Run(d, ops).rows[job], fin);
  }

  lemma LiveIsRevocable(d: Db, job: string, attempt: int) returns (ops: seq<Op>, fin: Op)
    requires job in d.rows && !Dead(LeaseOf(d.rows[job]), attempt)
    ensures fin.Finalize? && fin.job == job && fin.attempt == attempt
    ensures SameRow(d, Run(d, ops), job) && Step(Run(d, ops), fin).1 == Applied
  {
    if LeaseOf(d.rows[job]).phase.Waiting? {
      var op := Claim(job, "", 1, 0);
      ops, fin := HeldTokenCanFinish(Step(d, op).0, job, attempt);
      RunCons(d, op, ops);
      ops := [op] + ops;
    } else {
      ops, fin := HeldTokenCanFinish(d, job, attempt);
    }
  }

  /** Exactly when a token that did not succeed is lost for good, on every reachable row. */
  lemma IrrevocableIffDead(run: seq<Op>, job: string, attempt: int)
    requires job in Run(EMPTY, run).rows
    ensures var d := Run(EMPTY, run);
      Irrevocable(d, job, attempt) <==> Dead(LeaseOf(d.rows[job]), attempt)
  {
    WorldIsRun(run);
    Reachable(run);
    var d := Run(EMPTY, run);
    assert RowConsistent(WorldAfter(run), d.rows[job]);
    hide Step, Run, RowOk, LeaseOf, Dead;
    if Dead(LeaseOf(d.rows[job]), attempt) {
      forall ops: seq<Op>, fin: Op
        | fin.Finalize? && fin.job == job && fin.attempt == attempt && SameRow(d, Run(d, ops), job)
        ensures Step(Run(d, ops), fin).1 == Rejected
      {
        DeadIsIrrevocable(d, job, attempt, ops, fin);
      }
    } else {
      var ops, fin := LiveIsRevocable(d, job, attempt);
      assert Step(Run(d, ops), fin).1 != Rejected;
    }
  }

  /**
   `stale_attempt` is irrevocable. `already_finished` is too, except for one family: a row created pending
   under a status that already reads as terminal, tried with an attempt it has yet to grant.
   */
  lemma RejectionsAreIrrevocable(run: seq<Op>, job: string, attempt: int, owner: string, clock: Time)
    requires job in Run(EMPTY, run).rows
    ensures var d := Run(EMPTY, run);
      var r := d.rows[job];
      var reason := RejectReason(r, attempt, owner, clock);
      && (reason == StaleAttempt ==> Irrevocable(d, job, attempt))
      && (reason == AlreadyFinished ==>
            (Irrevocable(d, job, attempt) <==> !(r.state == "pending" && r.attempt < attempt)))
  {
    hide Normalise, TrimSpace;
    IrrevocableIffDead(run, job, attempt);
    ColumnsNormalise(Run(EMPTY, run).rows[job]);
  }

  /** The exact strings the statements compare with, as the classifiers read them. */
  lemma ColumnsNormalise(r: Row)
    ensures r.state == "processing" && r.status == "running" ==> SaysRunning(r) && !SaysFinished(r)
    ensures r.state == "done" ==> SaysFinished(r) && Normalise(r.state) == "done"
  {
    hide Normalise;
    if r.state == "done" || (r.state == "processing" && r.status == "running") {
      NormaliseKeepsWord(r.state);
    }
    if r.status == "running" {
      NormaliseKeepsWord(r.status);
      assert forall s :: s in TERMINAL_STATUSES ==> |s| > 7;
    }
  }

  /** Such a row: created pending as "accepted", refused as finished, then claimed and finished with that very attempt. */
  lemma AlreadyFinishedIsRevoked() returns (run: seq<Op>, claim: Op, fin: Op)
    ensures fin.Finalize? && fin.job in Run(EMPTY, run).rows && Step(Run(EMPTY, run), fin).1 == Rejected
    ensures RejectReason(Run(EMPTY, run).rows[fin.job], fin.attempt, fin.owner, fin.now) == AlreadyFinished
    ensures Step(Run(EMPTY, run + [claim]), fin).1 == Applied
  {
    hide Run, Step, RejectReason;
    var born := Create("j", "accepted", "pending", 0);
    run, claim, fin := [born], Claim("j", "w", 1, 0), Finalize("j", 1, "w", "finished", "", 1);
    RunSnoc(EMPTY, [], born);
    RunOfNone();
    assert [] + [born] == run;
    RunSnoc(EMPTY, run, claim);
    FirstBirth(born);
    FinishAfterClaim(Inserted(0, "accepted", "pending", 0), claim, fin);
  }

  lemma RunOfNone()
    ensures Run(EMPTY, []) == EMPTY
  {
  }

  lemma FirstBirth(born: Op)
    requires born.Create?
    ensures Step(EMPTY, born).0 == Db(map[born.job := Inserted(0, born.status, born.state, born.now)], 1)
  {
  }

  lemma FinishAfterClaim(r: Row, claim: Op, fin: Op)
    requires r == Inserted(0, "accepted", "pending", 0)
    requires claim == Claim("j", "w", 1, 0) && fin == Finalize("j", 1, "w", "finished", "", 1)
    ensures var d := Db(map["j" := r], 1);
      Step(d, fin).1 == Rejected && Step(Step(d, claim).0, fin).1 == Applied
    ensures RejectReason(r, 1, "w", 1) == AlreadyFinished
  {
    hide Normalise, TrimSpace;
    AcceptedReadsAsTerminal();
  }

  /** A verdict in the capitals the worker writes it with reads as the same words in small letters. */
  lemma Lowered(s: string, low: string)
    requires |s| == |low| > 0 && (forall i :: 0 <= i < |s| ==> ToLowerChar(s[i]) == low[i])
    requires 'A' <= s[0] <= 'Z' && 'a' <= s[|s| - 1] <= 'z'
    ensures Normalise(s) == low
  {
    hide ToLower, ToLowerChar, IsSpace, TrimSpace;
    CapitalIsNotSpace(s[0]);
    SmallLetterIsNotSpace(s[|s| - 1]);
    TrimSpaceKeepsTrimmed(s);
    assert |ToLower(s)| == |low| && forall i :: 0 <= i < |s| ==> ToLower(s)[i] == low[i];
  }

  lemma AnswersLowered()
    ensures Normalise("Accepted") == "accepted"
    ensures Normalise("Wrong Answer") == "wrong answer"
  {
    hide Normalise;
    Lowered("Accepted", "accepted");
    Lowered("Wrong Answer", "wrong answer");
  }

  lemma ErrorsLowered()
    ensures Normalise("Compile Error") == "compile error"
    ensures Normalise("System Error") == "system error"
    ensures Normalise("Runtime Error") == "runtime error"
  {
    hide Normalise;
    Lowered("Compile Error", "compile error");
    Lowered("System Error", "system error");
    Lowered("Runtime Error", "runtime error");
  }

  lemma TimeLimitLowered()
    ensures Normalise("Time Limit Exceeded") == "time limit exceeded"
  {
    hide Normalise;
    Lowered("Time Limit Exceeded", "time limit exceeded");
  }

  lemma MemoryLimitLowered()
    ensures Normalise("Memory Limit Exceeded") == "memory limit exceeded"
  {
    hide Normalise;
    Lowered("Memory Limit Exceeded", "memory limit exceeded");
  }

  lemma OutputLimitLowered()
    ensures Normalise("Output Limit Exceeded") == "output limit exceeded"
  {
    hide Normalise;
    Lowered("Output Limit Exceeded", "output limit exceeded");
  }

  /** Every verdict of the worker reads as finished for the classifier. */
  lemma VerdictsReadAsFinished(r: Row)
    requires r.status in {
      "Accepted", "Wrong Answer", "Compile Error", "System Error", "Runtime Error", "Time Limit Exceeded",
      "Memory Limit Exceeded", "Output Limit Exceeded"}
    ensures SaysFinished(r)
  {
    hide Normalise;
    AnswersLowered();
    ErrorsLowered();
    TimeLimitLowered();
    MemoryLimitLowered();
    OutputLimitLowered();
  }

  lemma AcceptedReadsAsTerminal()
    ensures Normalise("accepted") in TERMINAL_STATUSES
  {
    hide Normalise;
    NormaliseKeepsWord("accepted");
  }

  /** Every submission enters with status "pending", as the two handlers create it. */
  predicate BornPending(run: seq<Op>) {
    forall i :: 0 <= i < |run| && run[i].Create? ==> run[i].status == "pending"
  }

  lemma {:induction false} UnclaimedStaysPending(run: seq<Op>, job: string)
    requires BornPending(run) && job in Run(EMPTY, run).rows && Run(EMPTY, run).rows[job].state == "pending"
    ensures Run(EMPTY, run).rows[job].status == "pending"
    decreases |run|
  {
    if run != [] {
      var before, op := run[..|run| - 1], run[|run| - 1];
      var d := Run(EMPTY, before);
      if job in d.rows && d.rows[job].state == "pending" {
        UnclaimedStaysPending(before, job);
      }
    }
  }

  lemma PendingIsNotFinished(r: Row)
    requires r.state == "pending" && r.status == "pending"
    ensures !SaysFinished(r)
  {
    hide Normalise;
    NormaliseKeepsWord("pending");
    assert "pending" !in TERMINAL_STATUSES by {
      assert forall s :: s in TERMINAL_STATUSES ==> s != "pending";
    }
  }

  /** With submissions born that way, both `stale_attempt` and `already_finished` are irrevocable. */
  lemma RejectionsOfPendingBirthsAreFinal(run: seq<Op>, job: string, attempt: int, owner: string, clock: Time)
    requires BornPending(run) && job in Run(EMPTY, run).rows
    ensures var reason := RejectReason(Run(EMPTY, run).rows[job], attempt, owner, clock);
      reason == StaleAttempt || reason == AlreadyFinished ==> Irrevocable(Run(EMPTY, run), job, attempt)
  {
    hide Run, Irrevocable, BornPending, SaysFinished, SaysRunning, LeaseLooksLost;
    var r := Run(EMPTY, run).rows[job];
    RejectionsAreIrrevocable(run, job, attempt, owner, clock);
    if r.state == "pending" {
      UnclaimedStaysPending(run, job);
      PendingIsNotFinished(r);
    }
  }

  // ----- What a reason says when nothing ran in between -----

  /** Each reason but the fall-through names a condition of the UPDATE that this row fails. */
  lemma ReasonNamesFailedCondition(r: Row, fin: Op)
    requires fin.Finalize? && !Guard(r, fin) && !FallsThrough(r, fin.attempt, fin.owner, fin.now)
    ensures match RejectReason(r, fin.attempt, fin.owner, fin.now)
      case OK => false
      case StaleAttempt => r.attempt != fin.attempt
      case AlreadyFinished => r.state != "processing" || r.status != "running"
      case NotInExpectedState => r.state != "processing" || r.status != "running"
      case LeaseLostOrOwnerMismatch => r.owner != Some(fin.owner) || r.until.None? || r.until.value <= fin.now
  {
    hide Normalise, TrimSpace;
    ColumnsNormalise(r);
  }

  /** A row that has granted anything is held or finished. */
  lemma GrantedMeansHeldOrFinished(run: seq<Op>, job: string)
    requires job in Run(EMPTY, run).rows && Run(EMPTY, run).rows[job].attempt > 0
    ensures var l := LeaseOf(Run(EMPTY, run).rows[job]); l.phase.Held? || l.phase.Finished?
  {
    WorldIsRun(run);
    Reachable(run);
    var w := WorldAfter(run);
    assert RowConsistent(w, w.db.rows[job]);
    WaitingMeansUngranted(History(w.log, w.db.rows[job].id));
  }

  /**
   For a granted attempt id the classifier falls through exactly when the lease is current and unexpired and
   only the exact owner comparison failed: the caller's owner trims to nothing, or to what the row's trims to.
   */
  lemma FallThroughIff(run: seq<Op>, fin: Op)
    requires fin.Finalize? && fin.job in Run(EMPTY, run).rows
    requires var r := Run(EMPTY, run).rows[fin.job]; !Guard(r, fin) && 0 < fin.attempt <= r.attempt
    ensures var r := Run(EMPTY, run).rows[fin.job];
      FallsThrough(r, fin.attempt, fin.owner, fin.now) <==>
        && fin.attempt == r.attempt
        && LeaseOf(r).phase.Held? && fin.now < LeaseOf(r).phase.until
        && (TrimSpace(fin.owner) == "" || TrimSpace(fin.owner) == TrimSpace(LeaseOf(r).phase.owner))
  {
    hide Normalise, TrimSpace;
    GrantedMeansHeldOrFinished(run, fin.job);
    ColumnsNormalise(Run(EMPTY, run).rows[fin.job]);
  }

  /** It does happen: the holder's attempt, before its deadline, under an owner left blank. */
  lemma BlankOwnerFallsThrough() returns (run: seq<Op>, fin: Op)
    ensures fin.Finalize? && fin.job in Run(EMPTY, run).rows
    ensures var r := Run(EMPTY, run).rows[fin.job];
      && !Guard(r, fin) && 0 < fin.attempt <= r.attempt && FallsThrough(r, fin.attempt, fin.owner, fin.now)
      && RejectReason(r, fin.attempt, fin.owner, fin.now) == NotInExpectedState
  {
    hide Normalise, TrimSpace, FallsThrough, SaysFinished, SaysRunning, LeaseLooksLost;
    var born, claim := Create("j", "pending", "pending", 0), Claim("j", "w", 1, 0);
    run, fin := [born, claim], Finalize("j", 1, "", "finished", "", 1);
    RunSnoc(EMPTY, [], born);
    assert [] + [born] == [born];
    RunSnoc(EMPTY, [born], claim);
    assert [born] + [claim] == run;
    BlankTrims();
    FallThroughIff(run, fin);
    FallThroughReads(Run(EMPTY, run).rows["j"], fin);
  }

  lemma BlankTrims()
    ensures TrimSpace("") == ""
  {
  }

  lemma FallThroughReads(r: Row, fin: Op)
    requires fin.Finalize? && FallsThrough(r, fin.attempt, fin.owner, fin.now)
    ensures RejectReason(r, fin.attempt, fin.owner, fin.now) == NotInExpectedState
  {
    hide Normalise, TrimSpace;
  }

  lemma {:induction false} OwnerOfGrant(h: seq<Event>, k: nat)
    requires LegalHistory(h) && k < |h| && IsGrant(h[k])
    requires After(h).phase.Held? && After(h).attempt == h[k].attempt
    ensures After(h).phase.owner == h[k].owner
  {
    if k < |h| - 1 {
      var before := h[..|h| - 1];
      if IsGrant(h[|h| - 1]) {
        LegalIsFenced(h);
        assert false;
      } else {
        OwnerOfGrant(before, k);
      }
    }
  }

  /** The row a grant was made on: the grant is not ahead of it, and owns its lease if it is the latest. */
  lemma GrantOwnsLease(run: seq<Op>, job: string, k: nat)
    requires job in Run(EMPTY, run).rows
    requires var h := History(WorldAfter(run).log, Run(EMPTY, run).rows[job].id); k < |h| && IsGrant(h[k])
    ensures var r := Run(EMPTY, run).rows[job];
      var grant := History(WorldAfter(run).log, r.id)[k];
      && 0 < grant.attempt <= r.attempt
      && (LeaseOf(r).phase.Held? && r.attempt == grant.attempt ==> LeaseOf(r).phase.owner == grant.owner)
  {
    hide RowOk, LegalHistory, History, Grants;
    WorldIsRun(run);
    Reachable(run);
    var w := WorldAfter(run);
    var r := w.db.rows[job];
    var h := History(w.log, r.id);
    assert RowConsistent(w, r);
    GrantNumber(h, k);
    GrantsGrow(h, k + 1);
    GrantsCountUp(h);
    if LeaseOf(r).phase.Held? && r.attempt == h[k].attempt {
      OwnerOfGrant(h, k);
    }
  }

  /** A worker that was granted this attempt under this very owner never meets the fall-through. */
  lemma HolderNeverFallsThrough(run: seq<Op>, fin: Op, k: nat)
    requires fin.Finalize? && fin.job in Run(EMPTY, run).rows
    requires var h := History(WorldAfter(run).log, Run(EMPTY, run).rows[fin.job].id);
      k < |h| && IsGrant(h[k]) && h[k].attempt == fin.attempt && h[k].owner == fin.owner
    requires !Guard(Run(EMPTY, run).rows[fin.job], fin)
    ensures !FallsThrough(Run(EMPTY, run).rows[fin.job], fin.attempt, fin.owner, fin.now)
  {
    hide Normalise, TrimSpace, FallsThrough, History, Run, WorldAfter;
    GrantOwnsLease(run, fin.job, k);
    FallThroughIff(run, fin);
  }

  /**
   The decision of a Reclaim when nothing ran in between and the clocks agree: a row still held reads
   `lease_still_valid` before its deadline and `done_or_stale` at the deadline itself.
   */
  lemma ReclaimDecisionExact(run: seq<Op>, reclaim: Op)
    requires reclaim.Reclaim? && reclaim.job in Run(EMPTY, run).rows
    requires !Guard(Run(EMPTY, run).rows[reclaim.job], reclaim)
    ensures var r := Run(EMPTY, run).rows[reclaim.job];
      var phase := LeaseOf(r).phase;
      InspectDecision(Some(r), reclaim.now)
        == if phase.Held? && reclaim.now != phase.until then LeaseStillValid else DoneOrStale
  {
    hide Normalise, TrimSpace;
    WorldIsRun(run);
    Reachable(run);
    assert RowConsistent(WorldAfter(run), WorldAfter(run).db.rows[reclaim.job]);
    ColumnsNormalise(WorldAfter(run).db.rows[reclaim.job]);
  }
}
