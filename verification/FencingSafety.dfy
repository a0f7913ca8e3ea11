/**
 What one submission row may live through, told without SQL: an attempt counter and a phase.
 This is the reference that the statements of `Submissions` are proved to refine.
 */
module LeaseHistory {
  import opened Submissions

  datatype Phase =
    | Waiting
    | Held(owner: string, until: Time)
    | Finished
    | Inert // created in a state that no worker statement accepts

  datatype Lease = Lease(attempt: int, phase: Phase)

  datatype Event =
    | Born(phase: Phase)
    | Claimed(attempt: int, owner: string, until: Time)
    | Reclaimed(attempt: int, owner: string, until: Time, at: Time)
    | Refreshed(attempt: int, owner: string, until: Time)
    | Finalized(attempt: int, owner: string, at: Time)
    | Poisoned
    | Resulted

  predicate IsGrant(e: Event) {
    e.Claimed? || e.Reclaimed?
  }

  predicate IsTerminal(e: Event) {
    e.Finalized? || e.Poisoned? || e.Resulted?
  }

  predicate Legal(l: Lease, e: Event) {
    match e
    case Born(_) => false
    case Claimed(attempt, _, _) => l.phase.Waiting? && attempt == l.attempt + 1
    case Reclaimed(attempt, _, _, at) => l.phase.Held? && l.phase.until < at && attempt == l.attempt + 1
    case Refreshed(attempt, owner, _) => l.phase.Held? && l.phase.owner == owner && l.attempt == attempt
    case Finalized(attempt, owner, at) =>
      l.phase.Held? && l.phase.owner == owner && l.attempt == attempt && at < l.phase.until
    case Poisoned => !l.phase.Finished?
    case Resulted => !l.phase.Finished?
  }

  function Next(l: Lease, e: Event): Lease {
    match e
    case Born(phase) => Lease(0, phase)
    case Claimed(attempt, owner, until) => Lease(attempt, Held(owner, until))
    case Reclaimed(attempt, owner, until, _) => Lease(attempt, Held(owner, until))
    case Refreshed(_, owner, until) => Lease(l.attempt, Held(owner, until))
    case _ => Lease(l.attempt, Finished)
  }

  /** The lease after a row's events; a row that was never born has attempt 0 and is inert. */
  function After(h: seq<Event>): Lease {
    if h == [] then Lease(0, Inert) else Next(After(h[..|h| - 1]), h[|h| - 1])
  }

  /** Born once, into an unheld phase, and every later event legal where it happens. */
  predicate LegalHistory(h: seq<Event>) {
    h == [] ||
    (var (before, e) := (h[..|h| - 1], h[|h| - 1]);
     LegalHistory(before) &&
     if before == [] then e.Born? && !e.phase.Held? else Legal(After(before), e))
  }

  /** The attempt ids granted, in order. */
  function Grants(h: seq<Event>): seq<int> {
    if h == [] then []
    else Grants(h[..|h| - 1]) + (if IsGrant(h[|h| - 1]) then [h[|h| - 1].attempt] else [])
  }

  /** 1, 2, 3 and so on. */
  function UpTo(n: nat): (r: seq<int>)
    ensures |r| == n
  {
    seq(n, i => i + 1)
  }

  lemma OneMoreUp(n: nat)
    ensures UpTo(n) + [n + 1] == UpTo(n + 1) && UpTo(0) == []
  {
  }

  lemma {:induction false} GrantsCountUp(h: seq<Event>)
    requires LegalHistory(h)
    ensures After(h).attempt >= 0 && Grants(h) == UpTo(After(h).attempt)
  {
    hide UpTo;
    OneMoreUp(0);
    if h != [] {
      var before := h[..|h| - 1];
      GrantsCountUp(before);
      OneMoreUp(After(before).attempt);
      assert IsGrant(h[|h| - 1]) ==> h[|h| - 1].attempt == After(before).attempt + 1;
    }
  }

  /** A terminal event is always the last one. */
  lemma {:induction false} FinishedIsFinal(h: seq<Event>, k: nat)
    requires LegalHistory(h) && k < |h| && IsTerminal(h[k])
    ensures k == |h| - 1 && After(h).phase.Finished?
  {
    if k < |h| - 1 {
      FinishedIsFinal(h[..|h| - 1], k);
      assert false;
    }
  }

  /** Only the first grant is a Claim: a row is Waiting until then and never again. */
  lemma {:induction false} ClaimIsFirstGrant(h: seq<Event>, k: nat)
    requires LegalHistory(h) && k < |h| && h[k].Claimed?
    ensures h[k].attempt == 1 && !After(h).phase.Waiting?
  {
    var before := h[..|h| - 1];
    if k < |h| - 1 {
      ClaimIsFirstGrant(before, k);
    } else {
      WaitingMeansUngranted(before);
    }
  }

  lemma {:induction false} WaitingMeansUngranted(h: seq<Event>)
    requires LegalHistory(h)
    ensures After(h).phase.Waiting? || After(h).phase.Inert? ==> After(h).attempt == 0
  {
    if h != [] {
      WaitingMeansUngranted(h[..|h| - 1]);
    }
  }

  lemma {:induction false} LegalPrefix(h: seq<Event>, k: nat)
    requires LegalHistory(h) && k <= |h|
    ensures LegalHistory(h[..k])
  {
    if k == |h| {
      assert h[..k] == h;
    } else {
      LegalPrefix(h[..|h| - 1], k);
      assert h[..|h| - 1][..k] == h[..k];
    }
  }

  lemma {:induction false} GrantsGrow(h: seq<Event>, k: nat)
    requires k <= |h|
    ensures Grants(h[..k]) <= Grants(h)
  {
    if k == |h| {
      assert h[..k] == h;
    } else {
      GrantsGrow(h[..|h| - 1], k);
      assert h[..|h| - 1][..k] == h[..k];
    }
  }

  /** A grant event carries one more than the number of grants before it. */
  lemma GrantNumber(h: seq<Event>, k: nat)
    requires LegalHistory(h) && k < |h| && IsGrant(h[k])
    ensures h[k].attempt == |Grants(h[..k])| + 1
    ensures |Grants(h[..k + 1])| == |Grants(h[..k])| + 1
  {
    LegalPrefix(h, k + 1);
    assert h[..k + 1][..k] == h[..k];
    GrantsCountUp(h[..k]);
  }

  /** The facts about one row that follow from its history being legal. */
  ghost predicate Fenced(h: seq<Event>) {
    && Grants(h) == UpTo(|Grants(h)|)
    && (forall i, j :: 0 <= i < j < |h| && h[i].Claimed? ==> !h[j].Claimed?)
    && (forall i, j :: 0 <= i < j < |h| && IsGrant(h[i]) && IsGrant(h[j]) ==> h[i].attempt < h[j].attempt)
    && (forall i, j :: 0 <= i < j < |h| && IsTerminal(h[i]) ==> !IsTerminal(h[j]) && !IsGrant(h[j]) && !h[j].Refreshed?)
    && (forall i :: 0 <= i < |h| && h[i].Finalized? ==> h[i].attempt == |Grants(h)| > 0)
  }

  lemma LegalIsFenced(h: seq<Event>)
    requires LegalHistory(h)
    ensures Fenced(h)
  {
    hide LegalHistory, Grants, After;
    GrantsCountUp(h);
    forall i, j | 0 <= i < j < |h| && h[i].Claimed?
      ensures !h[j].Claimed?
    {
      ClaimedOnce(h, i, j);
    }
    forall i, j | 0 <= i < j < |h| && IsGrant(h[i]) && IsGrant(h[j])
      ensures h[i].attempt < h[j].attempt
    {
      GrantsAscend(h, i, j);
    }
    forall i | 0 <= i < |h| && IsTerminal(h[i])
      ensures i == |h| - 1
    {
      FinishedIsFinal(h, i);
    }
    forall i | 0 <= i < |h| && h[i].Finalized?
      ensures h[i].attempt == |Grants(h)| > 0
    {
      FinalizedLast(h, i);
    }
  }

  lemma ClaimedOnce(h: seq<Event>, i: nat, j: nat)
    requires LegalHistory(h) && i < j < |h| && h[i].Claimed?
    ensures !h[j].Claimed?
  {
    LegalPrefix(h, j + 1);
    assert h[..j + 1][..j] == h[..j];
    LegalPrefix(h, j);
    ClaimIsFirstGrant(h[..j], i);
  }

  lemma GrantsAscend(h: seq<Event>, i: nat, j: nat)
    requires LegalHistory(h) && i < j < |h| && IsGrant(h[i]) && IsGrant(h[j])
    ensures h[i].attempt < h[j].attempt
  {
    hide LegalHistory, Grants;
    GrantNumber(h, i);
    GrantNumber(h, j);
    GrantsGrow(h[..j], i + 1);
    assert h[..j][..i + 1] == h[..i + 1];
  }

  lemma FinalizedLast(h: seq<Event>, i: nat)
    requires LegalHistory(h) && i < |h| && h[i].Finalized?
    ensures h[i].attempt == |Grants(h)| > 0
  {
    FinishedIsFinal(h, i);
    var before := h[..|h| - 1];
    HeldMeansGranted(before);
    GrantsCountUp(before);
  }

  lemma {:induction false} HeldMeansGranted(h: seq<Event>)
    requires LegalHistory(h) && After(h).phase.Held?
    ensures After(h).attempt > 0
  {
    var before := h[..|h| - 1];
    GrantsCountUp(before);
    if h[|h| - 1].Refreshed? {
      HeldMeansGranted(before);
    }
  }
}

/** Whole-run safety of the submission statements. */
module FencingSafety {
  import opened Options
  import opened Submissions
  import opened LeaseHistory

  /** The lease a row's columns stand for. */
  function LeaseOf(r: Row): Lease {
    Lease(r.attempt,
          if r.state == "done" then Finished
          else if r.state == "pending" then Waiting
          else if r.state == "processing" && r.status == "running" && r.owner.Some? && r.until.Some?
          then Held(r.owner.value, r.until.value)
          else Inert)
  }

  /** Until a row is done, owner and deadline are set together, and only while it is held. */
  predicate RowOk(r: Row) {
    || r.state == "done"
    || (r.owner.None? && r.until.None?)
    || (r.owner.Some? && r.until.Some? && r.state == "processing" && r.status == "running")
  }

  /** The event a statement stands for, when it is tried on row `r`. */
  function EventOf(r: Row, op: Op): Event
    requires !op.Create? && !op.DeleteDone?
  {
    match op
    case Claim(_, owner, leaseSec, now) => Claimed(r.attempt + 1, owner, LeaseEnd(now, leaseSec))
    case Refresh(_, attempt, owner, leaseSec, now) => Refreshed(attempt, owner, LeaseEnd(now, leaseSec))
    case Finalize(_, attempt, owner, _, _, now) => Finalized(attempt, owner, now)
    case Poison(_, _, _, _) => Poisoned
    case ResultIfNotDone(_, _, _, _) => Resulted
    case Reclaim(_, owner, leaseSec, now) => Reclaimed(r.attempt + 1, owner, LeaseEnd(now, leaseSec), now)
  }

  /** Refinement: a statement matches its row exactly when the reference allows its event, and does the same. */
  lemma StatementsRefineLease(r: Row, op: Op)
    requires RowOk(r) && !op.Create? && !op.DeleteDone?
    ensures Guard(r, op) <==> Legal(LeaseOf(r), EventOf(r, op))
    ensures Guard(r, op) ==>
      && LeaseOf(Updated(r, op)) == Next(LeaseOf(r), EventOf(r, op))
      && RowOk(Updated(r, op)) && Updated(r, op).id == r.id
  {
  }

  /** A table together with the log of every statement that took effect, by row id. */
  datatype World = World(db: Db, log: seq<(nat, Event)>)

  function Log(d: Db, op: Op): seq<(nat, Event)> {
    if op.Create? then
      if op.job in d.rows then []
      else [(d.nextId, Born(LeaseOf(Inserted(d.nextId, op.status, op.state, op.now)).phase))]
    else if op.DeleteDone? then []
    else if op.job in d.rows && Guard(d.rows[op.job], op) then
      [(d.rows[op.job].id, EventOf(d.rows[op.job], op))]
    else []
  }

  function WorldAfter(ops: seq<Op>): World {
    if ops == [] then World(EMPTY, [])
    else
      var w := WorldAfter(ops[..|ops| - 1]);
      var op := ops[|ops| - 1];
      World(Step(w.db, op).0, w.log + Log(w.db, op))
  }

  lemma {:induction false} WorldIsRun(ops: seq<Op>)
    ensures WorldAfter(ops).db == Run(EMPTY, ops)
  {
    if ops != [] {
      WorldIsRun(ops[..|ops| - 1]);
    }
  }

  /** The events of one row, in order. */
  function History(log: seq<(nat, Event)>, id: nat): seq<Event> {
    if log == [] then []
    else History(log[..|log| - 1], id) + (if log[|log| - 1].0 == id then [log[|log| - 1].1] else [])
  }

  lemma HistoryAppend(log: seq<(nat, Event)>, id: nat, e: Event)
    ensures forall i: nat ::
      History(log + [(id, e)], i) == if i == id then History(log, i) + [e] else History(log, i)
  {
    assert (log + [(id, e)])[..|log|] == log;
  }

  ghost predicate Consistent(w: World) {
    && (forall id :: LegalHistory(History(w.log, id)))
    && (forall id :: id >= w.db.nextId ==> History(w.log, id) == [])
    && (forall job :: job in w.db.rows ==> RowConsistent(w, w.db.rows[job]))
    && (forall j, k :: j in w.db.rows && k in w.db.rows && w.db.rows[j].id == w.db.rows[k].id ==> j == k)
  }

  ghost predicate RowConsistent(w: World, r: Row) {
    && r.id < w.db.nextId
    && RowOk(r)
    && History(w.log, r.id) != []
    && LeaseOf(r) == After(History(w.log, r.id))
  }

  lemma {:induction false} Reachable(ops: seq<Op>)
    ensures Consistent(WorldAfter(ops))
  {
    if ops != [] {
      var before := ops[..|ops| - 1];
      Reachable(before);
      StepKeepsConsistent(WorldAfter(before), ops[|ops| - 1]);
    }
  }

  lemma BirthKeepsConsistent(w: World, job: string, r: Row)
    requires Consistent(w) && job !in w.db.rows && r.id == w.db.nextId
    requires RowOk(r) && r.attempt == 0 && !LeaseOf(r).phase.Held?
    ensures Consistent(World(Db(w.db.rows[job := r], r.id + 1), w.log + [(r.id, Born(LeaseOf(r).phase))]))
  {
    hide LegalHistory, History, RowOk, After;
    var e := Born(LeaseOf(r).phase);
    HistoryAppend(w.log, r.id, e);
    assert History(w.log, r.id) + [e] == [e];
    BirthIsLegal(e);
    hide LeaseOf;
  }

  lemma BirthIsLegal(e: Event)
    requires e.Born? && !e.phase.Held?
    ensures LegalHistory([e]) && After([e]) == Lease(0, e.phase)
  {
    assert [e][..0] == [];
  }

  lemma UpdateKeepsConsistent(w: World, job: string, r: Row, e: Event)
    requires Consistent(w) && job in w.db.rows && r.id == w.db.rows[job].id
    requires Legal(LeaseOf(w.db.rows[job]), e) && LeaseOf(r) == Next(LeaseOf(w.db.rows[job]), e) && RowOk(r)
    ensures Consistent(World(w.db.(rows := w.db.rows[job := r]), w.log + [(r.id, e)]))
  {
    hide LegalHistory, History, LeaseOf, RowOk, Legal, Next;
    HistoryAppend(w.log, r.id, e);
    assert RowConsistent(w, w.db.rows[job]);
    LegalMore(History(w.log, r.id), e);
  }

  lemma LegalMore(h: seq<Event>, e: Event)
    requires LegalHistory(h) && h != [] && Legal(After(h), e)
    ensures LegalHistory(h + [e]) && After(h + [e]) == Next(After(h), e)
  {
    assert (h + [e])[..|h|] == h;
  }

  lemma InsertedIsOk(id: nat, op: Op)
    requires op.Create?
    ensures var r := Inserted(id, op.status, op.state, op.now); RowOk(r) && !LeaseOf(r).phase.Held?
  {
  }

  lemma StepKeepsConsistent(w: World, op: Op)
    requires Consistent(w)
    ensures Consistent(World(Step(w.db, op).0, w.log + Log(w.db, op)))
  {
    hide LegalHistory, History, LeaseOf, RowOk, Legal, Next;
    if Log(w.db, op) == [] {
      assert w.log + [] == w.log;
    } else if op.Create? {
      InsertedIsOk(w.db.nextId, op);
      BirthKeepsConsistent(w, op.job, Inserted(w.db.nextId, op.status, op.state, op.now));
    } else {
      var r := w.db.rows[op.job];
      assert RowConsistent(w, r);
      StatementsRefineLease(r, op);
      UpdateKeepsConsistent(w, op.job, Updated(r, op), EventOf(r, op));
    }
  }

  /**
   Fencing. In every run of create, claim, refresh, finalize, poison, result-if-not-done, reclaim and
   delete statements, with any arguments and any clock readings, each row is granted the attempt ids
   1, 2, 3, ... once each, is claimed at most once and finished at most once, and an applied Finalize
   carries the largest attempt id the row is ever granted.
   */
  lemma FencingHolds(ops: seq<Op>, id: nat)
    ensures Fenced(History(WorldAfter(ops).log, id))
  {
    Reachable(ops);
    LegalIsFenced(History(WorldAfter(ops).log, id));
  }

  /** A pending row is claimed, poisoned and collected. */
  lemma RowLivesAndGoes(id: nat, claim: Op, done: Op, gc: Op)
    requires claim == Claim("j", "w", 1, 0) && done == Poison("j", "", "", 0) && gc == DeleteDone({"j"}, 1)
    ensures var d := Db(map["j" := Inserted(id, "pending", "pending", 0)], id + 1);
      && Step(d, claim).1 == Granted(1)
      && Step(Step(Step(d, claim).0, done).0, gc).0 == Db(map[], id + 1)
  {
    var d := Db(map["j" := Inserted(id, "pending", "pending", 0)], id + 1);
    var d2 := Step(d, claim).0;
    assert d2.rows["j"].state == "processing";
    var d3 := Step(d2, done).0;
    assert d3.rows.Keys == {"j"} && Collectable(d3.rows["j"], 1);
    assert Step(d3, gc).0.rows == map[];
  }

  lemma RowIsBorn(id: nat, born: Op)
    requires born == Create("j", "pending", "pending", 0)
    ensures Step(Db(map[], id), born).0 == Db(map["j" := Inserted(id, "pending", "pending", 0)], id + 1)
  {
  }

  /** A job id can be used again once its row was collected, and the new row starts counting at 1 again. */
  lemma ReusedJobIdIsGrantedAgain() returns (ops: seq<Op>, i: nat, j: nat)
    ensures i < j < |ops|
    ensures ops[i].Claim? && ops[j].Claim? && ops[i].job == ops[j].job
    ensures Step(Run(EMPTY, ops[..i]), ops[i]).1 == Granted(1)
    ensures Step(Run(EMPTY, ops[..j]), ops[j]).1 == Granted(1)
  {
    var born, claim := Create("j", "pending", "pending", 0), Claim("j", "w", 1, 0);
    var done, gc := Poison("j", "", "", 0), DeleteDone({"j"}, 1);
    var first := [] + [born];
    var third := first + [claim] + [done];
    var fifth := third + [gc] + [born];
    ops, i, j := fifth + [claim], 1, 5;
    assert ops[..1] == first && ops[1] == claim && ops[..5] == fifth && ops[5] == claim;
    assert Run(EMPTY, []) == EMPTY;
    hide Run, Step;
    RunSnoc(EMPTY, [], born);
    RunSnoc(EMPTY, first, claim);
    RunSnoc(EMPTY, first + [claim], done);
    RunSnoc(EMPTY, third, gc);
    RunSnoc(EMPTY, third + [gc], born);
    RowIsBorn(0, born);
    RowLivesAndGoes(0, claim, done, gc);
    RowIsBorn(1, born);
    RowLivesAndGoes(1, claim, done, gc);
  }
}
