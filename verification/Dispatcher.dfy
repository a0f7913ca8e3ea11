/**
 The dispatcher's own code, line by line, inside the system of `Dispatch`. Between any two lines other
 actors may run, and one of the things they may do is crash this dispatcher: its remaining lines then
 change nothing.
 */
module Dispatcher {
  import opened Options
  import opened Submissions
  import opened Backoff
  import opened Outbox
  import opened Dispatch

  class Platform {
    var state: Sys

    constructor ()
      ensures state == INITIAL
    {
      state := INITIAL;
    }

    method Perform(op: SysOp)
      modifies this
      ensures state == SysStep(old(state), op)
    {
      state := SysStep(state, op);
    }

    method Interfere(ops: seq<SysOp>)
      modifies this
      ensures state == SysRun(old(state), ops)
    {
      ghost var start := state;
      for i := 0 to |ops|
        invariant state == SysRun(start, ops[..i])
      {
        assert ops[..i + 1] == ops[..i] + [ops[i]];
        SysRunSnoc(start, ops[..i], ops[i]);
        state := SysStep(state, ops[i]);
      }
      assert ops[..|ops|] == ops;
    }
  }

  /** How the calls of one `dispatchOne` turn out, when they are made. */
  datatype Plan = Plan(encodes: bool, sets: bool, adds: AddResult, drops: bool, marks: bool, now: Time)

  predicate Smooth(p: Plan) {
    p.encodes && p.sets && p.adds.Added? && p.marks
  }

  /** The lines of `dispatchOne` as the plan makes them run. */
  function Lines(w: nat, p: Plan): seq<SysOp> {
    if !p.encodes then [EncodeFails(w), MarkFailed(w, p.marks, "payload_encode_error", p.now)]
    else if !p.sets then [SetPayload(w, false), MarkFailed(w, p.marks, "redis_set_error", p.now)]
    else if !p.adds.Added? then
      [SetPayload(w, true), AddToStream(w, p.adds), DropPayload(w, p.drops),
       MarkFailed(w, p.marks, "redis_xadd_error", p.now)]
    else [SetPayload(w, true), AddToStream(w, p.adds), MarkSent(w, p.marks, p.now)]
  }

  /** The given lines with other actors' steps before each of them. */
  function Interleaved(lines: seq<SysOp>, others: nat -> seq<SysOp>): seq<SysOp> {
    if |lines| == 0 then []
    else Interleaved(lines[..|lines| - 1], others) + others(|lines| - 1) + [lines[|lines| - 1]]
  }

  lemma InterleavedSnoc(lines: seq<SysOp>, line: SysOp, others: nat -> seq<SysOp>)
    ensures Interleaved(lines + [line], others) == Interleaved(lines, others) + others(|lines|) + [line]
  {
    var more := lines + [line];
    assert more[..|more| - 1] == lines && more[|more| - 1] == line && |more| - 1 == |lines|;
  }

  lemma InterleavedNone(s: Sys, others: nat -> seq<SysOp>)
    ensures SysRun(s, Interleaved([], others)) == s
  {
  }

  /** One line after other actors' steps. */
  method Line(platform: Platform, ghost start: Sys, ghost done: seq<SysOp>, line: SysOp, others: nat -> seq<SysOp>, k: nat)
    requires platform.state == SysRun(start, Interleaved(done, others)) && k == |done|
    modifies platform
    ensures platform.state == SysRun(start, Interleaved(done + [line], others))
  {
    hide SysStep, SysRun;
    platform.Interfere(others(k));
    SysRunConcat(start, Interleaved(done, others), others(k));
    platform.Perform(line);
    SysRunSnoc(start, Interleaved(done, others) + others(k), line);
    InterleavedSnoc(done, line, others);
  }

  method DispatchOne(platform: Platform, w: nat, p: Plan, others: nat -> seq<SysOp>)
    modifies platform
    ensures platform.state == SysRun(old(platform.state), Interleaved(Lines(w, p), others))
  {
    hide SysStep, SysRun, Interleaved;
    ghost var start := platform.state;
    InterleavedNone(start, others);
    if !p.encodes {
      Line(platform, start, [], EncodeFails(w), others, 0);
      Line(platform, start, [] + [EncodeFails(w)], MarkFailed(w, p.marks, "payload_encode_error", p.now), others, 1);
      assert Lines(w, p) == [] + [EncodeFails(w)] + [MarkFailed(w, p.marks, "payload_encode_error", p.now)];
      return;
    }
    Line(platform, start, [], SetPayload(w, p.sets), others, 0);
    ghost var done := [] + [SetPayload(w, p.sets)];
    if !p.sets {
      Line(platform, start, done, MarkFailed(w, p.marks, "redis_set_error", p.now), others, 1);
      assert Lines(w, p) == done + [MarkFailed(w, p.marks, "redis_set_error", p.now)];
      return;
    }
    Line(platform, start, done, AddToStream(w, p.adds), others, 1);
    done := done + [AddToStream(w, p.adds)];
    if !p.adds.Added? {
      Line(platform, start, done, DropPayload(w, p.drops), others, 2);
      done := done + [DropPayload(w, p.drops)];
      Line(platform, start, done, MarkFailed(w, p.marks, "redis_xadd_error", p.now), others, 3);
      assert Lines(w, p) == done + [MarkFailed(w, p.marks, "redis_xadd_error", p.now)];
      return;
    }
    Line(platform, start, done, MarkSent(w, p.marks, p.now), others, 2);
    assert Lines(w, p) == done + [MarkSent(w, p.marks, p.now)];
  }

  /** Left alone and without faults, `dispatchOne` adds exactly one entry, then delivers its event, and no other. */
  lemma SmoothDispatchDelivers(s: Sys, w: nat, p: Plan)
    requires At(s, w, Start) && Smooth(p)
    ensures var (id, job) := Current(s, w);
      var s' := SysRun(s, Lines(w, p));
      && s'.stream == s.stream + multiset{StreamEntry(job, Some(id))}
      && s'.events == Dispatched(s.events, id, p.adds.entry, p.now)
      && s'.payloads == s.payloads + {job}
      && s'.workers == NextEvent(s, w).workers
  {
    hide SysStep, SysRun, NextEvent, Dispatched;
    var lines := Lines(w, p);
    SysRunLines(s, lines);
    var s1 := SysStep(s, lines[0]);
    var s2 := SysStep(s1, lines[1]);
    FirstLine(s, w, lines[0]);
    SecondLine(s, s1, w, p);
    LastLine(s, s2, w, p);
    assert s.stream + multiset{} == s.stream;
  }

  lemma LastLine(s: Sys, s2: Sys, w: nat, p: Plan)
    requires At(s, w, Start) && Smooth(p)
    requires Midway(s, s2, w, Sent(p.adds.entry), Entries(p, Current(s, w).0, Current(s, w).1))
    ensures var s' := SysStep(s2, MarkSent(w, true, p.now));
      && s'.stream == s2.stream && s'.payloads == s2.payloads && s'.workers == NextEvent(s, w).workers
      && s'.events == Dispatched(s.events, Current(s, w).0, p.adds.entry, p.now)
  {
    hide Entries, Dispatched;
    assert s2.workers[w].batch == s.workers[w].batch;
  }

  /** A short run, step by step. */
  lemma SysRunLines(s: Sys, lines: seq<SysOp>)
    requires 2 <= |lines| <= 4
    ensures var s2 := SysStep(SysStep(s, lines[0]), lines[1]);
      SysRun(s, lines)
        == if |lines| == 2 then s2
           else if |lines| == 3 then SysStep(s2, lines[2])
           else SysStep(SysStep(s2, lines[2]), lines[3])
  {
    hide SysStep;
    SysRunSnoc(s, [], lines[0]);
    assert [] + [lines[0]] == lines[..1];
    SysRunSnoc(s, lines[..1], lines[1]);
    assert lines[..1] + [lines[1]] == lines[..2];
    if |lines| == 2 {
      assert lines[..2] == lines;
    } else {
      SysRunSnoc(s, lines[..2], lines[2]);
      assert lines[..2] + [lines[2]] == lines[..3];
      if |lines| == 3 {
        assert lines[..3] == lines;
      } else {
        SysRunSnoc(s, lines[..3], lines[3]);
        assert lines[..3] + [lines[3]] == lines;
      }
    }
  }

  /** Steps that leave the outbox table alone. */
  lemma OutboxUntouched(s: Sys, op: SysOp)
    requires op.EncodeFails? || op.SetPayload? || op.AddToStream? || op.DropPayload? || (op.MarkSent? && !op.ok)
    ensures SysStep(s, op).events == s.events
  {
  }

  /** A failure mark touches at most one event, and never its standing. */
  lemma FailureMarkKeepsClaimable(s: Sys, op: SysOp, id: nat)
    requires op.MarkFailed? && id in s.events && Claimable(s.events[id])
    ensures var s' := SysStep(s, op);
      id in s'.events && Claimable(s'.events[id])
      && s'.events[id].attempts == s.events[id].attempts && s'.events[id].nextAttemptAt == s.events[id].nextAttemptAt
  {
  }

  /** A dispatch with any fault leaves its event to be claimed again, no earlier than the claim had set. */
  lemma FailedDispatchStaysClaimable(s: Sys, w: nat, p: Plan)
    requires At(s, w, Start) && !Smooth(p)
    requires Current(s, w).0 in s.events && Claimable(s.events[Current(s, w).0])
    ensures var id := Current(s, w).0;
      var s' := SysRun(s, Lines(w, p));
      id in s'.events && Claimable(s'.events[id])
      && s'.events[id].attempts == s.events[id].attempts
      && s'.events[id].nextAttemptAt == s.events[id].nextAttemptAt
  {
    hide SysStep, SysRun;
    var lines, id := Lines(w, p), Current(s, w).0;
    SysRunLines(s, lines);
    OutboxUntouched(s, lines[0]);
    var s1 := SysStep(s, lines[0]);
    if |lines| == 2 {
      FailureMarkKeepsClaimable(s1, lines[1], id);
    } else {
      OutboxUntouched(s1, lines[1]);
      var s2 := SysStep(s1, lines[1]);
      OutboxUntouched(s2, lines[2]);
      if |lines| == 4 {
        FailureMarkKeepsClaimable(SysStep(s2, lines[2]), lines[3], id);
      }
    }
  }

  /** `DispatchOnce`: claim a batch, then dispatch its events one by one. */
  method DispatchOnce(platform: Platform, claim: SysOp, plans: nat -> Plan, others: nat -> nat -> seq<SysOp>)
    requires claim.ClaimBatch?
    modifies platform
    ensures platform.state
         == SysRun(old(platform.state), [claim] + BatchLines(claim.worker, |claim.picks|, plans, others))
  {
    hide SysStep, SysRun, BatchLines, Interleaved, Lines;
    ghost var start := platform.state;
    platform.Perform(claim);
    SysRunSnoc(start, [], claim);
    SysRunNone(start);
    NoBatch(claim.worker, plans, others);
    assert [] + [claim] == [claim] == [claim] + [];
    for i := 0 to |claim.picks|
      invariant platform.state == SysRun(start, [claim] + BatchLines(claim.worker, i, plans, others))
    {
      var before := BatchLines(claim.worker, i, plans, others);
      var next := Interleaved(Lines(claim.worker, plans(i)), others(i));
      DispatchOne(platform, claim.worker, plans(i), others(i));
      SysRunConcat(start, [claim] + before, next);
      BatchMore(claim, i, plans, others);
    }
  }

  lemma SysRunNone(s: Sys)
    ensures SysRun(s, []) == s
  {
  }

  function BatchLines(w: nat, n: nat, plans: nat -> Plan, others: nat -> nat -> seq<SysOp>): seq<SysOp> {
    if n == 0 then []
    else BatchLines(w, n - 1, plans, others) + Interleaved(Lines(w, plans(n - 1)), others(n - 1))
  }

  lemma NoBatch(w: nat, plans: nat -> Plan, others: nat -> nat -> seq<SysOp>)
    ensures BatchLines(w, 0, plans, others) == []
  {
  }

  lemma BatchMore(claim: SysOp, i: nat, plans: nat -> Plan, others: nat -> nat -> seq<SysOp>)
    requires claim.ClaimBatch?
    ensures [claim] + BatchLines(claim.worker, i + 1, plans, others) ==
            [claim] + BatchLines(claim.worker, i, plans, others) + Interleaved(Lines(claim.worker, plans(i)), others(i))
  {
    hide Interleaved, Lines;
    var before, next := BatchLines(claim.worker, i, plans, others), Interleaved(Lines(claim.worker, plans(i)), others(i));
    assert BatchLines(claim.worker, i + 1, plans, others) == before + next;
    assert [claim] + (before + next) == [claim] + before + next;
  }

  // ----- What a round of `DispatchOnce` leaves -----

  /** Whether the entry reaches the stream, with or without an answer. */
  predicate Adds(p: Plan) {
    p.encodes && p.sets && !p.adds.NotAdded?
  }

  function Entries(p: Plan, id: nat, job: string): multiset<StreamEntry> {
    if Adds(p) then multiset{StreamEntry(job, Some(id))} else multiset{}
  }

  /** What one dispatch makes of its event: delivered if nothing failed, else still to be claimed, as the claim left it. */
  predicate Settled(claimed: Event, e: Event, p: Plan) {
    if Smooth(p) then
      e.status == "delivered" && e.dispatchedAt == Some(p.now) && e.streamEntry == Some(p.adds.entry)
      && e.job == claimed.job
    else
      Claimable(e) && e.attempts == claimed.attempts && e.nextAttemptAt == claimed.nextAttemptAt
      && e.job == claimed.job
  }

  /** The next event is up, and only this one's row and entry were touched. */
  ghost predicate Ended(s: Sys, s': Sys, w: nat, p: Plan)
    requires At(s, w, Start)
  {
    var (id, job) := Current(s, w);
    && s'.workers == NextEvent(s, w).workers
    && s'.stream == s.stream + Entries(p, id, job)
    && s'.events.Keys == s.events.Keys
    && (forall i :: i in s.events && i != id ==> s'.events[i] == s.events[i])
    && (id in s.events && Claimable(s.events[id]) ==> Settled(s.events[id], s'.events[id], p))
  }

  /** One dispatch, whatever fails, settles its event and touches nothing else. */
  lemma DispatchEffect(s: Sys, w: nat, p: Plan)
    requires At(s, w, Start)
    ensures Ended(s, SysRun(s, Lines(w, p)), w, p)
  {
    if Smooth(p) {
      SmoothDispatchDelivers(s, w, p);
    } else {
      FaultyEffect(s, w, p);
    }
  }

  lemma FaultyEffect(s: Sys, w: nat, p: Plan)
    requires At(s, w, Start) && !Smooth(p)
    ensures Ended(s, SysRun(s, Lines(w, p)), w, p)
  {
    hide SysStep, SysRun, Settled, NextEvent;
    var lines := Lines(w, p);
    SysRunLines(s, lines);
    var s1 := SysStep(s, lines[0]);
    FirstLine(s, w, lines[0]);
    if |lines| == 2 {
      FailureEnds(s, s1, w, p, lines[1]);
    } else {
      var s2 := SysStep(s1, lines[1]);
      SecondLine(s, s1, w, p);
      if p.adds.Added? {
        UnmarkedEnds(s, s2, w, p, lines[2]);
      } else {
        ThirdLine(s, s2, w, p);
        FailureEnds(s, SysStep(s2, lines[2]), w, p, lines[3]);
      }
    }
  }

  /**
   The payload a dispatch leaves in Redis: none of its own if it was never set, or was dropped again after a failed
   XADD; and the error the event shows if one was recorded.
   */
  lemma FaultsAreRecorded(s: Sys, w: nat, p: Plan)
    requires At(s, w, Start)
    ensures var (id, job) := Current(s, w);
      var s' := SysRun(s, Lines(w, p));
      && s'.payloads == (if !p.encodes || !p.sets then s.payloads
                         else if p.adds.Added? || !p.drops then s.payloads + {job}
                         else s.payloads - {job})
      && (!(p.encodes && p.sets && p.adds.Added?) && p.marks && id in s.events && Claimable(s.events[id]) ==>
            && id in s'.events
            && s'.events[id].lastError == Some(if !p.encodes then "payload_encode_error"
                                               else if !p.sets then "redis_set_error" else "redis_xadd_error"))
  {
    hide SysStep, SysRun;
    var lines := Lines(w, p);
    SysRunLines(s, lines);
    var s1 := SysStep(s, lines[0]);
    FirstLine(s, w, lines[0]);
    PayloadOfFirst(s, w, lines[0]);
    if |lines| == 2 {
      LastPayload(s, s1, w, Failing, lines[1]);
    } else {
      var s2 := SysStep(s1, lines[1]);
      SecondLine(s, s1, w, p);
      if p.adds.Added? {
        LastPayload(s, s2, w, Sent(p.adds.entry), lines[2]);
      } else {
        var s3 := SysStep(s2, lines[2]);
        ThirdLine(s, s2, w, p);
        PayloadOfThird(s, s2, w, p);
        LastPayload(s, s3, w, Failing, lines[3]);
      }
    }
  }

  lemma PayloadOfFirst(s: Sys, w: nat, op: SysOp)
    requires At(s, w, Start) && (op == EncodeFails(w) || op == SetPayload(w, false) || op == SetPayload(w, true))
    ensures op != SetPayload(w, true) ==> SysStep(s, op).payloads == s.payloads
  {
  }

  lemma PayloadOfThird(s: Sys, s2: Sys, w: nat, p: Plan)
    requires At(s, w, Start) && At(s2, w, AddFailed) && Current(s2, w) == Current(s, w)
    ensures SysStep(s2, DropPayload(w, p.drops)).payloads ==
            if p.drops then s2.payloads - {Current(s, w).1} else s2.payloads
  {
  }

  lemma LastPayload(s: Sys, s1: Sys, w: nat, pc: Pc, op: SysOp)
    requires At(s, w, Start) && s1.workers == s.workers[w := s.workers[w].(pc := pc)] && s1.events == s.events
    requires ((op.MarkFailed? && pc == Failing) || (op.MarkSent? && pc.Sent?)) && op.worker == w
    ensures SysStep(s1, op).payloads == s1.payloads
    ensures var id := Current(s, w).0;
      op.MarkFailed? && op.ok && id in s.events && Claimable(s.events[id]) ==>
        id in SysStep(s1, op).events && SysStep(s1, op).events[id].lastError == Some(op.error)
  {
    assert s1.workers[w].batch == s.workers[w].batch;
  }

  /** In the middle of a dispatch: the outbox is untouched, and so much was added to the stream. */
  ghost predicate Midway(s: Sys, s1: Sys, w: nat, pc: Pc, entries: multiset<StreamEntry>) {
    && At(s, w, Start) && s1.workers == s.workers[w := s.workers[w].(pc := pc)]
    && s1.events == s.events && s1.stream == s.stream + entries
  }

  lemma FirstLine(s: Sys, w: nat, op: SysOp)
    requires At(s, w, Start) && (op == EncodeFails(w) || op == SetPayload(w, true) || op == SetPayload(w, false))
    ensures Midway(s, SysStep(s, op), w, if op == SetPayload(w, true) then PayloadSet else Failing, multiset{})
    ensures op == SetPayload(w, true) ==> SysStep(s, op).payloads == s.payloads + {Current(s, w).1}
  {
  }

  lemma SecondLine(s: Sys, s1: Sys, w: nat, p: Plan)
    requires Midway(s, s1, w, PayloadSet, multiset{}) && p.encodes && p.sets
    ensures Midway(s, SysStep(s1, AddToStream(w, p.adds)), w, if p.adds.Added? then Sent(p.adds.entry) else AddFailed,
                   Entries(p, Current(s, w).0, Current(s, w).1))
    ensures SysStep(s1, AddToStream(w, p.adds)).payloads == s1.payloads
  {
    assert At(s1, w, PayloadSet) && Current(s1, w) == Current(s, w);
    assert s1.stream == s.stream;
    AddIs(s1, w, p.adds);
    hide SysStep;
  }

  lemma AddIs(s: Sys, w: nat, result: AddResult)
    requires At(s, w, PayloadSet)
    ensures var s' := SysStep(s, AddToStream(w, result));
      && s'.workers == s.workers[w := s.workers[w].(pc := if result.Added? then Sent(result.entry) else AddFailed)]
      && s'.events == s.events && s'.payloads == s.payloads
      && s'.stream ==
         if result.NotAdded? then s.stream
         else s.stream + multiset{StreamEntry(Current(s, w).1, Some(Current(s, w).0))}
  {
  }

  lemma ThirdLine(s: Sys, s2: Sys, w: nat, p: Plan)
    requires At(s, w, Start) && Midway(s, s2, w, AddFailed, Entries(p, Current(s, w).0, Current(s, w).1))
    ensures Midway(s, SysStep(s2, DropPayload(w, p.drops)), w, Failing, Entries(p, Current(s, w).0, Current(s, w).1))
  {
    hide Entries;
  }

  lemma FailureEnds(s: Sys, s1: Sys, w: nat, p: Plan, op: SysOp)
    requires At(s, w, Start) && Midway(s, s1, w, Failing, Entries(p, Current(s, w).0, Current(s, w).1))
    requires !Smooth(p) && op.MarkFailed? && op.worker == w
    ensures Ended(s, SysStep(s1, op), w, p)
  {
    hide Entries, Smooth;
    assert s1.workers[w].batch == s.workers[w].batch;
  }

  lemma UnmarkedEnds(s: Sys, s2: Sys, w: nat, p: Plan, op: SysOp)
    requires At(s, w, Start) && p.adds.Added?
    requires Midway(s, s2, w, Sent(p.adds.entry), Entries(p, Current(s, w).0, Current(s, w).1))
    requires !Smooth(p) && op.MarkSent? && op.worker == w && !op.ok
    ensures Ended(s, SysStep(s2, op), w, p)
  {
    hide Entries, Smooth;
    assert s2.workers[w].batch == s.workers[w].batch;
  }

  /** The lines of the first `n` dispatches with nothing in between. */
  function QuietLines(w: nat, n: nat, plans: nat -> Plan): seq<SysOp> {
    if n == 0 then [] else QuietLines(w, n - 1, plans) + Lines(w, plans(n - 1))
  }

  ghost predicate Quiet(others: nat -> nat -> seq<SysOp>) {
    forall i: nat, k: nat :: |others(i)(k)| == 0
  }

  lemma {:induction false} QuietInterleaving(lines: seq<SysOp>, others: nat -> seq<SysOp>)
    requires forall k: nat :: |others(k)| == 0
    ensures Interleaved(lines, others) == lines
    decreases |lines|
  {
    if |lines| > 0 {
      QuietInterleaving(lines[..|lines| - 1], others);
      assert |others(|lines| - 1)| == 0;
    }
  }

  lemma {:induction false} QuietBatch(w: nat, n: nat, plans: nat -> Plan, others: nat -> nat -> seq<SysOp>)
    requires Quiet(others)
    ensures BatchLines(w, n, plans, others) == QuietLines(w, n, plans)
  {
    if n > 0 {
      QuietBatch(w, n - 1, plans, others);
      QuietInterleaving(Lines(w, plans(n - 1)), others(n - 1));
    }
  }

  /** The entries of the first `n` dispatches of a batch. */
  function BatchEntries(batch: seq<(nat, string)>, plans: nat -> Plan, n: nat): multiset<StreamEntry>
    requires n <= |batch|
  {
    if n == 0 then multiset{}
    else BatchEntries(batch, plans, n - 1) + Entries(plans(n - 1), batch[n - 1].0, batch[n - 1].1)
  }

  /** A dispatcher at the start of a batch of distinct, claimable events. */
  ghost predicate Ready(s: Sys, w: nat, batch: seq<(nat, string)>) {
    && (if batch == [] then w !in s.workers else w in s.workers && s.workers[w] == Worker(batch, Start))
    && (forall i :: 0 <= i < |batch| ==> batch[i].0 in s.events && Claimable(s.events[batch[i].0]))
    && (forall i, j :: 0 <= i < j < |batch| ==> batch[i].0 != batch[j].0)
  }

  predicate Among(batch: seq<(nat, string)>, n: nat, id: nat)
    requires n <= |batch|
  {
    exists k :: 0 <= k < n && batch[k].0 == id
  }

  /** The rows of the first `n` events are settled, the others as they were. */
  ghost predicate SettledTo(events: Events, events': Events, batch: seq<(nat, string)>, plans: nat -> Plan, n: nat)
    requires n <= |batch|
  {
    && events'.Keys == events.Keys
    && (forall k :: 0 <= k < n && batch[k].0 in events ==>
          Settled(events[batch[k].0], events'[batch[k].0], plans(k)))
    && (forall id :: id in events && !Among(batch, n, id) ==> events'[id] == events[id])
  }

  lemma SettleOne(
    events: Events, mid: Events, events': Events, batch: seq<(nat, string)>, plans: nat -> Plan, n: nat)
    requires 0 < n <= |batch| && forall i, j :: 0 <= i < j < |batch| ==> batch[i].0 != batch[j].0
    requires SettledTo(events, mid, batch, plans, n - 1) && events'.Keys == mid.Keys
    requires forall i :: i in mid && i != batch[n - 1].0 ==> events'[i] == mid[i]
    requires batch[n - 1].0 in events ==> Settled(events[batch[n - 1].0], events'[batch[n - 1].0], plans(n - 1))
    ensures SettledTo(events, events', batch, plans, n)
  {
    hide Settled;
    forall k | 0 <= k < n && batch[k].0 in events
      ensures Settled(events[batch[k].0], events'[batch[k].0], plans(k))
    {
      if k < n - 1 {
        assert batch[k].0 != batch[n - 1].0;
      }
    }
    forall id | id in events && !Among(batch, n, id)
      ensures events'[id] == events[id]
    {
      assert !Among(batch, n - 1, id) && batch[n - 1].0 != id;
    }
  }

  /** After `n` dispatches of a quiet round: those events settled, the others as they were, the entries added. */
  ghost predicate Progressed(s: Sys, s': Sys, w: nat, batch: seq<(nat, string)>, plans: nat -> Plan, n: nat)
    requires n <= |batch|
  {
    && (if n == |batch| then w !in s'.workers else w in s'.workers && s'.workers[w] == Worker(batch[n..], Start))
    && s'.stream == s.stream + BatchEntries(batch, plans, n)
    && SettledTo(s.events, s'.events, batch, plans, n)
  }

  lemma {:induction false} QuietProgress(s: Sys, w: nat, batch: seq<(nat, string)>, plans: nat -> Plan, n: nat)
    requires Ready(s, w, batch) && n <= |batch|
    ensures Progressed(s, SysRun(s, QuietLines(w, n, plans)), w, batch, plans, n)
  {
    hide SysStep, SysRun, Lines, Ready, Progressed;
    if n == 0 {
      SysRunNone(s);
      NoProgress(s, w, batch, plans);
    } else {
      QuietProgress(s, w, batch, plans, n - 1);
      var before := SysRun(s, QuietLines(w, n - 1, plans));
      SysRunConcat(s, QuietLines(w, n - 1, plans), Lines(w, plans(n - 1)));
      ProgressStep(s, before, w, batch, plans, n);
    }
  }

  lemma NoProgress(s: Sys, w: nat, batch: seq<(nat, string)>, plans: nat -> Plan)
    requires Ready(s, w, batch)
    ensures Progressed(s, s, w, batch, plans, 0)
  {
    assert batch[0..] == batch;
  }

  lemma ProgressStep(s: Sys, before: Sys, w: nat, batch: seq<(nat, string)>, plans: nat -> Plan, n: nat)
    requires Ready(s, w, batch) && 0 < n <= |batch| && Progressed(s, before, w, batch, plans, n - 1)
    ensures Progressed(s, SysRun(before, Lines(w, plans(n - 1))), w, batch, plans, n)
  {
    hide SysStep, SysRun, Lines, Progressed, Ended;
    NextInBatch(s, before, w, batch, plans, n);
    DispatchEffect(before, w, plans(n - 1));
    EndedProgress(s, before, SysRun(before, Lines(w, plans(n - 1))), w, batch, plans, n);
  }

  /** The next event of the batch is up, and its row is as it was. */
  lemma NextInBatch(s: Sys, before: Sys, w: nat, batch: seq<(nat, string)>, plans: nat -> Plan, n: nat)
    requires Ready(s, w, batch) && 0 < n <= |batch| && Progressed(s, before, w, batch, plans, n - 1)
    ensures At(before, w, Start) && Current(before, w) == batch[n - 1]
    ensures NextEvent(before, w).workers ==
            if n == |batch| then before.workers - {w} else before.workers[w := Worker(batch[n..], Start)]
    ensures batch[n - 1].0 in s.events && Claimable(s.events[batch[n - 1].0])
    ensures batch[n - 1].0 in before.events && before.events[batch[n - 1].0] == s.events[batch[n - 1].0]
  {
    hide BatchEntries, Settled, Claimable;
    assert !Among(batch, n - 1, batch[n - 1].0);
    assert batch[n - 1..][0] == batch[n - 1] && batch[n - 1..][1..] == batch[n..];
    assert before.workers[w] == Worker(batch[n - 1..], Start);
  }

  lemma EndedProgress(
    s: Sys, before: Sys, after: Sys, w: nat, batch: seq<(nat, string)>, plans: nat -> Plan, n: nat)
    requires Ready(s, w, batch) && 0 < n <= |batch| && Progressed(s, before, w, batch, plans, n - 1)
    requires At(before, w, Start) && Ended(before, after, w, plans(n - 1))
    ensures Progressed(s, after, w, batch, plans, n)
  {
    NextInBatch(s, before, w, batch, plans, n);
    DistinctEvents(s, w, batch);
    hide Settled, Claimable, Entries, NextEvent, Current, At, Ready, SettledTo;
    SettleOne(s.events, before.events, after.events, batch, plans, n);
  }

  lemma DistinctEvents(s: Sys, w: nat, batch: seq<(nat, string)>)
    requires Ready(s, w, batch)
    ensures forall k :: 0 <= k < |batch| ==> batch[k].0 in s.events
    ensures forall i, j :: 0 <= i < j < |batch| ==> batch[i].0 != batch[j].0
  {
  }

  /**
   An undisturbed round of `DispatchOnce`, with any faults: every claimed event for which nothing failed is
   delivered under its entry, every other one is claimable again with the counter and deadline its claim gave it;
   one entry is added for each event whose XADD got through, and nothing else in the outbox changes.
   */
  lemma QuietRoundSettles(s: Sys, claim: SysOp, plans: nat -> Plan, others: nat -> nat -> seq<SysOp>)
    requires claim.ClaimBatch? && ClaimEnabled(s, claim) && Quiet(others)
    ensures var claimed := Claimed(s, claim);
      var batch := Taken(s.events, claim.picks);
      var s' := SysRun(s, [claim] + BatchLines(claim.worker, |claim.picks|, plans, others));
      && s'.events.Keys == s.events.Keys
      && (forall k :: 0 <= k < |claim.picks| ==>
            Settled(claimed.events[claim.picks[k]], s'.events[claim.picks[k]], plans(k)))
      && (forall id :: id in s.events && id !in claim.picks ==> s'.events[id] == s.events[id])
      && s'.stream == s.stream + BatchEntries(batch, plans, |claim.picks|)
      && claim.worker !in s'.workers
  {
    hide SysStep, SysRun, Lines, Settled, Bounds, Delay, Ready, BatchLines, QuietLines, BatchEntries;
    var w, n, batch := claim.worker, |claim.picks|, Taken(s.events, claim.picks);
    var claimed := Claimed(s, claim);
    QuietRoundIs(s, claim, plans, others);
    ClaimIsReady(s, claim);
    QuietProgress(claimed, w, batch, plans, n);
    assert claimed.stream == s.stream && claimed.events.Keys == s.events.Keys;
    assert forall k :: 0 <= k < n ==> batch[k].0 == claim.picks[k] && claim.picks[k] in s.events;
    forall id | id in s.events && id !in claim.picks
      ensures SysRun(claimed, QuietLines(w, n, plans)).events[id] == s.events[id]
    {
      assert !Among(batch, n, id) && claimed.events[id] == s.events[id];
    }
  }

  lemma QuietRoundIs(s: Sys, claim: SysOp, plans: nat -> Plan, others: nat -> nat -> seq<SysOp>)
    requires claim.ClaimBatch? && ClaimEnabled(s, claim) && Quiet(others)
    ensures SysRun(s, [claim] + BatchLines(claim.worker, |claim.picks|, plans, others)) ==
            SysRun(Claimed(s, claim), QuietLines(claim.worker, |claim.picks|, plans))
  {
    assert SysStep(s, claim) == Claimed(s, claim);
    hide SysStep, SysRun, Lines, BatchLines, QuietLines, ClaimEnabled, Claimed;
    QuietBatch(claim.worker, |claim.picks|, plans, others);
    SysRunConcat(s, [claim], QuietLines(claim.worker, |claim.picks|, plans));
    SysRunSnoc(s, [], claim);
    SysRunNone(s);
    assert [] + [claim] == [claim];
  }

  lemma ClaimIsReady(s: Sys, claim: SysOp)
    requires claim.ClaimBatch? && ClaimEnabled(s, claim)
    ensures Ready(Claimed(s, claim), claim.worker, Taken(s.events, claim.picks))
  {
    hide Bounds, Delay;
    var batch := Taken(s.events, claim.picks);
    forall i, j | 0 <= i < j < |batch|
      ensures batch[i].0 != batch[j].0
    {
      assert Before(s.events, claim.picks[i], claim.picks[j]);
    }
  }

  /**
   A round disturbed or cut short in any way, from any reachable state: every event it claimed ends up claimable
   again, or sent, and then delivered or already collected.
   */
  lemma DisturbedRoundLosesNothing(
    before: seq<SysOp>, claim: SysOp, plans: nat -> Plan, others: nat -> nat -> seq<SysOp>, k: nat)
    requires claim.ClaimBatch? && ClaimEnabled(SysRun(INITIAL, before), claim) && k < |claim.picks|
    ensures var id := claim.picks[k];
      var s' := SysRun(SysRun(INITIAL, before), [claim] + BatchLines(claim.worker, |claim.picks|, plans, others));
      && id in s'.committed
      && if id in s'.events && Claimable(s'.events[id]) then true else SentBy(s', id) && Delivered(s', id)
  {
    var s, id := SysRun(INITIAL, before), claim.picks[k];
    AlwaysOk(before);
    assert id in s.events && Claimable(s.events[id]);
    assert EventOk(s, id);
    hide SysStep, SysRun, BatchLines, SysOk;
    var round := [claim] + BatchLines(claim.worker, |claim.picks|, plans, others);
    CommitsStay(s, round, id);
    CommittedIsOk(SysRun(s, round), id);
  }

  lemma CommittedIsOk(s: Sys, id: nat)
    requires SysOk(s) && id in s.committed
    ensures EventOk(s, id)
  {
  }
}
