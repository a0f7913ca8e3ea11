/** How far apart the claims of one event come, over any run with any number of dispatchers and any clock. */
module Spacing {
  import opened Submissions
  import opened Backoff
  import opened Outbox
  import opened Dispatch

  /** One claim of an event: when it was made and under which bounds, in milliseconds. */
  datatype ClaimRecord = ClaimRecord(at: Time, base: int, top: int)

  ghost predicate Picks(s: Sys, op: SysOp, id: nat) {
    op.ClaimBatch? && ClaimEnabled(s, op) && id in op.picks
  }

  function ClaimOf(op: SysOp): ClaimRecord
    requires op.ClaimBatch?
  {
    ClaimRecord(op.now, Bounds(op.baseNs, op.maxNs).0, Bounds(op.baseNs, op.maxNs).1)
  }

  /** The claims of an event, in the order they were made. */
  ghost function Claims(ops: seq<SysOp>, id: nat): seq<ClaimRecord> {
    if |ops| == 0 then []
    else
      var before, op := ops[..|ops| - 1], ops[|ops| - 1];
      Claims(before, id) + (if Picks(SysRun(INITIAL, before), op, id) then [ClaimOf(op)] else [])
  }

  /** The wait that claim number `k` imposes on the next one. */
  predicate Apart(claims: seq<ClaimRecord>, k: nat)
    requires k + 1 < |claims|
  {
    claims[k].at + LeastDelay(claims[k].base, claims[k].top, k) * MILLISECOND <= claims[k + 1].at
  }

  ghost predicate Timed(s: Sys, claims: seq<ClaimRecord>, id: nat) {
    && (forall k :: 0 <= k < |claims| - 1 ==> Apart(claims, k))
    && (id >= s.nextEvent ==> claims == [] && id !in s.events)
    && (id in s.events ==>
          var e := s.events[id];
          && e.attempts == |claims|
          && if claims == [] then e.nextAttemptAt == e.createdAt
             else
               var (last, n) := (claims[|claims| - 1], |claims| - 1);
               last.at + LeastDelay(last.base, last.top, n) * MILLISECOND
                 <= e.nextAttemptAt <= last.at + last.top * MILLISECOND)
  }

  /** The attempt counter and the next attempt time of an event stay, or it is new. */
  ghost predicate TimingKept(s: Sys, s': Sys, id: nat) {
    && s'.nextEvent >= s.nextEvent
    && (id in s'.events && id in s.events && id != s.nextEvent ==>
          && s'.events[id].attempts == s.events[id].attempts
          && s'.events[id].nextAttemptAt == s.events[id].nextAttemptAt
          && s'.events[id].createdAt == s.events[id].createdAt)
    && (id in s'.events && id !in s.events ==>
          && id == s.nextEvent < s'.nextEvent
          && s'.events[id].attempts == 0 && s'.events[id].nextAttemptAt == s'.events[id].createdAt)
  }

  /** Only a claim touches the attempt counter and the next attempt time of an event that exists. */
  lemma OthersKeepTiming(s: Sys, op: SysOp, id: nat)
    requires !Picks(s, op, id)
    ensures TimingKept(s, SysStep(s, op), id)
  {
    if op.CreateWithOutbox? {
      CreateKeepsTiming(s, op, id);
    } else if op.ClaimBatch? {
      OtherPicksKeepTiming(s, op, id);
    } else {
      hide Step, Bounds, Delay, StoredStatus, ClaimEnabled, ClaimedEvents, JobTaken, NewEvent, At, NextEvent, Goto;
    }
  }

  lemma CreateKeepsTiming(s: Sys, op: SysOp, id: nat)
    requires op.CreateWithOutbox?
    ensures TimingKept(s, SysStep(s, op), id)
  {
    hide Step, StoredStatus, JobTaken;
  }

  lemma OtherPicksKeepTiming(s: Sys, op: SysOp, id: nat)
    requires op.ClaimBatch? && !Picks(s, op, id)
    ensures TimingKept(s, SysStep(s, op), id)
  {
    hide Bounds, Delay, ClaimEnabled;
  }

  lemma ClaimTiming(s: Sys, op: SysOp, id: nat)
    requires Picks(s, op, id)
    ensures id in s.events && s.events[id].nextAttemptAt <= op.now
    ensures var s' := SysStep(s, op);
      && s'.nextEvent == s.nextEvent && id in s'.events
      && s'.events[id].attempts == s.events[id].attempts + 1
      && op.now + LeastDelay(ClaimOf(op).base, ClaimOf(op).top, s.events[id].attempts) * MILLISECOND
           <= s'.events[id].nextAttemptAt <= op.now + ClaimOf(op).top * MILLISECOND
  {
    hide Delay, LeastDelay, Bounds;
    DelayBounds(ClaimOf(op).base, ClaimOf(op).top, s.events[id].attempts, op.random(id));
  }

  lemma {:induction false} AlwaysTimed(ops: seq<SysOp>, id: nat)
    ensures Timed(SysRun(INITIAL, ops), Claims(ops, id), id)
  {
    if |ops| > 0 {
      var before, op := ops[..|ops| - 1], ops[|ops| - 1];
      AlwaysTimed(before, id);
      StepKeepsTimed(SysRun(INITIAL, before), op, Claims(before, id), id);
      hide Timed, SysStep, Picks;
      assert SysRun(INITIAL, ops) == SysStep(SysRun(INITIAL, before), op);
    }
  }

  lemma StepKeepsTimed(s: Sys, op: SysOp, claims: seq<ClaimRecord>, id: nat)
    requires Timed(s, claims, id)
    ensures Timed(SysStep(s, op), if Picks(s, op, id) then claims + [ClaimOf(op)] else claims, id)
  {
    hide SysStep, ClaimEnabled, LeastDelay, Bounds;
    if Picks(s, op, id) {
      ClaimTiming(s, op, id);
      var longer := claims + [ClaimOf(op)];
      forall k | 0 <= k < |longer| - 1
        ensures Apart(longer, k)
      {
        if k < |claims| - 1 {
          assert Apart(claims, k);
        }
      }
    } else {
      OthersKeepTiming(s, op, id);
    }
  }

  /** Every two claims in a row of one event are at least the first one's shortest delay apart. */
  lemma ClaimsAreApart(ops: seq<SysOp>, id: nat, k: nat)
    requires k + 1 < |Claims(ops, id)|
    ensures Apart(Claims(ops, id), k)
  {
    AlwaysTimed(ops, id);
  }

  /** Under one pair of bounds the waits add up: claim k comes no sooner than k shortest delays after the first. */
  lemma {:induction false} WaitsAddUp(ops: seq<SysOp>, id: nat, base: int, top: int, k: nat)
    requires k < |Claims(ops, id)|
    requires forall i :: 0 <= i < k ==> Claims(ops, id)[i].base == base && Claims(ops, id)[i].top == top
    ensures Claims(ops, id)[0].at + LeastWait(base, top, k) * MILLISECOND <= Claims(ops, id)[k].at
    decreases k
  {
    if k > 0 {
      WaitsAddUp(ops, id, base, top, k - 1);
      ClaimsAreApart(ops, id, k - 1);
    }
  }

  /**
   In closed form: until the cap is reached, claim k comes no sooner than nine tenths of the base times 2^k - 1
   after the first, up to a millisecond for each claim.
   */
  lemma WaitsDouble(ops: seq<SysOp>, id: nat, base: int, top: int, k: nat)
    requires k < |Claims(ops, id)| && 1 <= base <= top && k <= 30 && (k > 0 ==> base * Pow2(k - 1) <= top)
    requires forall i :: 0 <= i < k ==> Claims(ops, id)[i].base == base && Claims(ops, id)[i].top == top
    ensures Claims(ops, id)[0].at + (9 * (base * (Pow2(k) - 1)) / 10 - k) * MILLISECOND <= Claims(ops, id)[k].at
  {
    hide Claims, LeastWait, Pow2;
    WaitsAddUp(ops, id, base, top, k);
    LeastWaitDoubles(base, top, k);
    assert 9 * (base * (Pow2(k) - 1)) / 10 - k <= LeastWait(base, top, k);
  }

  /**
   Never stuck: an undelivered event can be claimed again at most the cap after its last claim, and at
   once if it was never claimed; and never before the shortest delay is over.
   */
  lemma ClaimableAgain(ops: seq<SysOp>, id: nat, now: Time)
    requires id in SysRun(INITIAL, ops).events && Claimable(SysRun(INITIAL, ops).events[id])
    ensures var e := SysRun(INITIAL, ops).events[id];
      var claims := Claims(ops, id);
      && e.attempts == |claims|
      && (claims == [] ==> (Due(e, now) <==> e.createdAt <= now))
      && (claims != [] ==>
            var last := claims[|claims| - 1];
            && (now >= last.at + last.top * MILLISECOND ==> Due(e, now))
            && (Due(e, now) ==> now >= last.at + LeastDelay(last.base, last.top, |claims| - 1) * MILLISECOND))
  {
    hide SysStep, SysRun, LeastDelay, Claims, Apart;
    AlwaysTimed(ops, id);
  }
}
