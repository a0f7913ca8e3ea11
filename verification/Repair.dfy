/** The repair loop: pending rows that are too old get another stream entry. */
module Repair {
  import opened Options
  import opened Submissions
  import opened Dispatch
  import opened Dispatcher
  import opened Collector

  const DEFAULT_REPAIR_BATCH: int := 200

  /** The rows one cycle considers: pending, and created before the given time. */
  function StaleAges(d: Db, before: Time): map<string, Time> {
    map job | job in d.rows && d.rows[job].state == "pending" && d.rows[job].createdAt < before
            :: d.rows[job].createdAt
  }

  /** Candidates in the order of the query: oldest first, no job twice, none older left out. */
  ghost predicate Candidates(ages: map<string, Time>, jobs: seq<string>, limit: nat) {
    && |jobs| == (if limit < |ages| then limit else |ages|)
    && (forall i :: 0 <= i < |jobs| ==> jobs[i] in ages)
    && (forall i, j :: 0 <= i < j < |jobs| ==> jobs[i] != jobs[j] && ages[jobs[i]] <= ages[jobs[j]])
    && (forall i, job :: 0 <= i < |jobs| && job in ages && job !in jobs ==> ages[jobs[i]] <= ages[job])
  }

  /** ORDER BY the ages, LIMIT `top`. */
  method OldestFirst(ages: map<string, Time>, top: nat) returns (jobs: seq<string>)
    ensures Candidates(ages, jobs, top)
    ensures |jobs| < top ==> forall job :: job in ages ==> job in jobs
  {
    jobs := [];
    var pool := ages.Keys;
    while |jobs| < top && pool != {}
      invariant |jobs| <= top && |jobs| + |pool| == |ages.Keys|
      invariant forall job :: job in ages <==> job in pool || job in jobs
      invariant forall i :: 0 <= i < |jobs| ==> jobs[i] in ages && jobs[i] !in pool
      invariant forall i, j :: 0 <= i < j < |jobs| ==> jobs[i] != jobs[j] && ages[jobs[i]] <= ages[jobs[j]]
      invariant forall i, job :: 0 <= i < |jobs| && job in pool ==> ages[jobs[i]] <= ages[job]
      decreases |pool|
    {
      ghost var first := OldestExists(ages, pool);
      var next :| next in pool && forall r :: r in pool ==> ages[next] <= ages[r];
      pool := pool - {next};
      jobs := jobs + [next];
    }
    assert |ages.Keys| == |ages|;
  }

  lemma AgesAre(d: Db, now: Time, minAge: int)
    ensures forall job :: job in StaleAges(d, now - minAge) <==>
              job in d.rows && d.rows[job].state == "pending" && now - d.rows[job].createdAt > minAge
  {
  }

  method FetchRepairCandidates(store: SubmissionStore, minAge: int, limit: int, now: Time) returns (jobs: seq<string>)
    ensures Candidates(StaleAges(store.State(), now - minAge), jobs, if limit <= 0 then DEFAULT_REPAIR_BATCH else limit)
    ensures |jobs| <= if limit <= 0 then 200 else limit
    ensures forall job :: job in jobs ==>
      job in store.rows && store.rows[job].state == "pending" && now - store.rows[job].createdAt > minAge
    ensures |jobs| < (if limit <= 0 then 200 else limit) ==>
      forall job :: job in store.rows && store.rows[job].state == "pending" && now - store.rows[job].createdAt > minAge
        ==> job in jobs
  {
    hide StaleAges;
    var top := if limit <= 0 then DEFAULT_REPAIR_BATCH else limit;
    jobs := OldestFirst(StaleAges(Db(store.rows, store.nextId), now - minAge), top);
    AgesAre(store.State(), now, minAge);
    assert forall job :: job in jobs ==> job in StaleAges(store.State(), now - minAge);
  }

  /** The candidates without repeats, as the `seen` map of a cycle lets them through. */
  function FirstSeen(jobs: seq<string>): seq<string> {
    if jobs == [] then []
    else
      var before, last := FirstSeen(jobs[..|jobs| - 1]), jobs[|jobs| - 1];
      if last in before then before else before + [last]
  }

  lemma {:induction false} FirstSeenKeepsJobs(jobs: seq<string>)
    ensures forall job :: job in FirstSeen(jobs) <==> job in jobs
    ensures forall i, j :: 0 <= i < j < |FirstSeen(jobs)| ==> FirstSeen(jobs)[i] != FirstSeen(jobs)[j]
  {
    if jobs != [] {
      FirstSeenKeepsJobs(jobs[..|jobs| - 1]);
    }
  }

  /** What happens to the two Redis calls made for a job. */
  datatype Fate = Fate(setOk: bool, add: AddResult)

  function Sends(jobs: seq<string>, fates: map<string, Fate>): seq<SysOp>
    requires forall job :: job in jobs ==> job in fates
  {
    seq(|jobs|, i requires 0 <= i < |jobs| => RepairSend(jobs[i], fates[jobs[i]].setOk, fates[jobs[i]].add))
  }

  lemma NoSends(fates: map<string, Fate>)
    ensures Sends([], fates) == [] && Successes([], fates) == 0
  {
  }

  lemma SendsMore(jobs: seq<string>, job: string, fates: map<string, Fate>)
    requires job in fates && forall j :: j in jobs ==> j in fates
    ensures Sends(jobs + [job], fates) == Sends(jobs, fates) + [RepairSend(job, fates[job].setOk, fates[job].add)]
  {
  }

  predicate Succeeds(f: Fate) {
    f.setOk && f.add.Added?
  }

  /** How many of the jobs have both their calls succeed. */
  function Successes(jobs: seq<string>, fates: map<string, Fate>): (n: nat)
    requires forall job :: job in jobs ==> job in fates
    ensures n <= |jobs|
  {
    if jobs == [] then 0
    else
      Successes(jobs[..|jobs| - 1], fates) + if Succeeds(fates[jobs[|jobs| - 1]]) then 1 else 0
  }

  lemma SuccessesMore(jobs: seq<string>, job: string, fates: map<string, Fate>)
    requires job in fates && forall j :: j in jobs ==> j in fates
    ensures Successes(jobs + [job], fates) == Successes(jobs, fates) + if Succeeds(fates[job]) then 1 else 0
  {
    assert (jobs + [job])[..|jobs|] == jobs;
  }

  /** One cycle sends each distinct candidate once; every candidate is counted as repaired, skipped or failed. */
  method RunRepairCycle(platform: Platform, jobs: seq<string>, fates: map<string, Fate>)
    returns (repaired: nat, skipped: nat, failed: nat)
    requires forall job :: job in jobs ==> job in fates
    modifies platform
    ensures forall job :: job in FirstSeen(jobs) ==> job in fates
    ensures platform.state == SysRun(old(platform.state), Sends(FirstSeen(jobs), fates))
    ensures repaired == Successes(FirstSeen(jobs), fates) && failed == |FirstSeen(jobs)| - repaired
    ensures skipped == |jobs| - |FirstSeen(jobs)|
  {
    hide SysStep, SysRun, Sends, Successes;
    ghost var start := platform.state;
    repaired, skipped, failed := 0, 0, 0;
    var seen: set<string> := {};
    SysRunNone(start);
    NoSends(fates);
    assert jobs[..0] == [];
    for i := 0 to |jobs|
      invariant forall job :: job in FirstSeen(jobs[..i]) <==> job in seen
      invariant forall job :: job in FirstSeen(jobs[..i]) ==> job in fates
      invariant platform.state == SysRun(start, Sends(FirstSeen(jobs[..i]), fates))
      invariant repaired + skipped + failed == i && skipped == i - |FirstSeen(jobs[..i])|
      invariant repaired == Successes(FirstSeen(jobs[..i]), fates)
    {
      var job := jobs[i];
      ghost var before := FirstSeen(jobs[..i]);
      assert jobs[..i + 1][..i] == jobs[..i];
      if job in seen {
        skipped := skipped + 1;
      } else {
        seen := seen + {job};
        var op := RepairSend(job, fates[job].setOk, fates[job].add);
        platform.Perform(op);
        SysRunSnoc(start, Sends(before, fates), op);
        SendsMore(before, job, fates);
        SuccessesMore(before, job, fates);
        if Succeeds(fates[job]) {
          repaired := repaired + 1;
        } else {
          failed := failed + 1;
        }
      }
    }
    assert jobs[..|jobs|] == jobs;
  }

  /** Every send whose calls succeed leaves an entry for its job in the stream. */
  lemma {:induction false} SuccessfulSendsArrive(s: Sys, jobs: seq<string>, fates: map<string, Fate>, job: string)
    requires forall j :: j in jobs ==> j in fates
    requires job in jobs && Succeeds(fates[job])
    ensures StreamEntry(job, None) in SysRun(s, Sends(jobs, fates)).stream
    decreases |jobs|
  {
    var shorter, last := jobs[..|jobs| - 1], jobs[|jobs| - 1];
    assert Sends(jobs, fates)[..|jobs| - 1] == Sends(shorter, fates);
    if last != job {
      SuccessfulSendsArrive(s, shorter, fates, job);
    }
  }

  /** A fault-free cycle gives every stale pending job an entry, unless the batch is full of older ones. */
  lemma RepairCoversStaleJobs(
    s: Sys, before: Time, jobs: seq<string>, limit: nat, fates: map<string, Fate>, job: string)
    requires Candidates(StaleAges(s.db, before), jobs, limit)
    requires forall j :: j in jobs ==> j in fates && Succeeds(fates[j])
    requires job in StaleAges(s.db, before)
    ensures forall j :: j in FirstSeen(jobs) ==> j in fates
    ensures var ages := StaleAges(s.db, before);
      || StreamEntry(job, None) in SysRun(s, Sends(FirstSeen(jobs), fates)).stream
      || (|jobs| == limit && forall i :: 0 <= i < |jobs| ==> ages[jobs[i]] <= ages[job])
  {
    hide SysRun, StaleAges;
    FirstSeenKeepsJobs(jobs);
    var ages := StaleAges(s.db, before);
    if job in jobs {
      SuccessfulSendsArrive(s, FirstSeen(jobs), fates, job);
    } else {
      DistinctWithin(jobs, ages.Keys - {job});
      assert |ages.Keys - {job}| == |ages| - 1;
    }
  }

  lemma {:induction false} DistinctWithin(jobs: seq<string>, pool: set<string>)
    requires forall i, j :: 0 <= i < j < |jobs| ==> jobs[i] != jobs[j]
    requires forall i :: 0 <= i < |jobs| ==> jobs[i] in pool
    ensures |jobs| <= |pool|
    decreases |jobs|
  {
    if jobs != [] {
      DistinctWithin(jobs[..|jobs| - 1], pool - {jobs[|jobs| - 1]});
    }
  }
}
