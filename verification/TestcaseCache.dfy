/**
 The worker's testcase cache: a map of entries and a recency list, kept in step, trimmed by age and then by
 a byte budget, or by a count when no budget is set.
 */
module TestcaseCache {
  import opened Options

  type Time = int

  const MAX_INT64: int := 0x7FFF_FFFF_FFFF_FFFF

  /** An int64 sum as Go keeps it. */
  function Wrap64(x: int): int {
    (x + MAX_INT64 + 1) % 0x1_0000_0000_0000_0000 - MAX_INT64 - 1
  }

  /** `deriveCacheByteBudget`: the exact product, or the largest int64 when it does not fit; 0 means no budget. */
  method DeriveCacheByteBudget(cacheMax: int, unzipMaxBytes: int) returns (budget: int)
    requires cacheMax <= MAX_INT64 && unzipMaxBytes <= MAX_INT64
    ensures cacheMax <= 0 || unzipMaxBytes <= 0 ==> budget == 0
    ensures 0 < cacheMax && 0 < unzipMaxBytes ==>
      budget == if cacheMax * unzipMaxBytes <= MAX_INT64 then cacheMax * unzipMaxBytes else MAX_INT64
  {
    if cacheMax <= 0 || unzipMaxBytes <= 0 {
      return 0;
    }
    QuotientBound(cacheMax, unzipMaxBytes, MAX_INT64);
    if cacheMax > MAX_INT64 / unzipMaxBytes {
      return MAX_INT64;
    }
    return Wrap64(cacheMax * unzipMaxBytes);
  }

  lemma QuotientBound(a: int, b: int, m: int)
    requires 0 < b && 0 <= m
    ensures a > m / b <==> a * b > m
  {
    var q := m / b;
    assert m == b * q + m % b;
    if a > q {
      Scaled(q + 1, a, b);
    } else {
      Scaled(a, q, b);
    }
  }

  lemma Scaled(x: int, y: int, b: int)
    requires 0 < b && x <= y
    ensures x * b <= y * b
  {
  }

  datatype Entry = Entry(etag: string, zipPath: string, workDir: string, sizeBytes: nat, lastAccess: Time)

  type Entries = map<string, Entry>

  predicate NoRepeats(ids: seq<string>) {
    forall i, j :: 0 <= i < j < |ids| ==> ids[i] != ids[j]
  }

  predicate NewestFirst(ids: seq<string>, m: Entries)
    requires forall id :: id in ids ==> id in m
  {
    forall i, j :: 0 <= i < j < |ids| ==> m[ids[i]].lastAccess >= m[ids[j]].lastAccess
  }

  function Without(ids: seq<string>, id: string): (r: seq<string>)
    ensures forall x :: x in r <==> x in ids && x != id
  {
    if ids == [] then []
    else if ids[0] == id then Without(ids[1..], id)
    else [ids[0]] + Without(ids[1..], id)
  }

  lemma NoRepeatsCons(head: string, tail: seq<string>)
    ensures NoRepeats([head] + tail) <==> NoRepeats(tail) && head !in tail
  {
    var ids := [head] + tail;
    assert ids[1..] == tail;
    if NoRepeats(ids) {
      forall i, j | 0 <= i < j < |tail|
        ensures tail[i] != tail[j]
      {
        assert ids[i + 1] != ids[j + 1];
      }
      assert forall j :: 0 < j < |ids| ==> ids[0] != ids[j];
    }
  }

  lemma {:induction false} WithoutNoRepeats(ids: seq<string>, id: string)
    requires NoRepeats(ids)
    ensures NoRepeats(Without(ids, id))
  {
    if ids != [] {
      assert ids == [ids[0]] + ids[1..];
      NoRepeatsCons(ids[0], ids[1..]);
      WithoutNoRepeats(ids[1..], id);
      NoRepeatsCons(ids[0], Without(ids[1..], id));
    }
  }

  lemma {:induction false} WithoutKeepsOrder(ids: seq<string>, id: string, m: Entries)
    requires forall x :: x in ids ==> x in m
    requires NewestFirst(ids, m)
    ensures NewestFirst(Without(ids, id), m)
  {
    if ids != [] {
      WithoutKeepsOrder(ids[1..], id, m);
      var r := Without(ids[1..], id);
      forall k | 0 <= k < |r|
        ensures m[ids[0]].lastAccess >= m[r[k]].lastAccess
      {
        assert r[k] in r;
        HeadIsNewest(ids, m, r[k]);
      }
      hide Without;
      NewestFirstCons(ids[0], r, m);
    }
  }

  lemma HeadIsNewest(ids: seq<string>, m: Entries, x: string)
    requires (forall y :: y in ids ==> y in m) && NewestFirst(ids, m) && x in ids
    ensures m[ids[0]].lastAccess >= m[x].lastAccess
  {
    var k :| 0 <= k < |ids| && ids[k] == x;
  }

  lemma NewestFirstCons(head: string, tail: seq<string>, m: Entries)
    requires head in m && (forall y :: y in tail ==> y in m) && NewestFirst(tail, m)
    requires forall k :: 0 <= k < |tail| ==> m[head].lastAccess >= m[tail[k]].lastAccess
    ensures NewestFirst([head] + tail, m)
  {
  }

  /** The bytes of the listed entries. */
  function Total(ids: seq<string>, m: Entries): nat
    requires forall id :: id in ids ==> id in m
  {
    if ids == [] then 0 else Total(ids[..|ids| - 1], m) + m[ids[|ids| - 1]].sizeBytes
  }

  lemma {:induction false} TotalConcat(a: seq<string>, b: seq<string>, m: Entries)
    requires forall id :: id in a + b ==> id in m
    ensures forall id :: (id in a ==> id in m) && (id in b ==> id in m)
    ensures Total(a + b, m) == Total(a, m) + Total(b, m)
    decreases |b|
  {
    assert forall id :: id in a || id in b ==> id in a + b;
    if b == [] {
      assert a + b == a;
    } else {
      assert (a + b)[..|a + b| - 1] == a + b[..|b| - 1];
      TotalConcat(a, b[..|b| - 1], m);
    }
  }

  lemma TotalOfMiddle(left: seq<string>, id: string, right: seq<string>, m: Entries)
    requires forall x :: x in left + [id] + right ==> x in m
    ensures forall x :: x in left + right ==> x in left + [id] + right
    ensures id in left + [id] + right
    ensures Total(left + [id] + right, m) == Total(left + right, m) + m[id].sizeBytes
  {
    assert (left + [id])[|left|] == id && (left + [id] + right)[|left|] == id;
    assert forall x :: x in left || x in right ==> x in left + [id] + right;
    assert (left + [id])[..|left|] == left;
    TotalConcat(left + [id], right, m);
    TotalConcat(left, right, m);
  }

  /** Taking one element out of a list without repeats leaves the others, and no repeats. */
  lemma MemberSplit(left: seq<string>, id: string, right: seq<string>)
    requires NoRepeats(left + [id] + right)
    ensures NoRepeats(left + right)
    ensures forall x :: x in left + right <==> x in left + [id] + right && x != id
  {
    var all, some := left + [id] + right, left + right;
    var at := (k: int) => if k < |left| then k else k + 1;
    assert forall k :: 0 <= k < |some| ==> some[k] == all[at(k)];
    forall i, j | 0 <= i < j < |some|
      ensures some[i] != some[j]
    {
      assert all[at(i)] != all[at(j)];
    }
    forall k | 0 <= k < |some|
      ensures some[k] in all && some[k] != id
    {
      assert all[at(k)] in all && all[|left|] == id;
    }
    forall x | x in all && x != id
      ensures x in some
    {
      assert x in left || x in right;
    }
  }

  /** The sum does not depend on the order in which a map is walked. */
  lemma {:induction false} TotalOfPermutation(a: seq<string>, b: seq<string>, m: Entries)
    requires NoRepeats(a) && NoRepeats(b)
    requires forall id :: id in a <==> id in b
    requires forall id :: id in a ==> id in m
    ensures Total(a, m) == Total(b, m)
    decreases |a|
  {
    hide NoRepeats;
    assert forall k :: 0 <= k < |b| ==> b[k] in a;
    if a != [] {
      var last, rest := a[|a| - 1], a[..|a| - 1];
      assert last in a;
      var left, right := SplitAt(b, last);
      assert rest + [last] + [] == a && rest + [] == rest;
      MemberSplit(rest, last, []);
      MemberSplit(left, last, right);
      TotalOfMiddle(left, last, right, m);
      TotalOfPermutation(rest, left + right, m);
    }
  }

  lemma SplitAt(b: seq<string>, id: string) returns (left: seq<string>, right: seq<string>)
    requires id in b
    ensures b == left + [id] + right
  {
    var k :| 0 <= k < |b| && b[k] == id;
    left, right := b[..k], b[k + 1..];
  }

  predicate Expired(e: Entry, ttl: int, now: Time) {
    ttl > 0 && now - e.lastAccess > ttl
  }

  /** The entries that are not too old, in the same order. */
  function Fresh(ids: seq<string>, m: Entries, ttl: int, now: Time): (r: seq<string>)
    requires forall id :: id in ids ==> id in m
    ensures forall id :: id in r <==> id in ids && !Expired(m[id], ttl, now)
  {
    if ids == [] then []
    else if Expired(m[ids[0]], ttl, now) then Fresh(ids[1..], m, ttl, now)
    else [ids[0]] + Fresh(ids[1..], m, ttl, now)
  }

  /** In a list sorted by last access the unexpired entries come first. */
  lemma {:induction false} FreshIsPrefix(ids: seq<string>, m: Entries, ttl: int, now: Time)
    requires forall id :: id in ids ==> id in m
    requires NewestFirst(ids, m)
    ensures Fresh(ids, m, ttl, now) <= ids
  {
    if ids == [] {
    } else if Expired(m[ids[0]], ttl, now) {
      forall id | id in ids
        ensures Expired(m[id], ttl, now)
      {
        HeadIsNewest(ids, m, id);
      }
      AllExpired(ids, m, ttl, now);
    } else {
      FreshIsPrefix(ids[1..], m, ttl, now);
    }
  }

  lemma {:induction false} AllExpired(ids: seq<string>, m: Entries, ttl: int, now: Time)
    requires forall id :: id in ids ==> id in m && Expired(m[id], ttl, now)
    ensures Fresh(ids, m, ttl, now) == []
  {
    if ids != [] {
      AllExpired(ids[1..], m, ttl, now);
    }
  }

  /** What a byte budget has room for: from the front on, as long as the next entry still fits. */
  function Fitting(ids: seq<string>, m: Entries, budget: int): (r: seq<string>)
    requires forall id :: id in ids ==> id in m
    ensures r <= ids
  {
    if ids == [] || m[ids[0]].sizeBytes > budget then []
    else [ids[0]] + Fitting(ids[1..], m, budget - m[ids[0]].sizeBytes)
  }

  /** `Fitting` is the longest prefix within the budget. */
  lemma {:induction false} FittingIsLongestPrefix(ids: seq<string>, m: Entries, budget: int, k: nat)
    requires forall id :: id in ids ==> id in m
    requires k <= |ids| && budget >= 0
    ensures Total(ids[..k], m) <= budget <==> k <= |Fitting(ids, m, budget)|
  {
    if k > 0 {
      var head, tail := [ids[0]], ids[1..];
      assert ids[..k] == head + tail[..k - 1];
      TotalConcat(head, tail[..k - 1], m);
      assert head[..0] == [];
      if m[ids[0]].sizeBytes <= budget {
        FittingIsLongestPrefix(tail, m, budget - m[ids[0]].sizeBytes, k - 1);
      }
    }
  }

  /** Dropping entries from the back while the int64 sum is over the budget. */
  function Shrunk(ids: seq<string>, m: Entries, budget: int): (r: seq<string>)
    requires forall id :: id in ids ==> id in m
    ensures r <= ids
  {
    if ids == [] || Wrap64(Total(ids, m)) <= budget then ids else Shrunk(ids[..|ids| - 1], m, budget)
  }

  /** No sum over the budget reads as within it once it is an int64. */
  ghost predicate SumsStayOver(ids: seq<string>, m: Entries, budget: int)
    requires forall id :: id in ids ==> id in m
  {
    forall n :: 0 <= n <= |ids| ==> StaysOver(ids[..n], m, budget)
  }

  predicate StaysOver(ids: seq<string>, m: Entries, budget: int)
    requires forall id :: id in ids ==> id in m
  {
    Total(ids, m) > budget ==> Wrap64(Total(ids, m)) > budget
  }

  /** Shrinking from the back leaves the longest fitting prefix exactly when no int64 sum wraps on the way. */
  lemma {:induction false} ShrunkIsFittingIff(ids: seq<string>, m: Entries, budget: int)
    requires forall id :: id in ids ==> id in m
    requires 0 <= budget <= MAX_INT64
    ensures Shrunk(ids, m, budget) == Fitting(ids, m, budget) <==> SumsStayOver(ids, m, budget)
    decreases |ids|
  {
    hide Fitting, Total, SumsStayOver, StaysOver;
    assert ids[..|ids|] == ids;
    FittingIsLongestPrefix(ids, m, budget, |ids|);
    var fit := Fitting(ids, m, budget);
    if Wrap64(Total(ids, m)) <= budget {
      if Total(ids, m) > budget {
        NotAllStayOver(ids, m, budget);
      } else {
        AllStayOver(ids, m, budget, |ids|);
      }
    } else {
      FittingIsLongestPrefix([], m, budget, 0);
      NoTotal(m);
      var shorter := ids[..|ids| - 1];
      ShrunkIsFittingIff(shorter, m, budget);
      FittingOfPrefix(ids, m, budget, |ids| - 1);
      StayOverOfPrefix(ids, m, budget);
    }
  }

  lemma NoTotal(m: Entries)
    ensures Total([], m) == 0
  {
  }

  lemma NotAllStayOver(ids: seq<string>, m: Entries, budget: int)
    requires forall id :: id in ids ==> id in m
    requires Total(ids, m) > budget && Wrap64(Total(ids, m)) <= budget
    ensures !SumsStayOver(ids, m, budget)
  {
    assert ids[..|ids|] == ids;
    assert !StaysOver(ids[..|ids|], m, budget);
  }

  lemma AllStayOver(ids: seq<string>, m: Entries, budget: int, k: nat)
    requires forall id :: id in ids ==> id in m
    requires k == |ids| && 0 <= budget && Total(ids, m) <= budget
    ensures SumsStayOver(ids, m, budget)
  {
    assert ids[..k] == ids;
    forall n | 0 <= n <= |ids|
      ensures StaysOver(ids[..n], m, budget)
    {
      FittingIsLongestPrefix(ids, m, budget, n);
      FittingIsLongestPrefix(ids, m, budget, k);
    }
  }

  lemma WholeStaysOver(ids: seq<string>, m: Entries, budget: int)
    requires forall id :: id in ids ==> id in m
    requires Wrap64(Total(ids, m)) > budget
    ensures StaysOver(ids, m, budget)
  {
  }

  lemma StayOverOfPrefix(ids: seq<string>, m: Entries, budget: int)
    requires forall id :: id in ids ==> id in m
    requires ids != [] && Wrap64(Total(ids, m)) > budget
    ensures SumsStayOver(ids, m, budget) <==> SumsStayOver(ids[..|ids| - 1], m, budget)
  {
    var shorter := ids[..|ids| - 1];
    assert ids[..|ids|] == ids;
    WholeStaysOver(ids, m, budget);
    hide Total, StaysOver, Wrap64;
    if SumsStayOver(ids, m, budget) {
      forall n | 0 <= n <= |shorter|
        ensures StaysOver(shorter[..n], m, budget)
      {
        assert shorter[..n] == ids[..n] && StaysOver(ids[..n], m, budget);
      }
    }
    if SumsStayOver(shorter, m, budget) {
      forall n | 0 <= n <= |ids|
        ensures StaysOver(ids[..n], m, budget)
      {
        if n < |ids| {
          assert shorter[..n] == ids[..n] && StaysOver(shorter[..n], m, budget);
        }
      }
    }
  }

  /** Two entries of the largest size sum to -2 in an int64: nothing is evicted, however small the budget. */
  lemma WrappedSumEvictsNothing() returns (ids: seq<string>, m: Entries)
    ensures forall id :: id in ids ==> id in m
    ensures Shrunk(ids, m, 1) == ids && |ids| == 2 && Fitting(ids, m, 1) == []
  {
    var big := Entry("", "", "", MAX_INT64, 0);
    ids, m := ["a", "b"], map["a" := big, "b" := big];
    assert ids[..1] == ["a"] && ids[..1][..0] == [];
    assert Total(ids[..1], m) == MAX_INT64;
    assert Total(ids, m) == MAX_INT64 + MAX_INT64;
  }

  lemma {:induction false} FittingOfPrefix(ids: seq<string>, m: Entries, budget: int, k: nat)
    requires forall id :: id in ids ==> id in m
    requires 0 <= budget && |Fitting(ids, m, budget)| <= k <= |ids|
    ensures Fitting(ids[..k], m, budget) == Fitting(ids, m, budget)
  {
    if ids != [] && k > 0 && m[ids[0]].sizeBytes <= budget {
      assert ids[..k][1..] == ids[1..][..k - 1];
      FittingOfPrefix(ids[1..], m, budget - m[ids[0]].sizeBytes, k - 1);
    }
  }

  /** The entry after a touch: blank arguments keep the known values, and the size is measured again. */
  function TouchedEntry(
    m: Entries, id: string, etag: string, zipPath: string, workDir: string, disk: (string, string) -> nat, now: Time)
    : Entry
  {
    var e := if id in m then m[id] else Entry("", "", "", 0, 0);
    var zip := if zipPath != "" then zipPath else e.zipPath;
    var dir := if workDir != "" then workDir else e.workDir;
    Entry(if etag != "" then etag else e.etag, zip, dir, disk(zip, dir), now)
  }

  /** What the three limits leave of a recency list. */
  function Kept(ids: seq<string>, m: Entries, ttl: int, budget: int, cacheMax: int, now: Time): (r: seq<string>)
    requires forall id :: id in ids ==> id in m
    ensures forall id :: id in r ==> id in ids
  {
    var young := Fresh(ids, m, ttl, now);
    if budget > 0 then Shrunk(young, m, budget)
    else if 0 < cacheMax < |young| then young[..cacheMax]
    else young
  }

  function Restricted(m: Entries, ids: seq<string>): Entries {
    map id | id in m && id in ids :: m[id]
  }

  /**
   What the limits leave, in ages and sizes: nothing unused for longer than a positive ttl, nothing dropped that
   was used later than what stays, and no unexpired entry dropped but for the budget or the count.
   */
  ghost predicate Remains(before: Entries, after: Entries, ttl: int, budget: int, cacheMax: int, now: Time) {
    && (forall id :: id in after ==> id in before && after[id] == before[id])
    && (forall id :: id in after && ttl > 0 ==> now - after[id].lastAccess <= ttl)
    && (forall x, y :: x in before && x !in after && y in after ==> before[x].lastAccess <= after[y].lastAccess)
    && (budget <= 0 && cacheMax > 0 ==> |after| <= cacheMax)
    && (budget <= 0 && (cacheMax <= 0 || |after| < cacheMax) ==>
          forall id :: id in before && (ttl <= 0 || now - before[id].lastAccess <= ttl) ==> id in after)
  }

  lemma KeptRemains(ids: seq<string>, m: Entries, ttl: int, budget: int, cacheMax: int, now: Time)
    requires NoRepeats(ids) && (forall id :: id in m <==> id in ids) && NewestFirst(ids, m)
    ensures Remains(m, Restricted(m, Kept(ids, m, ttl, budget, cacheMax, now)), ttl, budget, cacheMax, now)
  {
    hide NewestFirst, Shrunk, Fresh, NoRepeats;
    var kept, young := Kept(ids, m, ttl, budget, cacheMax, now), Fresh(ids, m, ttl, now);
    FreshIsPrefix(ids, m, ttl, now);
    assert kept <= young;
    forall x, y | x in ids && x !in kept && y in kept
      ensures m[x].lastAccess <= m[y].lastAccess
    {
      PrefixIsNewer(ids, m, kept, x, y);
    }
    PrefixNoRepeats(ids, kept);
    SizeOfRestricted(kept, m);
  }

  lemma PrefixNoRepeats(ids: seq<string>, kept: seq<string>)
    requires NoRepeats(ids) && kept <= ids
    ensures NoRepeats(kept)
  {
    assert forall k :: 0 <= k < |kept| ==> kept[k] == ids[k];
  }

  lemma PrefixIsNewer(ids: seq<string>, m: Entries, kept: seq<string>, x: string, y: string)
    requires (forall id :: id in ids ==> id in m) && NewestFirst(ids, m) && kept <= ids
    requires x in ids && x !in kept && y in kept
    ensures m[x].lastAccess <= m[y].lastAccess
  {
    var i :| 0 <= i < |ids| && ids[i] == x;
    var j :| 0 <= j < |kept| && kept[j] == y;
    assert forall k :: 0 <= k < |kept| ==> kept[k] == ids[k] && kept[k] in kept;
    assert ids[j] == y;
  }

  lemma {:induction false} SizeOfDistinct(ids: seq<string>)
    requires NoRepeats(ids)
    ensures |set id | id in ids| == |ids|
  {
    if ids != [] {
      var front, last := ids[..|ids| - 1], ids[|ids| - 1];
      SizeOfDistinct(front);
      assert (set id | id in ids) == (set id | id in front) + {last};
      assert last !in front;
    }
  }

  lemma SizeOfRestricted(ids: seq<string>, m: Entries)
    requires NoRepeats(ids) && forall id :: id in ids ==> id in m
    ensures |Restricted(m, ids)| == |ids|
  {
    SizeOfDistinct(ids);
    hide NoRepeats;
    assert Restricted(m, ids).Keys == set id | id in ids;
  }

  lemma RestrictedKeeps(m: Entries, ids: seq<string>, id: string)
    ensures id in Restricted(m, ids) ==> id in m && Restricted(m, ids)[id] == m[id]
  {
  }

  class TestCaseManager {
    const cacheTTL: int
    const cacheByteBudget: int
    const cacheMax: int
    var cacheMap: Entries
    var cacheList: seq<string>

    /** List and map hold the same entries, each once, most recently used first. */
    ghost predicate Valid()
      reads this
    {
      && NoRepeats(cacheList)
      && (forall id :: id in cacheMap <==> id in cacheList)
      && NewestFirst(cacheList, cacheMap)
    }

    constructor (ttl: int, budget: int, max: int)
      ensures Valid() && cacheList == [] && cacheMap == map[]
      ensures cacheTTL == ttl && cacheByteBudget == budget && cacheMax == max
    {
      cacheTTL, cacheByteBudget, cacheMax := ttl, budget, max;
      cacheMap, cacheList := map[], [];
    }

    method TotalCacheBytes() returns (total: int)
      requires Valid()
      ensures total == Wrap64(Total(cacheList, cacheMap))
    {
      hide NewestFirst, NoRepeats, Total, Wrap64;
      total := 0;
      WrapAdds(0, 0);
      EmptyWalk(cacheMap);
      var m, left := cacheMap, cacheMap.Keys;
      ghost var walked: seq<string> := [];
      while left != {}
        invariant NoRepeats(walked)
        invariant forall id :: id in walked <==> id in m && id !in left
        invariant left <= m.Keys
        invariant total == Wrap64(Total(walked, m))
        decreases |left|
      {
        var id :| id in left;
        total := Wrap64(total + m[id].sizeBytes);
        WalkOne(walked, id, m);
        WrapAdds(Total(walked, m), m[id].sizeBytes);
        walked, left := walked + [id], left - {id};
      }
      TotalOfPermutation(walked, cacheList, m);
    }

    method RemoveEntry(id: string)
      requires Valid()
      modifies this`cacheMap, this`cacheList
      ensures Valid()
      ensures cacheMap == old(cacheMap) - {id} && cacheList == Without(old(cacheList), id)
    {
      if id !in cacheMap {
        WithoutAbsent(cacheList, id);
        return;
      }
      WithoutKeepsOrder(cacheList, id, cacheMap);
      WithoutNoRepeats(cacheList, id);
      cacheList := Without(cacheList, id);
      cacheMap := cacheMap - {id};
    }

    method RemoveExpired(now: Time)
      requires Valid()
      modifies this`cacheMap, this`cacheList
      ensures Valid()
      ensures cacheList == Fresh(old(cacheList), old(cacheMap), cacheTTL, now)
      ensures cacheMap == Restricted(old(cacheMap), cacheList)
      ensures forall id :: id in cacheMap <==>
                id in old(cacheMap) && (cacheTTL <= 0 || now - old(cacheMap)[id].lastAccess <= cacheTTL)
    {
      hide NewestFirst, NoRepeats, WithoutAll, Fresh, Without;
      ghost var m, ids := cacheMap, cacheList;
      var left := cacheMap.Keys;
      ghost var dropped: set<string> := {};
      WithoutAllNone(ids);
      while left != {}
        invariant Valid()
        invariant left <= m.Keys
        invariant cacheList == WithoutAll(ids, dropped)
        invariant cacheMap == m - dropped
        invariant dropped == set id | id in m && id !in left && Expired(m[id], cacheTTL, now)
        decreases |left|
      {
        var id :| id in left;
        left := left - {id};
        if cacheTTL > 0 && now - cacheMap[id].lastAccess > cacheTTL {
          RemoveEntry(id);
          WithoutAllPlus(ids, dropped, id);
          dropped := dropped + {id};
        }
      }
      WithoutAllIsFresh(ids, m, cacheTTL, now, dropped);
    }

    method EvictIfNeeded(now: Time)
      requires Valid()
      modifies this`cacheMap, this`cacheList
      ensures Valid()
      ensures cacheList == Kept(old(cacheList), old(cacheMap), cacheTTL, cacheByteBudget, cacheMax, now)
      ensures cacheMap == Restricted(old(cacheMap), cacheList)
      ensures Remains(old(cacheMap), cacheMap, cacheTTL, cacheByteBudget, cacheMax, now)
    {
      hide NewestFirst, NoRepeats, Without, Fresh, Total, Restricted, Remains;
      ghost var m, order := cacheMap, cacheList;
      RemoveExpired(now);
      ghost var young := cacheList;
      if cacheByteBudget > 0 {
        var total := TotalCacheBytes();
        while total > cacheByteBudget
          invariant Valid() && cacheList <= young
          invariant cacheMap == Restricted(m, cacheList)
          invariant total == Wrap64(Total(cacheList, cacheMap))
          invariant Shrunk(cacheList, m, cacheByteBudget) == Shrunk(young, m, cacheByteBudget)
          decreases |cacheList|
        {
          TotalOfRestricted(cacheList, m, cacheList);
          if |cacheList| == 0 {
            break;
          }
          ghost var before := cacheList;
          RemoveLast();
          RestrictedPrefix(m, before, cacheList);
          total := TotalCacheBytes();
        }
        TotalOfRestricted(cacheList, m, cacheList);
        KeptRemains(order, m, cacheTTL, cacheByteBudget, cacheMax, now);
        return;
      }
      while cacheMax > 0 && |cacheList| > cacheMax
        invariant Valid() && cacheList <= young
        invariant cacheMax > 0 && |young| > cacheMax ==> |cacheList| >= cacheMax
        invariant !(cacheMax > 0 && |young| > cacheMax) ==> cacheList == young
        invariant cacheMap == Restricted(m, cacheList)
        decreases |cacheList|
      {
        ghost var before := cacheList;
        RemoveLast();
        RestrictedPrefix(m, before, cacheList);
      }
      KeptRemains(order, m, cacheTTL, cacheByteBudget, cacheMax, now);
    }

    /** Evicts the entry at the back of the list. */
    method RemoveLast()
      requires Valid() && cacheList != []
      modifies this`cacheMap, this`cacheList
      ensures Valid() && cacheList == old(cacheList)[..|old(cacheList)| - 1]
      ensures cacheMap == Restricted(old(cacheMap), cacheList)
    {
      ghost var ids, m := cacheList, cacheMap;
      WithoutLast(cacheList);
      RemoveEntry(cacheList[|cacheList| - 1]);
      assert cacheMap == Restricted(m, cacheList);
    }

    /**
     Moves the problem to the front, with its size measured again, then evicts. `now` is the reading for the
     touched entry and `later` the one the expiry test uses.
     */
    method TouchCache(
      id: string, etag: string, zipPath: string, workDir: string, disk: (string, string) -> nat, now: Time, later: Time)
      requires Valid() && forall x :: x in cacheMap ==> cacheMap[x].lastAccess <= now
      modifies this`cacheMap, this`cacheList
      ensures Valid()
      ensures var m := old(cacheMap)[id := TouchedEntry(old(cacheMap), id, etag, zipPath, workDir, disk, now)];
        var order := [id] + Without(old(cacheList), id);
        && (forall x :: x in order ==> x in m)
        && cacheList == Kept(order, m, cacheTTL, cacheByteBudget, cacheMax, later)
        && cacheMap == Restricted(m, cacheList)
        && Remains(m, cacheMap, cacheTTL, cacheByteBudget, cacheMax, later)
      ensures id in cacheMap ==>
        var e := cacheMap[id];
        && e.lastAccess == now && e.sizeBytes == disk(e.zipPath, e.workDir)
        && (etag != "" ==> e.etag == etag) && (zipPath != "" ==> e.zipPath == zipPath)
        && (workDir != "" ==> e.workDir == workDir)
        && (id in old(cacheMap) ==>
              && (etag == "" ==> e.etag == old(cacheMap)[id].etag)
              && (zipPath == "" ==> e.zipPath == old(cacheMap)[id].zipPath)
              && (workDir == "" ==> e.workDir == old(cacheMap)[id].workDir))
    {
      hide NewestFirst, NoRepeats, Without, Fresh, Shrunk, Kept, Restricted, Remains;
      ghost var m := cacheMap[id := TouchedEntry(cacheMap, id, etag, zipPath, workDir, disk, now)];
      ghost var order := [id] + Without(cacheList, id);
      TouchedOrder(cacheList, cacheMap, id, m[id]);
      if id in cacheMap {
        var e := cacheMap[id].(lastAccess := now);
        if etag != "" {
          e := e.(etag := etag);
        }
        if zipPath != "" {
          e := e.(zipPath := zipPath);
        }
        if workDir != "" {
          e := e.(workDir := workDir);
        }
        e := e.(sizeBytes := disk(e.zipPath, e.workDir));
        cacheMap := cacheMap[id := e];
        cacheList := [id] + Without(cacheList, id);
      } else {
        WithoutAbsent(cacheList, id);
        cacheList := [id] + cacheList;
        cacheMap := cacheMap[id := Entry(etag, zipPath, workDir, disk(zipPath, workDir), now)];
      }
      assert cacheList == order && cacheMap == m;
      EvictIfNeeded(later);
      RestrictedKeeps(m, cacheList, id);
    }
  }

  lemma WalkOne(ids: seq<string>, id: string, m: Entries)
    requires NoRepeats(ids) && id !in ids
    requires id in m && forall x :: x in ids ==> x in m
    ensures NoRepeats(ids + [id])
    ensures Total(ids + [id], m) == Total(ids, m) + m[id].sizeBytes
  {
    assert (ids + [id])[..|ids|] == ids;
  }

  lemma WrapAdds(a: int, b: int)
    ensures Wrap64(Wrap64(a) + b) == Wrap64(a + b) && Wrap64(0) == 0
  {
  }

  lemma EmptyWalk(m: Entries)
    ensures NoRepeats([]) && Total([], m) == 0
  {
  }

  /** Putting a problem in front with the newest access time keeps list and map in step. */
  lemma TouchedOrder(ids: seq<string>, m: Entries, id: string, e: Entry)
    requires NoRepeats(ids) && (forall x :: x in m <==> x in ids) && NewestFirst(ids, m)
    requires forall x :: x in m ==> m[x].lastAccess <= e.lastAccess
    ensures var order := [id] + Without(ids, id);
      && NoRepeats(order)
      && (forall x :: x in m[id := e] <==> x in order)
      && NewestFirst(order, m[id := e])
  {
    hide NoRepeats, Without;
    var rest := Without(ids, id);
    WithoutNoRepeats(ids, id);
    NoRepeatsCons(id, rest);
    WithoutKeepsOrder(ids, id, m);
    assert forall x :: x in [id] + rest <==> x == id || x in rest;
    forall i, j | 0 <= i < j < |[id] + rest|
      ensures m[id := e][([id] + rest)[i]].lastAccess >= m[id := e][([id] + rest)[j]].lastAccess
    {
      assert rest[j - 1] in rest;
      if i > 0 {
        assert rest[i - 1] in rest;
      }
    }
  }

  lemma {:induction false} WithoutAbsent(ids: seq<string>, id: string)
    requires id !in ids
    ensures Without(ids, id) == ids
  {
    if ids != [] {
      WithoutAbsent(ids[1..], id);
    }
  }

  lemma {:induction false} WithoutLast(ids: seq<string>)
    requires ids != [] && NoRepeats(ids)
    ensures Without(ids, ids[|ids| - 1]) == ids[..|ids| - 1]
  {
    if |ids| > 1 {
      WithoutLast(ids[1..]);
      assert ids[1..][..|ids| - 2] == ids[..|ids| - 1][1..];
    }
  }

  function WithoutAll(ids: seq<string>, dropped: set<string>): (r: seq<string>)
    ensures forall id :: id in r ==> id in ids
  {
    if ids == [] then []
    else if ids[0] in dropped then WithoutAll(ids[1..], dropped)
    else [ids[0]] + WithoutAll(ids[1..], dropped)
  }

  lemma {:induction false} WithoutAllNone(ids: seq<string>)
    ensures WithoutAll(ids, {}) == ids
  {
    if ids != [] {
      WithoutAllNone(ids[1..]);
    }
  }

  lemma {:induction false} WithoutAllPlus(ids: seq<string>, dropped: set<string>, id: string)
    ensures Without(WithoutAll(ids, dropped), id) == WithoutAll(ids, dropped + {id})
  {
    if ids != [] {
      WithoutAllPlus(ids[1..], dropped, id);
      var rest := WithoutAll(ids[1..], dropped);
      assert ([ids[0]] + rest)[1..] == rest;
    }
  }

  lemma {:induction false} WithoutAllIsFresh(ids: seq<string>, m: Entries, ttl: int, now: Time, dropped: set<string>)
    requires forall id :: id in ids ==> id in m
    requires forall id :: id in ids ==> (id in dropped <==> Expired(m[id], ttl, now))
    ensures WithoutAll(ids, dropped) == Fresh(ids, m, ttl, now)
  {
    if ids != [] {
      WithoutAllIsFresh(ids[1..], m, ttl, now, dropped);
    }
  }

  lemma {:induction false} TotalOfRestricted(ids: seq<string>, m: Entries, keep: seq<string>)
    requires forall id :: id in ids ==> id in m && id in keep
    ensures Total(ids, Restricted(m, keep)) == Total(ids, m)
  {
    if ids != [] {
      TotalOfRestricted(ids[..|ids| - 1], m, keep);
    }
  }

  lemma RestrictedPrefix(m: Entries, longer: seq<string>, shorter: seq<string>)
    requires shorter <= longer
    ensures Restricted(Restricted(m, longer), shorter) == Restricted(m, shorter)
  {
    assert forall id :: id in shorter ==> id in longer;
  }

  /** The longest prefix whose sizes sum to at most the budget. */
  ghost predicate LongestWithin(kept: seq<string>, young: seq<string>, m: Entries, budget: int)
    requires forall id :: id in young ==> id in m
  {
    kept <= young && forall k :: 0 <= k <= |young| ==> (k <= |kept| <==> Total(young[..k], m) <= budget)
  }

  lemma FittingIsLongest(young: seq<string>, m: Entries, budget: int, kept: seq<string>)
    requires (forall id :: id in young ==> id in m) && budget >= 0
    ensures LongestWithin(kept, young, m, budget) <==> kept == Fitting(young, m, budget)
  {
    hide Fitting, Total;
    var fit := Fitting(young, m, budget);
    forall k | 0 <= k <= |young|
      ensures Total(young[..k], m) <= budget <==> k <= |fit|
    {
      FittingIsLongestPrefix(young, m, budget, k);
    }
    if LongestWithin(kept, young, m, budget) {
      assert Total(young[..|kept|], m) <= budget && Total(young[..|fit|], m) <= budget;
      assert |kept| <= |fit| && |fit| <= |kept|;
      assert kept == young[..|kept|] && fit == young[..|fit|];
    }
  }

  /**
   LRU: what a touch leaves are the unexpired entries, a prefix of the recency order, and of them exactly the
   longest prefix that fits a budget if there is one (as long as no int64 sum wraps), else the first `cacheMax`.
   */
  lemma KeptIsLongestPrefix(ids: seq<string>, m: Entries, ttl: int, budget: int, cacheMax: int, now: Time)
    requires forall id :: id in ids ==> id in m
    requires NewestFirst(ids, m) && budget <= MAX_INT64
    ensures var young := Fresh(ids, m, ttl, now);
      var kept := Kept(ids, m, ttl, budget, cacheMax, now);
      && kept <= young <= ids
      && (budget > 0 ==> (LongestWithin(kept, young, m, budget) <==> SumsStayOver(young, m, budget)))
      && (budget <= 0 ==> |kept| == if 0 < cacheMax < |young| then cacheMax else |young|)
  {
    hide Fresh, NewestFirst, Shrunk, Fitting, Total, LongestWithin, SumsStayOver;
    var young := Fresh(ids, m, ttl, now);
    FreshIsPrefix(ids, m, ttl, now);
    if budget > 0 {
      ShrunkIsFittingIff(young, m, budget);
      FittingIsLongest(young, m, budget, Shrunk(young, m, budget));
    }
  }

  /** The sizes of all entries together fit an int64: then no sum wraps, and the longest fitting prefix is kept. */
  lemma SumThatFitsKeepsLongest(ids: seq<string>, m: Entries, ttl: int, budget: int, cacheMax: int, now: Time)
    requires forall id :: id in ids ==> id in m
    requires NewestFirst(ids, m) && 0 < budget <= MAX_INT64 && Total(ids, m) <= MAX_INT64
    ensures var young := Fresh(ids, m, ttl, now);
      LongestWithin(Kept(ids, m, ttl, budget, cacheMax, now), young, m, budget)
  {
    hide Fresh, NewestFirst, Kept, Total, LongestWithin, StaysOver, Wrap64;
    var young := Fresh(ids, m, ttl, now);
    KeptIsLongestPrefix(ids, m, ttl, budget, cacheMax, now);
    PrefixTotal(ids, m, |young|);
    assert young == ids[..|young|];
    forall n | 0 <= n <= |young|
      ensures StaysOver(young[..n], m, budget)
    {
      PrefixTotal(young, m, n);
      FitsStaysOver(young[..n], m, budget);
    }
  }

  lemma PrefixTotal(ids: seq<string>, m: Entries, n: nat)
    requires (forall id :: id in ids ==> id in m) && n <= |ids|
    ensures forall id :: id in ids[..n] ==> id in m
    ensures Total(ids[..n], m) <= Total(ids, m)
  {
    hide Total;
    assert ids == ids[..n] + ids[n..];
    TotalConcat(ids[..n], ids[n..], m);
  }

  lemma FitsStaysOver(ids: seq<string>, m: Entries, budget: int)
    requires (forall id :: id in ids ==> id in m) && Total(ids, m) <= MAX_INT64
    ensures StaysOver(ids, m, budget)
  {
    hide Total;
  }
}
