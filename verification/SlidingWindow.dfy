/**
  The per-key sliding-window limiter of internal/middleware/rate_limiter.go.

  One Redis sorted set per key holds a member for every recorded request, scored by the
  request's millisecond timestamp.  A check runs either the atomic Lua script, which records
  only the requests it admits, or the pipeline fallback, which records every request.

  Assumptions: Redis answers; along the order in which Redis executes the calls the
  timestamps do not decrease and the members differ.
*/
module SlidingWindow {
  import opened Common

  const WINDOW: int := 60000
  const KEY_TTL: int := 61000

  // ---------- Redis sorted set ----------

  /** Member "<ms>:<nanoseconds mod 10^6>". */
  datatype Member = Member(ms: int, frac: nat)

  type ZSet = map<Member, int>

  function ZRemRangeByScore(z: ZSet, lo: int, hi: int): ZSet {
    map m | m in z && !(lo <= z[m] <= hi) :: z[m]
  }

  /** The set as a check at `now` sees it once the expired entries are gone. */
  function Pruned(z: ZSet, now: int): ZSet {
    ZRemRangeByScore(z, 0, now - WINDOW)
  }

  // ---------- One check ----------

  datatype Path = Lua | Fallback

  /** `clock` is Redis' own time when the call executes, `now` the caller's timestamp. */
  datatype Call = Call(path: Path, clock: int, now: int, frac: nat) {
    function Id(): Member { Member(now, frac) }
  }

  predicate Admits(z: ZSet, now: int, limit: int) {
    |Pruned(z, now)| < limit
  }

  function After(z: ZSet, c: Call, limit: int): ZSet {
    if c.path == Lua && !Admits(z, c.now, limit) then Pruned(z, c.now)
    else Pruned(z, c.now)[c.Id() := c.now]
  }

  // ---------- Runs on one key ----------

  ghost predicate Timely(trace: seq<Call>) {
    && (forall i :: 0 <= i < |trace| ==> 0 <= trace[i].now)
    && (forall i, j :: 0 <= i <= j < |trace| ==> trace[i].now <= trace[j].now)
  }

  ghost predicate DistinctMembers(trace: seq<Call>) {
    forall i, j :: 0 <= i < j < |trace| ==> trace[i].Id() != trace[j].Id()
  }

  /** The sorted set after the first n calls, starting from an absent key. */
  function Store(trace: seq<Call>, limit: int, n: nat): ZSet
    requires n <= |trace|
  {
    if n == 0 then map[] else After(Store(trace, limit, n - 1), trace[n - 1], limit)
  }

  predicate Admitted(trace: seq<Call>, limit: int, i: nat)
    requires i < |trace|
  {
    Admits(Store(trace, limit, i), trace[i].now, limit)
  }

  /** The decisions on the first n calls. */
  function DecisionsUpTo(trace: seq<Call>, limit: int, n: nat): (flags: seq<bool>)
    requires n <= |trace|
    ensures |flags| == n
  {
    if n == 0 then [] else DecisionsUpTo(trace, limit, n - 1) + [Admitted(trace, limit, n - 1)]
  }

  /** Which of the first n calls leave an entry: every fallback call, and every admitted one. */
  function RecordedUpTo(trace: seq<Call>, limit: int, n: nat): (flags: seq<bool>)
    requires n <= |trace|
    ensures |flags| == n
  {
    if n == 0 then []
    else RecordedUpTo(trace, limit, n - 1) + [trace[n - 1].path == Fallback || Admitted(trace, limit, n - 1)]
  }

  function Decisions(trace: seq<Call>, limit: int): (flags: seq<bool>)
    ensures |flags| == |trace|
  {
    DecisionsUpTo(trace, limit, |trace|)
  }

  function Recorded(trace: seq<Call>, limit: int): (flags: seq<bool>)
    ensures |flags| == |trace|
  {
    RecordedUpTo(trace, limit, |trace|)
  }

  lemma {:induction false} DecisionAt(trace: seq<Call>, limit: int, n: nat, i: nat)
    requires i < n <= |trace|
    ensures DecisionsUpTo(trace, limit, n)[i] == Admitted(trace, limit, i)
    ensures RecordedUpTo(trace, limit, n)[i] == (trace[i].path == Fallback || Admitted(trace, limit, i))
  {
    if i < n - 1 {
      DecisionAt(trace, limit, n - 1, i);
    }
  }

  /** How many of the first n calls are flagged and stamped within (lo, hi]. */
  function Count(trace: seq<Call>, flags: seq<bool>, n: nat, lo: int, hi: int): nat
    requires n <= |trace| && n <= |flags|
  {
    if n == 0 then 0
    else Count(trace, flags, n - 1, lo, hi) + if flags[n - 1] && lo < trace[n - 1].now <= hi then 1 else 0
  }

  lemma {:induction false} CountMonotone(trace: seq<Call>, f: seq<bool>, g: seq<bool>, n: nat,
                                         lo: int, hi: int, lo': int, hi': int)
    requires n <= |trace| && n <= |f| && n <= |g|
    requires forall i :: 0 <= i < n && f[i] && lo < trace[i].now <= hi ==> g[i] && lo' < trace[i].now <= hi'
    ensures Count(trace, f, n, lo, hi) <= Count(trace, g, n, lo', hi')
  {
    if n > 0 {
      CountMonotone(trace, f, g, n - 1, lo, hi, lo', hi');
    }
  }

  // ---------- What the sorted set holds ----------

  ghost predicate ScoredByTime(z: ZSet) {
    forall m :: m in z ==> z[m] == m.ms && 0 <= z[m]
  }

  /** An entry survives a pruning at t exactly when it is younger than 60 s. */
  lemma PrunedKeepsTheYoung(z: ZSet, t: int, m: Member)
    requires ScoredByTime(z)
    ensures m in Pruned(z, t) <==> m in z && t - WINDOW < m.ms
    ensures m in Pruned(z, t) ==> Pruned(z, t)[m] == z[m]
  {
  }

  /** What one call adds to the set a later check at time t will see. */
  lemma CallAddsItsEntry(z: ZSet, c: Call, limit: int, t: int)
    requires ScoredByTime(z) && 0 <= c.now <= t
    ensures ScoredByTime(After(z, c, limit))
    ensures Pruned(After(z, c, limit), t).Keys
         == Pruned(z, t).Keys
          + if (c.path == Fallback || Admits(z, c.now, limit)) && t - WINDOW < c.now then {c.Id()} else {}
  {
    var added := c.path == Fallback || Admits(z, c.now, limit);
    var p := Pruned(z, c.now);
    var z' := After(z, c, limit);
    assert z' == if added then p[c.Id() := c.now] else p;
    forall m ensures m in z' ==> z'[m] == m.ms && 0 <= z'[m] {
      PrunedKeepsTheYoung(z, c.now, m);
    }
    forall m ensures m in Pruned(z', t) <==> m in Pruned(z, t) || (added && t - WINDOW < c.now && m == c.Id()) {
      PrunedKeepsTheYoung(z, c.now, m);
      PrunedKeepsTheYoung(z', t, m);
      PrunedKeepsTheYoung(z, t, m);
    }
  }

  lemma {:induction false} EntriesComeFromCalls(trace: seq<Call>, limit: int, n: nat)
    requires Timely(trace) && n <= |trace|
    ensures ScoredByTime(Store(trace, limit, n))
    ensures forall m :: m in Store(trace, limit, n) ==> exists i :: 0 <= i < n && trace[i].Id() == m
  {
    if n > 0 {
      EntriesComeFromCalls(trace, limit, n - 1);
      CallAddsItsEntry(Store(trace, limit, n - 1), trace[n - 1], limit, trace[n - 1].now);
    }
  }

  lemma CallAddsOne(z: ZSet, c: Call, limit: int, t: int)
    requires ScoredByTime(z) && 0 <= c.now <= t && c.Id() !in z
    ensures |Pruned(After(z, c, limit), t)|
         == |Pruned(z, t)| + if (c.path == Fallback || Admits(z, c.now, limit)) && t - WINDOW < c.now then 1 else 0
  {
    CallAddsItsEntry(z, c, limit, t);
    assert c.Id() !in Pruned(z, t).Keys;
    assert |Pruned(z, t).Keys| == |Pruned(z, t)|;
    assert |Pruned(After(z, c, limit), t).Keys| == |Pruned(After(z, c, limit), t)|;
  }

  lemma FreshMember(trace: seq<Call>, limit: int, n: nat)
    requires Timely(trace) && DistinctMembers(trace) && n < |trace|
    ensures ScoredByTime(Store(trace, limit, n)) && trace[n].Id() !in Store(trace, limit, n)
  {
    EntriesComeFromCalls(trace, limit, n);
  }

  lemma NextCallAddsOne(trace: seq<Call>, limit: int, n: nat, t: int)
    requires Timely(trace) && DistinctMembers(trace) && n < |trace| && trace[n].now <= t
    ensures |Pruned(Store(trace, limit, n + 1), t)|
         == |Pruned(Store(trace, limit, n), t)|
          + if Recorded(trace, limit)[n] && t - WINDOW < trace[n].now then 1 else 0
  {
    DecisionAt(trace, limit, |trace|, n);
    FreshMember(trace, limit, n);
    CallAddsOne(Store(trace, limit, n), trace[n], limit, t);
  }

  /** The pruned set has one entry per recorded call that is still younger than 60 s. */
  lemma {:induction false} StoreCountsTheRecorded(trace: seq<Call>, limit: int, n: nat, t: int)
    requires Timely(trace) && DistinctMembers(trace)
    requires n <= |trace|
    requires n > 0 ==> trace[n - 1].now <= t
    ensures |Pruned(Store(trace, limit, n), t)| == Count(trace, Recorded(trace, limit), n, t - WINDOW, t)
  {
    if n > 0 {
      StoreCountsTheRecorded(trace, limit, n - 1, t);
      NextCallAddsOne(trace, limit, n - 1, t);
    }
  }

  /** Reference meaning of a decision: a call is admitted exactly when fewer than `limit`
      recorded requests are less than 60 s old. */
  lemma AdmittedIffFewerThanLimitRecorded(trace: seq<Call>, limit: int, n: nat)
    requires Timely(trace) && DistinctMembers(trace)
    requires n < |trace|
    ensures Decisions(trace, limit)[n]
       <==> Count(trace, Recorded(trace, limit), n, trace[n].now - WINDOW, trace[n].now) < limit
  {
    StoreCountsTheRecorded(trace, limit, n, trace[n].now);
    DecisionAt(trace, limit, |trace|, n);
  }

  // ---------- Safety ----------

  /** Whatever mixture of script and fallback calls runs on a key, every window
      (t - 60000, t] holds at most `limit` admitted requests. */
  lemma {:induction false} WindowHoldsAtMostLimit(trace: seq<Call>, limit: int, n: nat, t: int)
    requires Timely(trace) && DistinctMembers(trace)
    requires n <= |trace| && limit > 0
    ensures Count(trace, Decisions(trace, limit), n, t - WINDOW, t) <= limit
    decreases n
  {
    if n > 0 {
      WindowHoldsAtMostLimit(trace, limit, n - 1, t);
      if Decisions(trace, limit)[n - 1] && trace[n - 1].now <= t {
        AdmittedAreRecorded(trace, limit, n - 1, t);
      }
    }
  }

  lemma AdmittedAreRecorded(trace: seq<Call>, limit: int, n: nat, t: int)
    requires Timely(trace) && DistinctMembers(trace)
    requires n < |trace| && Decisions(trace, limit)[n] && trace[n].now <= t
    ensures Count(trace, Decisions(trace, limit), n, t - WINDOW, t) < limit
  {
    AdmittedIffFewerThanLimitRecorded(trace, limit, n);
    DecisionsAreRecorded(trace, limit);
    LaterWindowSeesNoMore(trace, Decisions(trace, limit), Recorded(trace, limit), n, t);
  }

  lemma DecisionsAreRecorded(trace: seq<Call>, limit: int)
    ensures forall i :: 0 <= i < |trace| && Decisions(trace, limit)[i] ==> Recorded(trace, limit)[i]
  {
    forall i | 0 <= i < |trace| && Decisions(trace, limit)[i] ensures Recorded(trace, limit)[i] {
      DecisionAt(trace, limit, |trace|, i);
    }
  }

  lemma LaterWindowSeesNoMore(trace: seq<Call>, f: seq<bool>, g: seq<bool>, n: nat, t: int)
    requires Timely(trace) && n < |trace| == |f| == |g| && trace[n].now <= t
    requires forall i :: 0 <= i < n && f[i] ==> g[i]
    ensures Count(trace, f, n, t - WINDOW, t) <= Count(trace, g, n, trace[n].now - WINDOW, trace[n].now)
  {
    CountMonotone(trace, f, g, n, t - WINDOW, t, trace[n].now - WINDOW, trace[n].now);
  }

  ghost predicate Overfull(trace: seq<Call>, limit: int, t: int) {
    Count(trace, Decisions(trace, limit), |trace|, t - WINDOW, t) > limit
  }

  // ---------- Exactly when the bound holds ----------

  /** Timestamps are never more than `skew` behind one that came before. */
  ghost predicate FallsBackAtMost(trace: seq<Call>, skew: nat) {
    && (forall i :: 0 <= i < |trace| ==> 0 <= trace[i].now)
    && (forall i, j :: 0 <= i <= j < |trace| ==> trace[i].now <= trace[j].now + skew)
  }

  /** No trace with that skew, and with distinct members if so assumed, overfills a window. */
  ghost predicate NeverOverfull(limit: int, skew: nat, distinct: bool) {
    forall trace: seq<Call>, t :: FallsBackAtMost(trace, skew) && (distinct ==> DistinctMembers(trace))
      ==> !Overfull(trace, limit, t)
  }

  /** n calls of the script at one time, with different members. */
  function Burst(at: int, n: nat): seq<Call> {
    seq(n, i requires 0 <= i => Call(Lua, at, at, i))
  }

  function BurstSet(at: int, n: nat): ZSet {
    if n == 0 then map[] else BurstSet(at, n - 1)[Member(at, n - 1) := at]
  }

  lemma {:induction false} BurstSetSize(at: int, n: nat)
    ensures |BurstSet(at, n)| == n
    ensures forall m :: m in BurstSet(at, n) ==> m.ms == BurstSet(at, n)[m] == at && m.frac < n
  {
    if n > 0 {
      BurstSetSize(at, n - 1);
      assert Member(at, n - 1) !in BurstSet(at, n - 1);
    }
  }

  lemma BurstSetIsYoung(at: int, n: nat)
    ensures Pruned(BurstSet(at, n), at) == BurstSet(at, n)
  {
    BurstSetSize(at, n);
  }

  /** A trace that begins with a burst within the limit admits all of it. */
  lemma {:induction false} BurstIsAdmitted(trace: seq<Call>, limit: int, at: int, n: nat)
    requires n <= |trace| && n <= limit && trace[..n] == Burst(at, n)
    ensures Store(trace, limit, n) == BurstSet(at, n)
    ensures forall i :: 0 <= i < n ==> Admitted(trace, limit, i)
  {
    if n > 0 {
      assert trace[..n][..n - 1] == trace[..n - 1] && Burst(at, n)[..n - 1] == Burst(at, n - 1);
      BurstIsAdmitted(trace, limit, at, n - 1);
      BurstSetIsYoung(at, n - 1);
      BurstSetSize(at, n - 1);
      assert trace[n - 1] == trace[..n][n - 1] == Call(Lua, at, at, n - 1);
    }
  }

  lemma {:induction false} CountAll(trace: seq<Call>, flags: seq<bool>, n: nat, lo: int, hi: int)
    requires n <= |trace| && n <= |flags|
    requires forall i :: 0 <= i < n ==> flags[i] && lo < trace[i].now <= hi
    ensures Count(trace, flags, n, lo, hi) == n
  {
    if n > 0 {
      CountAll(trace, flags, n - 1, lo, hi);
    }
  }

  function LateTrace(limit: nat): seq<Call> {
    Burst(1, limit) + [Call(Lua, WINDOW + 1, WINDOW + 1, 0), Call(Lua, WINDOW + 1, WINDOW, 0)]
  }

  lemma LateTraceAt(limit: nat)
    ensures LateTrace(limit)[..limit] == Burst(1, limit) && |LateTrace(limit)| == limit + 2
    ensures LateTrace(limit)[limit] == Call(Lua, WINDOW + 1, WINDOW + 1, 0)
    ensures LateTrace(limit)[limit + 1] == Call(Lua, WINDOW + 1, WINDOW, 0)
    ensures forall i :: 0 <= i < limit ==> LateTrace(limit)[i] == Call(Lua, 1, 1, i)
  {
  }

  lemma LateTraceFallsBack(limit: nat)
    ensures FallsBackAtMost(LateTrace(limit), 1) && DistinctMembers(LateTrace(limit))
  {
    LateTraceAt(limit);
  }

  /** A window later the whole burst is pruned, and one entry takes its place. */
  lemma LateCallEmpties(limit: nat)
    requires limit > 0
    ensures After(BurstSet(1, limit), Call(Lua, WINDOW + 1, WINDOW + 1, 0), limit)
         == map[Member(WINDOW + 1, 0) := WINDOW + 1]
  {
    BurstSetSize(1, limit);
    assert Pruned(BurstSet(1, limit), WINDOW + 1) == map[];
  }

  lemma LateTraceStores(limit: nat)
    requires limit > 0
    ensures Store(LateTrace(limit), limit, limit + 1) == map[Member(WINDOW + 1, 0) := WINDOW + 1]
    ensures forall i :: 0 <= i < limit ==> Admitted(LateTrace(limit), limit, i)
  {
    LateTraceAt(limit);
    BurstIsAdmitted(LateTrace(limit), limit, 1, limit);
    LateCallEmpties(limit);
  }

  lemma StragglerIsAdmitted(limit: nat)
    requires limit >= 2
    ensures Admitted(LateTrace(limit), limit, limit + 1)
  {
    LateTraceStores(limit);
    LateTraceAt(limit);
    var z: ZSet := map[Member(WINDOW + 1, 0) := WINDOW + 1];
    assert Pruned(z, WINDOW) == z && |z| == 1;
  }

  /** For every limit above one: after `limit` calls, one that comes a window later has pruned what a
      straggler from just before should have counted. */
  lemma LateTimestampBreaksTheBound(limit: int) returns (trace: seq<Call>)
    requires limit >= 2
    ensures FallsBackAtMost(trace, 1) && DistinctMembers(trace)
    ensures Overfull(trace, limit, WINDOW)
  {
    trace := LateTrace(limit);
    LateTraceFallsBack(limit);
    LateTraceAt(limit);
    LateTraceStores(limit);
    StragglerIsAdmitted(limit);
    var flags := Decisions(trace, limit);
    forall i: nat | i < |trace| ensures flags[i] == Admitted(trace, limit, i) {
      DecisionAt(trace, limit, |trace|, i);
    }
    CountAll(trace, flags, limit, 0, WINDOW);
    assert Count(trace, flags, limit + 1, 0, WINDOW) == limit;
    assert Count(trace, flags, limit + 2, 0, WINDOW) == limit + 1;
  }

  /** And two calls that render to the same member leave one entry. */
  lemma EqualMembersBreakTheBound(limit: int) returns (trace: seq<Call>)
    requires limit >= 2
    ensures FallsBackAtMost(trace, 0) && !DistinctMembers(trace)
    ensures Overfull(trace, limit, 1)
  {
    var first := Call(Lua, 1, 1, 0);
    trace := [first] + Burst(1, limit);
    assert trace[0].Id() == trace[1].Id();
    var flags := Decisions(trace, limit);
    forall i: nat | i < |trace| ensures flags[i] {
      if i == 0 {
        RepeatedStart(trace, limit);
      } else {
        RepeatedBurst(trace, limit, i);
      }
      DecisionAt(trace, limit, |trace|, i);
    }
    CountAll(trace, flags, limit + 1, 1 - WINDOW, 1);
  }

  /** The first call of the burst finds the entry there already. */
  lemma RepeatLeavesOne(limit: int)
    requires limit >= 2
    ensures var z: ZSet := BurstSet(1, 1);
      && After(map[], Call(Lua, 1, 1, 0), limit) == z && Admits(map[], 1, limit)
      && After(z, Call(Lua, 1, 1, 0), limit) == z && Admits(z, 1, limit)
  {
    BurstSetIsYoung(1, 1);
    BurstSetSize(1, 1);
    assert BurstSet(1, 1) == BurstSet(1, 0)[Member(1, 0) := 1] == map[Member(1, 0) := 1];
    assert Pruned(map[], 1) == map[];
  }

  lemma BurstGrows(limit: int, n: nat)
    requires n < limit
    ensures Admits(BurstSet(1, n), 1, limit)
    ensures After(BurstSet(1, n), Call(Lua, 1, 1, n), limit) == BurstSet(1, n + 1)
  {
    BurstSetIsYoung(1, n);
    BurstSetSize(1, n);
  }

  lemma RepeatedStart(trace: seq<Call>, limit: int)
    requires limit >= 2 && |trace| >= 2 && trace[0] == trace[1] == Call(Lua, 1, 1, 0)
    ensures Store(trace, limit, 2) == BurstSet(1, 1)
    ensures Admitted(trace, limit, 0) && Admitted(trace, limit, 1)
  {
    RepeatLeavesOne(limit);
    assert Store(trace, limit, 1) == After(Store(trace, limit, 0), trace[0], limit);
  }

  ghost predicate StartsRepeated(trace: seq<Call>, limit: int) {
    && limit >= 2 && |trace| == limit + 1 && trace[0] == Call(Lua, 1, 1, 0)
    && forall i :: 1 <= i <= limit ==> trace[i] == Call(Lua, 1, 1, i - 1)
  }

  lemma {:induction false} RepeatedBurst(trace: seq<Call>, limit: int, n: nat)
    requires StartsRepeated(trace, limit) && 1 <= n <= limit
    ensures Store(trace, limit, n + 1) == BurstSet(1, n) && Admitted(trace, limit, n)
  {
    if n == 1 {
      RepeatedStart(trace, limit);
    } else {
      RepeatedBurst(trace, limit, n - 1);
      BurstGrows(limit, n - 1);
      assert trace[n] == Call(Lua, 1, 1, n - 1);
    }
  }

  /** With limit 1 some entry is as young as every admitted call, and outlives every pruning so far. */
  ghost predicate Guards(trace: seq<Call>, admitted: seq<bool>, n: nat, z: ZSet, m: Member)
    requires n <= |trace| && n <= |admitted|
  {
    && m in z
    && (forall i :: 0 <= i < n ==> trace[i].now - WINDOW < m.ms)
    && (forall i :: 0 <= i < n && admitted[i] ==> trace[i].now <= m.ms)
  }

  lemma {:induction false} ScoresAreTimes(trace: seq<Call>, limit: int, n: nat)
    requires n <= |trace| && forall i :: 0 <= i < |trace| ==> 0 <= trace[i].now
    ensures ScoredByTime(Store(trace, limit, n))
  {
    if n > 0 {
      ScoresAreTimes(trace, limit, n - 1);
      CallAddsItsEntry(Store(trace, limit, n - 1), trace[n - 1], limit, trace[n - 1].now);
    }
  }

  lemma AdmissionEmpties(z: ZSet, c: Call, m: Member)
    requires ScoredByTime(z) && m in z && Admits(z, c.now, 1)
    ensures m.ms <= c.now - WINDOW && c.Id() in After(z, c, 1)
  {
    PrunedKeepsTheYoung(z, c.now, m);
    assert |Pruned(z, c.now)| == 0;
  }

  lemma RefusalKeepsSome(z: ZSet, c: Call, m: Member) returns (k: Member)
    requires ScoredByTime(z) && m in z && !Admits(z, c.now, 1)
    ensures k in After(z, c, 1) && m.ms <= k.ms && c.now - WINDOW < k.ms
  {
    var p := Pruned(z, c.now);
    if m in p {
      k := m;
    } else {
      assert p != map[];
      k :| k in p;
    }
    PrunedKeepsTheYoung(z, c.now, m);
    PrunedKeepsTheYoung(z, c.now, k);
    assert k in if c.path == Lua then p else p[c.Id() := c.now];
  }

  lemma NextGuard(trace: seq<Call>, admitted: seq<bool>, n: nat, z: ZSet, m: Member) returns (k: Member)
    requires n < |trace| && n < |admitted| && Guards(trace, admitted, n, z, m) && ScoredByTime(z)
    requires admitted[n] == Admits(z, trace[n].now, 1)
    ensures Guards(trace, admitted, n + 1, After(z, trace[n], 1), k)
    ensures admitted[n] ==> m.ms <= trace[n].now - WINDOW
  {
    if admitted[n] {
      AdmissionEmpties(z, trace[n], m);
      k := trace[n].Id();
    } else {
      k := RefusalKeepsSome(z, trace[n], m);
    }
  }

  lemma {:induction false} SomeEntryGuards(trace: seq<Call>, n: nat) returns (m: Member)
    requires 0 < n <= |trace| && forall i :: 0 <= i < |trace| ==> 0 <= trace[i].now
    ensures Guards(trace, Decisions(trace, 1), n, Store(trace, 1, n), m)
  {
    if n == 1 {
      assert Store(trace, 1, 0) == map[] && Pruned(map[], trace[0].now) == map[];
      m := trace[0].Id();
    } else {
      var before := SomeEntryGuards(trace, n - 1);
      ScoresAreTimes(trace, 1, n - 1);
      DecisionAt(trace, 1, |trace|, n - 1);
      m := NextGuard(trace, Decisions(trace, 1), n - 1, Store(trace, 1, n - 1), before);
    }
  }

  /** Whatever the order of the timestamps and the members. */
  lemma {:induction false} LimitOneIsNeverOverfull(trace: seq<Call>, n: nat, t: int)
    requires n <= |trace| && forall i :: 0 <= i < |trace| ==> 0 <= trace[i].now
    ensures Count(trace, Decisions(trace, 1), n, t - WINDOW, t) <= 1
  {
    if n == 1 {
      assert Count(trace, Decisions(trace, 1), 0, t - WINDOW, t) == 0;
    } else if n > 1 {
      LimitOneIsNeverOverfull(trace, n - 1, t);
      if Decisions(trace, 1)[n - 1] && trace[n - 1].now <= t {
        EarlierAreOlder(trace, n - 1, t);
      }
    }
  }

  lemma EarlierAreOlder(trace: seq<Call>, n: nat, t: int)
    requires 0 < n < |trace| && forall i :: 0 <= i < |trace| ==> 0 <= trace[i].now
    requires Decisions(trace, 1)[n] && trace[n].now <= t
    ensures Count(trace, Decisions(trace, 1), n, t - WINDOW, t) == 0
  {
    var m := SomeEntryGuards(trace, n);
    ScoresAreTimes(trace, 1, n);
    DecisionAt(trace, 1, |trace|, n);
    var k := NextGuard(trace, Decisions(trace, 1), n, Store(trace, 1, n), m);
    NoneInWindow(trace, Decisions(trace, 1), n, m, t);
  }

  lemma {:induction false} NoneInWindow(trace: seq<Call>, admitted: seq<bool>, n: nat, m: Member, t: int)
    requires n <= |trace| && n <= |admitted| && m.ms <= t - WINDOW
    requires forall i :: 0 <= i < n && admitted[i] ==> trace[i].now <= m.ms
    ensures Count(trace, admitted, n, t - WINDOW, t) == 0
  {
    if n > 0 {
      NoneInWindow(trace, admitted, n - 1, m, t);
    }
  }

  /** The limit holds in every window exactly when timestamps never fall back and members differ, or
      when the limit is one: then no assumption is needed. */
  lemma NeverOverfullIff(limit: int, skew: nat, distinct: bool)
    requires limit > 0
    ensures NeverOverfull(limit, skew, distinct) <==> limit == 1 || (skew == 0 && distinct)
  {
    if limit == 1 {
      forall trace: seq<Call>, t | FallsBackAtMost(trace, skew) ensures !Overfull(trace, 1, t) {
        LimitOneIsNeverOverfull(trace, |trace|, t);
      }
    } else if !distinct {
      var trace := EqualMembersBreakTheBound(limit);
      assert FallsBackAtMost(trace, skew);
    } else if skew > 0 {
      var trace := LateTimestampBreaksTheBound(limit);
      assert FallsBackAtMost(trace, skew);
    } else {
      forall trace: seq<Call>, t | FallsBackAtMost(trace, 0) && DistinctMembers(trace)
        ensures !Overfull(trace, limit, t)
      {
        WindowHoldsAtMostLimit(trace, limit, |trace|, t);
      }
    }
  }
}
