/** One limiter key in Redis, and the two check paths that update it command by command. */
module LimiterKey {
  import opened SlidingWindow
  import opened SlidingWindowTheorems

  function Remaining(limit: int, count: int): int {
    if limit - count < 0 then 0 else limit - count
  }

  class RedisKey {
    var zset: ZSet
    var expireAt: int

    constructor ()
      ensures State() == Key(map[], 0)
    {
      zset, expireAt := map[], 0;
    }

    ghost function State(): Key
      reads this
    {
      Key(zset, expireAt)
    }

    /** The atomic script: prune, count, and record only when the count is below the limit. */
    method RunSlidingWindowLua(clock: int, now: int, frac: nat, limit: int) returns (allowed: bool, count: int)
      modifies this
      ensures allowed == Admits(Visible(old(State()), clock), now, limit)
      ensures State() == Key(After(Visible(old(State()), clock), Call(Lua, clock, now, frac), limit), clock + KEY_TTL)
      ensures count == |Pruned(Visible(old(State()), clock), now)| + if allowed then 1 else 0
      ensures allowed ==> count <= limit
    {
      if clock >= expireAt {
        zset := map[];
      }
      zset := ZRemRangeByScore(zset, 0, now - WINDOW);
      count := |zset|;
      if count >= limit {
        expireAt := clock + KEY_TTL;
        return false, count;
      }
      zset := zset[Member(now, frac) := now];
      expireAt := clock + KEY_TTL;
      return true, count + 1;
    }

    /** The pipeline, run without interleaving: it records the request whether or not it is refused. */
    method RunPipeline(clock: int, now: int, frac: nat, limit: int) returns (allowed: bool, count: int)
      modifies this
      ensures allowed == Admits(Visible(old(State()), clock), now, limit)
      ensures State() == Key(After(Visible(old(State()), clock), Call(Fallback, clock, now, frac), limit),
                             clock + KEY_TTL)
      ensures count == |Pruned(Visible(old(State()), clock), now)|
    {
      if clock >= expireAt {
        zset := map[];
      }
      zset := ZRemRangeByScore(zset, 0, now - WINDOW);
      count := |zset|;
      zset := zset[Member(now, frac) := now];
      expireAt := clock + KEY_TTL;
      allowed := count < limit;
    }

    /** The whole check.  `scriptOk` says whether Redis ran the script. */
    method SlidingWindowCheck(scriptOk: bool, clock: int, now: int, frac: nat, limit: int)
      returns (allowed: bool, remaining: int)
      modifies this
      ensures limit <= 0 ==> allowed && State() == old(State())
      ensures limit > 0 ==> allowed == Admits(Visible(old(State()), clock), now, limit)
      ensures limit > 0 ==> State() == Key(After(Visible(old(State()), clock),
                                                 Call(if scriptOk then Lua else Fallback, clock, now, frac), limit),
                                           clock + KEY_TTL)
      ensures limit > 0 && !allowed ==> remaining == 0
      ensures limit > 0 && allowed ==>
        remaining == limit - |Pruned(Visible(old(State()), clock), now)| - if scriptOk then 1 else 0
    {
      if limit <= 0 {
        return true, 0;
      }
      var count;
      if scriptOk {
        allowed, count := RunSlidingWindowLua(clock, now, frac, limit);
      } else {
        allowed, count := RunPipeline(clock, now, frac, limit);
      }
      remaining := Remaining(limit, count);
    }
  }

  /** What call n is told: the limit less the entries it found, and less itself by the script. */
  function Announced(trace: seq<Call>, limit: int, n: nat): int
    requires n < |trace|
  {
    if !Admitted(trace, limit, n) then 0
    else limit - |Pruned(Store(trace, limit, n), trace[n].now)| - if trace[n].path == Lua then 1 else 0
  }

  function AnnouncedUpTo(trace: seq<Call>, limit: int, n: nat): seq<int>
    requires n <= |trace|
  {
    if n == 0 then [] else AnnouncedUpTo(trace, limit, n - 1) + [Announced(trace, limit, n - 1)]
  }

  /** What the expiring key shows is what the theorems count. */
  lemma KeyAnnounces(trace: seq<Call>, limit: int, n: nat, k: Key)
    requires Timely(trace) && ClocksAgree(trace, KEY_TTL - WINDOW) && n < |trace|
    requires k == ExpiringStore(trace, limit, KEY_TTL, n)
    ensures
      var c := trace[n];
      var found := Pruned(Visible(k, c.clock), c.now);
      && (Admitted(trace, limit, n) <==> Admits(Visible(k, c.clock), c.now, limit))
      && Announced(trace, limit, n)
         == if |found| < limit then limit - |found| - (if c.path == Lua then 1 else 0) else 0
  {
    ExpiryKeepsTheStore(trace, limit, KEY_TTL, n);
  }

  /** Serving a whole trace through one key gives the decisions the theorems speak about. */
  method ServeTrace(trace: seq<Call>, limit: int) returns (admitted: seq<bool>, remaining: seq<int>)
    requires Timely(trace) && ClocksAgree(trace, KEY_TTL - WINDOW) && limit > 0
    ensures admitted == Decisions(trace, limit)
    ensures remaining == AnnouncedUpTo(trace, limit, |trace|)
  {
    var key := new RedisKey();
    admitted, remaining := [], [];
    for n := 0 to |trace|
      invariant key.State() == ExpiringStore(trace, limit, KEY_TTL, n)
      invariant admitted == DecisionsUpTo(trace, limit, n)
      invariant remaining == AnnouncedUpTo(trace, limit, n)
    {
      var c := trace[n];
      KeyAnnounces(trace, limit, n, key.State());
      var allowed, left := key.SlidingWindowCheck(c.path == Lua, c.clock, c.now, c.frac, limit);
      admitted, remaining := admitted + [allowed], remaining + [left];
    }
  }

  /** Calls m, m + 1, .. run the script at one time. */
  ghost predicate AtOnce(trace: seq<Call>, m: nat, j: nat, t: int)
    requires m + j < |trace|
  {
    forall i :: m <= i <= m + j ==> trace[i].path == Lua && trace[i].now == t
  }

  /** Where calls are recorded as long as fewer than `limit` are, one by one they fill the window. */
  lemma {:induction false} FillsToTheLimit(trace: seq<Call>, flags: seq<bool>, limit: int, m: nat, j: nat, t: int)
    requires |flags| == |trace| && m + j <= |trace|
    requires forall i :: m <= i < m + j ==>
      trace[i].now == t && (flags[i] <==> Count(trace, flags, i, t - WINDOW, t) < limit)
    requires Count(trace, flags, m, t - WINDOW, t) <= limit
    ensures var before := Count(trace, flags, m, t - WINDOW, t);
      Count(trace, flags, m + j, t - WINDOW, t) == if before + j <= limit then before + j else limit
  {
    if j > 0 {
      FillsToTheLimit(trace, flags, limit, m, j - 1, t);
    }
  }

  /** What the script decides, and records, is what the count says. */
  lemma ScriptCounts(trace: seq<Call>, limit: int, i: nat)
    requires Timely(trace) && DistinctMembers(trace) && i < |trace| && trace[i].path == Lua
    ensures var recorded := Count(trace, Recorded(trace, limit), i, trace[i].now - WINDOW, trace[i].now);
      && (Recorded(trace, limit)[i] <==> recorded < limit)
      && (Decisions(trace, limit)[i] <==> recorded < limit)
  {
    AdmittedIffFewerThanLimitRecorded(trace, limit, i);
    DecisionAt(trace, limit, |trace|, i);
  }

  lemma RecordsWhileBelow(trace: seq<Call>, limit: int, m: nat, j: nat, t: int)
    requires Timely(trace) && DistinctMembers(trace) && m + j < |trace| && AtOnce(trace, m, j, t)
    ensures forall i :: m <= i < m + j ==>
      trace[i].now == t
      && (Recorded(trace, limit)[i] <==> Count(trace, Recorded(trace, limit), i, t - WINDOW, t) < limit)
  {
    forall i: nat | m <= i < m + j
      ensures Recorded(trace, limit)[i] <==> Count(trace, Recorded(trace, limit), i, t - WINDOW, t) < limit
    {
      ScriptCounts(trace, limit, i);
    }
  }

  lemma AdmitsTheRest(trace: seq<Call>, limit: int, m: nat, j: nat, t: int)
    requires Timely(trace) && DistinctMembers(trace) && m + j < |trace| && AtOnce(trace, m, j, t)
    requires Count(trace, Recorded(trace, limit), m, t - WINDOW, t) <= limit
    ensures Decisions(trace, limit)[m + j] <==> Count(trace, Recorded(trace, limit), m, t - WINDOW, t) + j < limit
  {
    RecordsWhileBelow(trace, limit, m, j, t);
    ScriptCounts(trace, limit, m + j);
    FillsToTheLimit(trace, Recorded(trace, limit), limit, m, j, t);
  }

  /** The announcement in terms of recorded calls. */
  lemma AnnouncedByCount(trace: seq<Call>, limit: int, n: nat)
    requires Timely(trace) && DistinctMembers(trace) && n < |trace| && Decisions(trace, limit)[n]
    ensures var t := trace[n].now;
      && Count(trace, Recorded(trace, limit), n + 1, t - WINDOW, t) <= limit
      && Announced(trace, limit, n)
         == limit - Count(trace, Recorded(trace, limit), n + 1, t - WINDOW, t) + if trace[n].path == Lua then 0 else 1
  {
    var t := trace[n].now;
    DecisionAt(trace, limit, |trace|, n);
    AdmittedIffFewerThanLimitRecorded(trace, limit, n);
    StoreCountsTheRecorded(trace, limit, n, t);
    assert Count(trace, Recorded(trace, limit), n + 1, t - WINDOW, t)
        == Count(trace, Recorded(trace, limit), n, t - WINDOW, t) + 1;
  }

  /**
    What the announcement is worth: of the requests that follow at once the script admits exactly as
    many as it has announced; the fallback has announced one too many, as it leaves itself out.
  */
  lemma AnnouncementIsExact(trace: seq<Call>, limit: int, n: nat, j: nat)
    requires Timely(trace) && DistinctMembers(trace) && limit > 0
    requires n + 1 + j < |trace| && AtOnce(trace, n + 1, j, trace[n].now) && Decisions(trace, limit)[n]
    ensures Decisions(trace, limit)[n + 1 + j]
      <==> j < Announced(trace, limit, n) - if trace[n].path == Lua then 0 else 1
  {
    AnnouncedByCount(trace, limit, n);
    AdmitsTheRest(trace, limit, n + 1, j, trace[n].now);
  }
}
