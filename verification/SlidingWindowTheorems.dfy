/** What the sliding-window limiter promises over whole runs, beyond the window bound. */
module SlidingWindowTheorems {
  import opened SlidingWindow

  // ---------- Optimality of the script ----------

  ghost predicate ScriptOnly(trace: seq<Call>) {
    forall i :: 0 <= i < |trace| ==> trace[i].path == Lua
  }

  /** Any way of choosing calls that keeps at most `limit` of them in every window. */
  ghost predicate RespectsLimit(trace: seq<Call>, chosen: seq<bool>, limit: int) {
    && |chosen| == |trace|
    && forall t :: InWindow(trace, chosen, t) <= limit
  }

  /** How many chosen calls fall into the window (t - 60000, t]. */
  function InWindow(trace: seq<Call>, chosen: seq<bool>, t: int): nat
    requires |chosen| == |trace|
  {
    Count(trace, chosen, |trace|, t - WINDOW, t)
  }

  function Total(flags: seq<bool>, n: nat): nat
    requires n <= |flags|
  {
    if n == 0 then 0 else Total(flags, n - 1) + if flags[n - 1] then 1 else 0
  }

  lemma {:induction false} TotalGrows(flags: seq<bool>, m: nat, n: nat)
    requires m <= n <= |flags|
    ensures Total(flags, m) <= Total(flags, n)
    decreases n
  {
    if m < n {
      TotalGrows(flags, m, n - 1);
    }
  }

  /** Length of the prefix of the first n calls that ends with the last call stamped `lo` or earlier. */
  function FirstAfter(trace: seq<Call>, n: nat, lo: int): (s: nat)
    requires n <= |trace|
    ensures s <= n
    ensures s > 0 ==> trace[s - 1].now <= lo
    ensures forall i :: s <= i < n ==> lo < trace[i].now
  {
    if n == 0 || trace[n - 1].now <= lo then n else FirstAfter(trace, n - 1, lo)
  }

  lemma {:induction false} CountIsDifference(trace: seq<Call>, flags: seq<bool>, s: nat, n: nat, lo: int, hi: int)
    requires s <= n <= |trace| == |flags|
    requires forall i :: 0 <= i < s ==> trace[i].now <= lo
    requires forall i :: s <= i < n ==> lo < trace[i].now <= hi
    ensures Count(trace, flags, n, lo, hi) == Total(flags, n) - Total(flags, s)
    decreases n
  {
    if n > s {
      CountIsDifference(trace, flags, s, n - 1, lo, hi);
    } else if n > 0 {
      CountIsDifference(trace, flags, s - 1, n - 1, lo, hi);
    }
  }

  lemma {:induction false} CountGrows(trace: seq<Call>, flags: seq<bool>, m: nat, n: nat, lo: int, hi: int)
    requires m <= n <= |trace| == |flags|
    ensures Count(trace, flags, m, lo, hi) <= Count(trace, flags, n, lo, hi)
    decreases n
  {
    if m < n {
      CountGrows(trace, flags, m, n - 1, lo, hi);
    }
  }

  /** The calls before position n that lie in the window ending at call n, counted by totals. */
  lemma WindowByTotals(trace: seq<Call>, flags: seq<bool>, m: nat, n: nat, s: nat)
    requires Timely(trace) && n < |trace| == |flags| && n <= m <= n + 1
    requires s == FirstAfter(trace, n, trace[n].now - WINDOW)
    ensures Count(trace, flags, m, trace[n].now - WINDOW, trace[n].now) == Total(flags, m) - Total(flags, s)
  {
    CountIsDifference(trace, flags, s, m, trace[n].now - WINDOW, trace[n].now);
  }

  lemma ScriptRecordsWhatItAdmits(trace: seq<Call>, limit: int)
    requires ScriptOnly(trace)
    ensures Recorded(trace, limit) == Decisions(trace, limit)
  {
    forall i | 0 <= i < |trace| ensures Recorded(trace, limit)[i] == Decisions(trace, limit)[i] {
      DecisionAt(trace, limit, |trace|, i);
    }
  }

  /** When the script refuses a call, the window it looks back on is full of admitted calls. */
  lemma RefusalMeansFullWindow(trace: seq<Call>, limit: int, n: nat)
    requires Timely(trace) && DistinctMembers(trace) && ScriptOnly(trace)
    requires n < |trace| && limit > 0
    requires !Decisions(trace, limit)[n]
    ensures Count(trace, Decisions(trace, limit), n, trace[n].now - WINDOW, trace[n].now) == limit
  {
    ScriptRecordsWhatItAdmits(trace, limit);
    AdmittedIffFewerThanLimitRecorded(trace, limit, n);
    WindowHoldsAtMostLimit(trace, limit, n, trace[n].now);
  }

  /** A call chosen where the script refuses: both then count at most, and exactly, the limit since s. */
  lemma RefusedButChosen(trace: seq<Call>, limit: int, chosen: seq<bool>, n: nat, s: nat)
    requires Timely(trace) && DistinctMembers(trace) && ScriptOnly(trace)
    requires limit > 0 && RespectsLimit(trace, chosen, limit)
    requires n < |trace| && chosen[n] && !Decisions(trace, limit)[n]
    requires s == FirstAfter(trace, n, trace[n].now - WINDOW)
    requires Total(chosen, s) <= Total(Decisions(trace, limit), s)
    ensures Total(chosen, n + 1) <= Total(Decisions(trace, limit), n)
  {
    var now := trace[n].now;
    RefusalMeansFullWindow(trace, limit, n);
    WindowByTotals(trace, Decisions(trace, limit), n, n, s);
    WindowByTotals(trace, chosen, n + 1, n, s);
    CountGrows(trace, chosen, n + 1, |trace|, now - WINDOW, now);
    assert InWindow(trace, chosen, now) <= limit;
  }

  /** Greedy stays ahead: after every prefix of the trace the script has admitted at least as
      many calls as any choice that respects the limit. */
  lemma {:induction false} ScriptStaysAhead(trace: seq<Call>, limit: int, chosen: seq<bool>, n: nat)
    requires Timely(trace) && DistinctMembers(trace) && ScriptOnly(trace)
    requires limit > 0 && RespectsLimit(trace, chosen, limit)
    requires n <= |trace|
    ensures Total(chosen, n) <= Total(Decisions(trace, limit), n)
    decreases n
  {
    if n > 0 {
      ScriptStaysAhead(trace, limit, chosen, n - 1);
      if chosen[n - 1] && !Decisions(trace, limit)[n - 1] {
        var s := FirstAfter(trace, n - 1, trace[n - 1].now - WINDOW);
        ScriptStaysAhead(trace, limit, chosen, s);
        RefusedButChosen(trace, limit, chosen, n - 1, s);
      }
    }
  }

  /** Position of the k-th flagged call. */
  function Kth(flags: seq<bool>, k: nat, n: nat): (i: nat)
    requires n <= |flags| && 0 < k <= Total(flags, n)
    ensures i < n && flags[i] && Total(flags, i) == k - 1
  {
    if k <= Total(flags, n - 1) then Kth(flags, k, n - 1) else n - 1
  }

  /** The script's k-th admission is never later than anyone else's. */
  lemma KthAdmissionIsNoLater(trace: seq<Call>, limit: int, chosen: seq<bool>, k: nat)
    requires Timely(trace) && DistinctMembers(trace) && ScriptOnly(trace)
    requires limit > 0 && RespectsLimit(trace, chosen, limit)
    requires 0 < k <= Total(chosen, |trace|)
    ensures k <= Total(Decisions(trace, limit), |trace|)
    ensures Kth(Decisions(trace, limit), k, |trace|) <= Kth(chosen, k, |trace|)
  {
    var flags := Decisions(trace, limit);
    ScriptStaysAhead(trace, limit, chosen, |trace|);
    var j := Kth(chosen, k, |trace|);
    ScriptStaysAhead(trace, limit, chosen, j + 1);
    var i := Kth(flags, k, |trace|);
    if j < i {
      TotalGrows(flags, j + 1, i);
    }
  }

  /** The script is itself such a choice, so it is the best one. */
  lemma ScriptRespectsLimit(trace: seq<Call>, limit: int)
    requires Timely(trace) && DistinctMembers(trace) && limit > 0
    ensures RespectsLimit(trace, Decisions(trace, limit), limit)
  {
    forall t ensures InWindow(trace, Decisions(trace, limit), t) <= limit {
      WindowHoldsAtMostLimit(trace, limit, |trace|, t);
    }
  }

  // ---------- The fallback against the script ----------

  /** The same requests, all taking the fallback. */
  function AllFallback(trace: seq<Call>): (fb: seq<Call>)
    ensures |fb| == |trace|
    ensures forall i :: 0 <= i < |trace| ==> fb[i] == trace[i].(path := Fallback)
  {
    seq(|trace|, i requires 0 <= i < |trace| => trace[i].(path := Fallback))
  }

  lemma AllFallbackKeepsAssumptions(trace: seq<Call>)
    requires Timely(trace) && DistinctMembers(trace)
    ensures Timely(AllFallback(trace)) && DistinctMembers(AllFallback(trace))
  {
    var fb := AllFallback(trace);
    forall i, j | 0 <= i < j < |fb| ensures fb[i].Id() != fb[j].Id() {
      assert fb[i].Id() == trace[i].Id() && fb[j].Id() == trace[j].Id();
    }
  }

  lemma {:induction false} FewerRecordedElsewhere(trace: seq<Call>, fb: seq<Call>, f: seq<bool>, g: seq<bool>,
                                                  n: nat, lo: int, hi: int)
    requires n <= |trace| == |fb| == |f| == |g|
    requires forall i :: 0 <= i < n ==> trace[i].now == fb[i].now && g[i]
    ensures Count(trace, f, n, lo, hi) <= Count(fb, g, n, lo, hi)
  {
    if n > 0 {
      FewerRecordedElsewhere(trace, fb, f, g, n - 1, lo, hi);
    }
  }

  lemma FallbackRecordsAll(fb: seq<Call>, limit: int)
    requires forall i :: 0 <= i < |fb| ==> fb[i].path == Fallback
    ensures forall i :: 0 <= i < |fb| ==> Recorded(fb, limit)[i]
  {
    forall i | 0 <= i < |fb| ensures Recorded(fb, limit)[i] {
      DecisionAt(fb, limit, |fb|, i);
    }
  }

  /** Whatever the pure fallback admits, the script, or any mixture of the two, admits as well. */
  lemma FallbackAdmitsNoMore(trace: seq<Call>, limit: int, n: nat)
    requires Timely(trace) && DistinctMembers(trace) && n < |trace|
    ensures Decisions(AllFallback(trace), limit)[n] ==> Decisions(trace, limit)[n]
  {
    var fb := AllFallback(trace);
    AllFallbackKeepsAssumptions(trace);
    AdmittedIffFewerThanLimitRecorded(trace, limit, n);
    AdmittedIffFewerThanLimitRecorded(fb, limit, n);
    FallbackRecordsAll(fb, limit);
    FewerRecordedElsewhere(trace, fb, Recorded(trace, limit), Recorded(fb, limit), n,
                           trace[n].now - WINDOW, trace[n].now);
  }

  lemma {:induction false} TotalOfAll(flags: seq<bool>, n: nat)
    requires n <= |flags|
    requires forall i :: 0 <= i < n ==> flags[i]
    ensures Total(flags, n) == n
  {
    if n > 0 {
      TotalOfAll(flags, n - 1);
    }
  }

  /** The fallback counts refused requests too: it admits a call exactly when the call
      `limit` positions earlier, admitted or not, is at least 60 s old. */
  lemma FallbackAdmitsIff(trace: seq<Call>, limit: int, n: nat)
    requires Timely(trace) && DistinctMembers(trace)
    requires forall i :: 0 <= i < |trace| ==> trace[i].path == Fallback
    requires n < |trace| && limit > 0
    ensures Decisions(trace, limit)[n] <==> n < limit || trace[n - limit].now <= trace[n].now - WINDOW
  {
    var flags := Recorded(trace, limit);
    AdmittedIffFewerThanLimitRecorded(trace, limit, n);
    FallbackRecordsAll(trace, limit);
    var s := FirstAfter(trace, n, trace[n].now - WINDOW);
    WindowByTotals(trace, flags, n, n, s);
    TotalOfAll(flags, n);
    TotalOfAll(flags, s);
  }

  /** Clients that keep sending at least `limit` requests per window. */
  ghost predicate Insistent(trace: seq<Call>, limit: int) {
    forall n :: limit <= n < |trace| && limit > 0 ==> trace[n - limit].now > trace[n].now - WINDOW
  }

  /** An insistent client is refused by the fallback for good. */
  lemma FallbackStarvesInsistentClient(trace: seq<Call>, limit: int, n: nat)
    requires Timely(trace) && DistinctMembers(trace)
    requires forall i :: 0 <= i < |trace| ==> trace[i].path == Fallback
    requires limit > 0 && Insistent(trace, limit) && limit <= n < |trace|
    ensures !Decisions(trace, limit)[n]
  {
    FallbackAdmitsIff(trace, limit, n);
  }

  /** The script never starves: up to and including any call, at least one request of the
      last 60 s was admitted. */
  lemma ScriptNeverStarves(trace: seq<Call>, limit: int, n: nat)
    requires Timely(trace) && DistinctMembers(trace) && ScriptOnly(trace)
    requires n < |trace| && limit > 0
    ensures Count(trace, Decisions(trace, limit), n + 1, trace[n].now - WINDOW, trace[n].now) >= 1
  {
    if !Decisions(trace, limit)[n] {
      RefusalMeansFullWindow(trace, limit, n);
    }
  }

  // ---------- Key expiry ----------

  /** A key together with the time at which Redis drops it. */
  datatype Key = Key(zset: ZSet, expireAt: int)

  /** What Redis shows of the key at time `clock`. */
  function Visible(k: Key, clock: int): ZSet {
    if clock >= k.expireAt then map[] else k.zset
  }

  /** The run in which every call sets the key to expire `ttl` ms later. */
  function ExpiringStore(trace: seq<Call>, limit: int, ttl: int, n: nat): Key
    requires n <= |trace|
  {
    if n == 0 then Key(map[], 0)
    else
      var c := trace[n - 1];
      Key(After(Visible(ExpiringStore(trace, limit, ttl, n - 1), c.clock), c, limit), c.clock + ttl)
  }

  predicate AdmittedWithExpiry(trace: seq<Call>, limit: int, ttl: int, n: nat)
    requires n < |trace|
  {
    Admits(Visible(ExpiringStore(trace, limit, ttl, n), trace[n].clock), trace[n].now, limit)
  }

  /** Between neighbouring calls Redis' clock gains at most `slack` ms on the callers' clocks. */
  ghost predicate ClocksAgree(trace: seq<Call>, slack: int) {
    forall i :: 0 < i < |trace| ==> trace[i].clock - trace[i - 1].clock <= trace[i].now - trace[i - 1].now + slack
  }

  /** Everything is pruned from a store whose newest entry is 60 s old. */
  lemma OldStoreIsPrunedAway(z: ZSet, newest: int, t: int)
    requires ScoredByTime(z) && (forall m :: m in z ==> m.ms <= newest)
    requires newest <= t - WINDOW
    ensures Pruned(z, t) == map[]
  {
  }

  lemma EntriesAreNoNewer(trace: seq<Call>, limit: int, n: nat)
    requires Timely(trace) && 0 < n <= |trace|
    ensures ScoredByTime(Store(trace, limit, n))
    ensures forall m :: m in Store(trace, limit, n) ==> m.ms <= trace[n - 1].now
  {
    EntriesComeFromCalls(trace, limit, n);
  }

  /** As long as the time to live exceeds the window by the clocks' slack, expiry is invisible. */
  lemma {:induction false} ExpiryKeepsTheStore(trace: seq<Call>, limit: int, ttl: int, n: nat)
    requires Timely(trace) && ClocksAgree(trace, ttl - WINDOW)
    requires n <= |trace|
    ensures ExpiringStore(trace, limit, ttl, n).zset == Store(trace, limit, n)
    ensures n < |trace| ==>
      Pruned(Visible(ExpiringStore(trace, limit, ttl, n), trace[n].clock), trace[n].now)
      == Pruned(Store(trace, limit, n), trace[n].now)
  {
    if n > 0 {
      ExpiryKeepsTheStore(trace, limit, ttl, n - 1);
      if n < |trace| && trace[n].clock >= trace[n - 1].clock + ttl {
        EntriesAreNoNewer(trace, limit, n);
        OldStoreIsPrunedAway(Store(trace, limit, n), trace[n - 1].now, trace[n].now);
        assert Pruned(map[], trace[n].now) == map[];
      }
    }
  }

  /** Letting Redis drop the idle key after 61 s never changes a decision, provided Redis'
      clock gains at most one second on the callers' between neighbouring calls. */
  lemma ExpiryChangesNoDecision(trace: seq<Call>, limit: int, n: nat)
    requires Timely(trace) && ClocksAgree(trace, KEY_TTL - WINDOW)
    requires n < |trace|
    ensures AdmittedWithExpiry(trace, limit, KEY_TTL, n) <==> Decisions(trace, limit)[n]
  {
    ExpiryKeepsTheStore(trace, limit, KEY_TTL, n);
    DecisionAt(trace, limit, |trace|, n);
  }

  /** On every trace whose clocks agree to within `slack`, a key dropped after `ttl` ms gives the
      decisions of a key that is never dropped. */
  ghost predicate ExpiryIsInvisible(limit: int, ttl: int, slack: nat) {
    forall trace: seq<Call>, n: nat :: n < |trace| && AsAssumed(trace, slack) ==>
      (AdmittedWithExpiry(trace, limit, ttl, n) <==> Decisions(trace, limit)[n])
  }

  ghost predicate AsAssumed(trace: seq<Call>, slack: nat) {
    Timely(trace) && DistinctMembers(trace) && ClocksAgree(trace, slack)
  }

  /** `limit` requests at time 0, and one more 1 ms before they leave the window, as late on
      Redis' clock as the slack allows. */
  function Burst(limit: nat, slack: nat): (trace: seq<Call>)
    ensures |trace| == limit + 1
    ensures forall i :: 0 <= i < limit ==> trace[i] == Call(Fallback, 0, 0, i)
    ensures trace[limit] == Call(Fallback, WINDOW - 1 + slack, WINDOW - 1, limit)
  {
    seq(limit, i requires 0 <= i < limit => Call(Fallback, 0, 0, i)) +
      [Call(Fallback, WINDOW - 1 + slack, WINDOW - 1, limit)]
  }

  lemma BurstIsAsAssumed(limit: nat, slack: nat)
    requires limit > 0
    ensures AsAssumed(Burst(limit, slack), slack)
  {
    var trace := Burst(limit, slack);
    forall i, j | 0 <= i < j < |trace| ensures trace[i].Id() != trace[j].Id() {
      assert trace[i].frac == i && trace[j].frac == j;
    }
  }

  /** With less room than the slack the last request of the burst is wrongly admitted. */
  lemma BurstSlipsThrough(limit: nat, ttl: int, slack: nat)
    requires limit > 0 && ttl - WINDOW < slack
    ensures AdmittedWithExpiry(Burst(limit, slack), limit, ttl, limit)
    ensures !Decisions(Burst(limit, slack), limit)[limit]
  {
    var trace := Burst(limit, slack);
    BurstIsAsAssumed(limit, slack);
    FallbackAdmitsIff(trace, limit, limit);
    assert trace[limit - 1] == Call(Fallback, 0, 0, limit - 1);
    assert ExpiringStore(trace, limit, ttl, limit).expireAt == ttl;
    assert Visible(ExpiringStore(trace, limit, ttl, limit), trace[limit].clock) == map[];
    assert Pruned(map[], WINDOW - 1) == map[];
  }

  /** Dropping the idle key changes no decision exactly when the time to live exceeds the window by
      at least the slack of the clocks, for every limit, time to live and slack. */
  lemma ExpiryIsInvisibleIff(limit: nat, ttl: int, slack: nat)
    requires limit > 0
    ensures ExpiryIsInvisible(limit, ttl, slack) <==> slack <= ttl - WINDOW
  {
    if slack <= ttl - WINDOW {
      forall trace: seq<Call>, n: nat | n < |trace| && AsAssumed(trace, slack)
        ensures AdmittedWithExpiry(trace, limit, ttl, n) <==> Decisions(trace, limit)[n]
      {
        ExpiryKeepsTheStore(trace, limit, ttl, n);
        DecisionAt(trace, limit, |trace|, n);
      }
    } else {
      BurstIsAsAssumed(limit, slack);
      BurstSlipsThrough(limit, ttl, slack);
    }
  }

  /** The 61 s of the multi-level limiter leave a second of slack; the Open API limiter, whose key
      expires after exactly one window, has none, so that one millisecond of drift is enough. */
  lemma SlackOfTheTwoLimiters(limit: nat, slack: nat)
    requires limit > 0
    ensures ExpiryIsInvisible(limit, KEY_TTL, slack) <==> slack <= 1000
    ensures ExpiryIsInvisible(limit, WINDOW, slack) <==> slack == 0
  {
    ExpiryIsInvisibleIff(limit, KEY_TTL, slack);
    ExpiryIsInvisibleIff(limit, WINDOW, slack);
  }
}
