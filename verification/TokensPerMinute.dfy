/**
  TPMLimiter of internal/middleware/rate_limiter.go for one user: CheckTPM reads the counter
  of the current minute before a request, RecordTPM adds the tokens used after it.

  Runs are arbitrary sequences of steps; a step that is not enabled does nothing.  The guards
  carry the assumptions: the clock does not go back, at most k requests are between check and
  record, each declares at most e tokens and uses no more than it declared.
*/
module TokensPerMinute {

  const COUNTER_TTL: int := 120

  datatype Counter = Counter(value: int, expireAt: int)

  type Counters = map<int, Counter>

  function Minute(now: int): int { now / 60 }

  /** What GET shows for the counter of `minute`; an absent or expired key reads as 0. */
  function Current(c: Counters, minute: int, now: int): int {
    if minute in c && now < c[minute].expireAt then c[minute].value else 0
  }

  /** INCRBY followed by EXPIRE. */
  function IncrBy(c: Counters, now: int, tokens: int): Counters {
    c[Minute(now) := Counter(Current(c, Minute(now), now) + tokens, now + COUNTER_TTL)]
  }

  class TPMLimiter {
    var counters: Counters

    constructor ()
      ensures counters == map[]
    {
      counters := map[];
    }

    /** `tpm` is the limit of the user's member level, 0 or less meaning none. */
    method CheckTPM(now: int, tpm: int, estimated: int) returns (ok: bool, limit: int)
      ensures estimated <= 0 || tpm <= 0 ==> ok && limit == 0
      ensures estimated > 0 && tpm > 0 ==>
        limit == tpm && (ok <==> Current(counters, Minute(now), now) + estimated <= tpm)
    {
      if estimated <= 0 {
        return true, 0;
      }
      if tpm <= 0 {
        return true, 0;
      }
      var current := Current(counters, Minute(now), now);
      if current + estimated > tpm {
        return false, tpm;
      }
      return true, tpm;
    }

    method RecordTPM(now: int, actual: int)
      modifies this
      ensures counters == if actual <= 0 then old(counters) else IncrBy(old(counters), now, actual)
      ensures actual > 0 ==> forall minute ::
        (minute in counters <==> minute in old(counters) || minute == now / 60)
        && (minute == now / 60 ==>
              counters[minute] == Counter(Current(old(counters), minute, now) + actual, now + 120))
        && (minute in old(counters) && minute != now / 60 ==> counters[minute] == old(counters)[minute])
    {
      if actual <= 0 {
        return;
      }
      var minute := Minute(now);
      counters := counters[minute := Counter(Current(counters, minute, now) + actual, now + COUNTER_TTL)];
    }
  }

  // ---------- Runs ----------

  datatype Setting = Setting(tpm: int, k: nat, e: int)

  /** The clock, the Redis counters, the estimates of the requests between check and record,
      and the tokens recorded so far in each minute. */
  datatype State = State(now: int, counters: Counters, inFlight: seq<int>, recorded: map<int, int>)

  datatype Step = Tick(now: int) | Check(estimated: int) | Record(i: nat, actual: int) | Abandon(i: nat)

  function Without(s: seq<int>, i: nat): seq<int>
    requires i < |s|
  {
    s[..i] + s[i + 1..]
  }

  function RecordedIn(s: State, minute: int): int {
    if minute in s.recorded then s.recorded[minute] else 0
  }

  function Apply(c: Setting, s: State, step: Step): State {
    match step
    case Tick(now) => if s.now <= now then s.(now := now) else s
    case Check(estimated) =>
      if 0 < estimated <= c.e && |s.inFlight| < c.k
         && Current(s.counters, Minute(s.now), s.now) + estimated <= c.tpm
      then s.(inFlight := s.inFlight + [estimated]) else s
    case Record(i, actual) =>
      if i < |s.inFlight| && actual <= s.inFlight[i] then
        if actual <= 0 then s.(inFlight := Without(s.inFlight, i))
        else State(s.now, IncrBy(s.counters, s.now, actual), Without(s.inFlight, i),
                   s.recorded[Minute(s.now) := RecordedIn(s, Minute(s.now)) + actual])
      else s
    case Abandon(i) => if i < |s.inFlight| then s.(inFlight := Without(s.inFlight, i)) else s
  }

  function Run(c: Setting, s: State, steps: seq<Step>): State
    decreases |steps|
  {
    if steps == [] then s else Run(c, Apply(c, s, steps[0]), steps[1..])
  }

  function Sum(s: seq<int>): int {
    if s == [] then 0 else Sum(s[..|s| - 1]) + s[|s| - 1]
  }

  lemma {:induction false} SumWithout(s: seq<int>, i: nat)
    requires i < |s|
    ensures Sum(Without(s, i)) == Sum(s) - s[i]
  {
    var last := |s| - 1;
    if i < last {
      SumWithout(s[..last], i);
      assert Without(s, i)[..last - 1] == Without(s[..last], i);
    } else {
      assert Without(s, i) == s[..last];
    }
  }

  /** Requests that each fit under both the estimate cap and the limit. */
  ghost predicate Capped(c: Setting, s: seq<int>) {
    forall i :: 0 <= i < |s| ==> 0 < s[i] <= c.e && s[i] <= c.tpm
  }

  lemma {:induction false} SumOfCapped(c: Setting, s: seq<int>)
    requires Capped(c, s) && 0 <= c.e
    ensures 0 <= Sum(s) <= |s| * c.e
    ensures s != [] ==> Sum(s) <= c.tpm + (|s| - 1) * c.e
  {
    if s != [] {
      SumOfCapped(c, s[..|s| - 1]);
      assert |s| * c.e == (|s| - 1) * c.e + c.e;
    }
  }

  function Bound(c: Setting): int { c.tpm + (c.k - 1) * c.e }

  /** What is recorded this minute, and what may still be recorded, stays within the bound. */
  ghost predicate Budget(c: Setting, bound: int, s: State) {
    && |s.inFlight| <= c.k && Capped(c, s.inFlight)
    && RecordedIn(s, Minute(s.now)) + Sum(s.inFlight) <= bound
    && forall m :: m in s.recorded ==> 0 <= s.recorded[m] <= bound
  }

  /** Redis agrees with the ledger for the current minute, and no later minute has a counter. */
  ghost predicate InStep(s: State) {
    && (forall m :: m in s.recorded ==> m <= Minute(s.now))
    && (forall m :: m in s.counters ==> m <= Minute(s.now))
    && (Minute(s.now) in s.counters ==> 60 * Minute(s.now) + COUNTER_TTL <= s.counters[Minute(s.now)].expireAt)
    && Current(s.counters, Minute(s.now), s.now) == RecordedIn(s, Minute(s.now))
  }

  lemma InFlightFits(c: Setting, s: seq<int>)
    requires Capped(c, s) && |s| <= c.k && c.k > 0 && c.e > 0 && c.tpm > 0
    ensures 0 <= Sum(s) <= Bound(c)
    ensures |s| < c.k ==> Sum(s) <= (c.k - 1) * c.e
  {
    SumOfCapped(c, s);
    ScaleUp(|s|, c.k, c.e);
    if |s| < c.k {
      ScaleUp(|s|, c.k - 1, c.e);
    }
    if s != [] {
      ScaleUp(|s| - 1, c.k - 1, c.e);
    }
  }

  lemma ScaleUp(a: int, b: int, e: int)
    requires 0 <= a <= b && 0 <= e
    ensures 0 <= a * e <= b * e
  {
  }

  lemma StepKeepsInStep(c: Setting, s: State, step: Step)
    requires InStep(s)
    ensures InStep(Apply(c, s, step))
  {
    match step
    case Tick(now) =>
    case Check(estimated) =>
    case Record(i, actual) =>
      var s' := Apply(c, s, step);
      if s' != s && actual > 0 {
        assert s'.counters[Minute(s.now)].expireAt == s.now + COUNTER_TTL;
      }
    case Abandon(i) =>
  }

  lemma StepKeepsBudget(c: Setting, bound: int, s: State, step: Step)
    requires c.k > 0 && c.e > 0 && c.tpm > 0 && bound == Bound(c)
    requires InStep(s) && Budget(c, bound, s)
    ensures Budget(c, bound, Apply(c, s, step))
  {
    InFlightFits(c, s.inFlight);
    match step
    case Tick(now) =>
    case Check(estimated) => CheckKeepsBudget(c, bound, s, estimated);
    case Record(i, actual) => RecordKeepsBudget(c, bound, s, i, actual);
    case Abandon(i) =>
      if i < |s.inFlight| {
        SumWithout(s.inFlight, i);
      }
  }

  lemma CheckKeepsBudget(c: Setting, bound: int, s: State, estimated: int)
    requires InStep(s) && Budget(c, bound, s)
    requires |s.inFlight| < c.k ==> c.tpm + Sum(s.inFlight) <= bound
    ensures Budget(c, bound, Apply(c, s, Check(estimated)))
  {
    assert (s.inFlight + [estimated])[..|s.inFlight|] == s.inFlight;
  }

  lemma RecordKeepsBudget(c: Setting, bound: int, s: State, i: nat, actual: int)
    requires Budget(c, bound, s) && 0 <= c.e
    ensures Budget(c, bound, Apply(c, s, Record(i, actual)))
  {
    if i < |s.inFlight| && actual <= s.inFlight[i] {
      SumWithout(s.inFlight, i);
      SumOfCapped(c, Without(s.inFlight, i));
    }
  }

  lemma {:induction false} RunKeepsBudget(c: Setting, s: State, steps: seq<Step>)
    requires c.k > 0 && c.e > 0 && c.tpm > 0
    requires InStep(s) && Budget(c, Bound(c), s)
    ensures InStep(Run(c, s, steps)) && Budget(c, Bound(c), Run(c, s, steps))
    decreases |steps|
  {
    if steps != [] {
      StepKeepsInStep(c, s, steps[0]);
      StepKeepsBudget(c, Bound(c), s, steps[0]);
      RunKeepsBudget(c, Apply(c, s, steps[0]), steps[1..]);
    }
  }

  /** No minute of any run records more than TPM + (k - 1) * e tokens, even when requests are
      checked in one minute and recorded in a later one. */
  lemma MinuteBound(c: Setting, start: int, steps: seq<Step>, minute: int)
    requires c.k > 0 && c.e > 0 && c.tpm > 0
    ensures RecordedIn(Run(c, State(start, map[], [], map[]), steps), minute) <= c.tpm + (c.k - 1) * c.e
  {
    InFlightFits(c, []);
    RunKeepsBudget(c, State(start, map[], [], map[]), steps);
  }

  /** Handled one at a time, a user's requests never exceed the limit. */
  lemma OneAtATime(tpm: int, e: int, start: int, steps: seq<Step>, minute: int)
    requires e > 0 && tpm > 0
    ensures RecordedIn(Run(Setting(tpm, 1, e), State(start, map[], [], map[]), steps), minute) <= tpm
  {
    MinuteBound(Setting(tpm, 1, e), start, steps, minute);
  }

  /** A new minute starts from 0: whatever was used before, a check passes if its estimate fits. */
  lemma NewMinuteIsFree(c: Setting, start: int, steps: seq<Step>, now: int, estimated: int)
    requires c.k > 0 && c.e > 0 && c.tpm > 0
    requires now / 60 > Run(c, State(start, map[], [], map[]), steps).now / 60
    ensures
      var s := Apply(c, Run(c, State(start, map[], [], map[]), steps), Tick(now));
      && s.now == now
      && (estimated in Apply(c, s, Check(estimated)).inFlight
          <==> estimated in s.inFlight || (0 < estimated <= c.e && estimated <= c.tpm && |s.inFlight| < c.k))
  {
    InFlightFits(c, []);
    RunKeepsBudget(c, State(start, map[], [], map[]), steps);
  }

  /** A request that records, or gives up, makes room for the next; giving up or using nothing counts
      nothing. */
  lemma RequestEnds(c: Setting, s: State, i: nat, actual: int)
    requires i < |s.inFlight| && actual <= s.inFlight[i]
    ensures
      var recorded, abandoned := Apply(c, s, Record(i, actual)), Apply(c, s, Abandon(i));
      && recorded.inFlight == abandoned.inFlight == s.inFlight[..i] + s.inFlight[i + 1..]
      && abandoned.counters == s.counters && (actual <= 0 ==> recorded.counters == s.counters)
  {
  }

  // ---------- The bound is attained ----------

  lemma {:induction false} RunAppend(c: Setting, s: State, a: seq<Step>, b: seq<Step>)
    ensures Run(c, s, a + b) == Run(c, Run(c, s, a), b)
    decreases |a|
  {
    if a == [] {
      assert a + b == b;
    } else {
      assert (a + b)[0] == a[0] && (a + b)[1..] == a[1..] + b;
      RunAppend(c, Apply(c, s, a[0]), a[1..], b);
    }
  }

  /** In minute 0 nothing has expired, and Redis agrees with the ledger. */
  ghost predicate Used(s: State, tokens: int) {
    s.now == 0 && RecordedIn(s, 0) == tokens && Current(s.counters, 0, 0) == tokens
  }

  /** Requests of at most e tokens, one after the other, use up any amount within the limit. */
  lemma {:induction false} UseUp(c: Setting, tokens: nat) returns (steps: seq<Step>)
    requires 0 < c.e <= c.tpm && 0 < c.k && tokens <= c.tpm
    ensures var s := Run(c, State(0, map[], [], map[]), steps); Used(s, tokens) && s.inFlight == []
    decreases tokens
  {
    steps := [];
    if tokens > 0 {
      var part := if tokens < c.e then tokens else c.e;
      var before := UseUp(c, tokens - part);
      var more := [Check(part), Record(0, part)];
      UseMore(c, Run(c, State(0, map[], [], map[]), before), tokens - part, part);
      RunAppend(c, State(0, map[], [], map[]), before, more);
      steps := before + more;
    }
  }

  lemma UseMore(c: Setting, s: State, used: nat, part: nat)
    requires Used(s, used) && s.inFlight == [] && 0 < part <= c.e && 0 < c.k && used + part <= c.tpm
    ensures var s' := Run(c, s, [Check(part), Record(0, part)]); Used(s', used + part) && s'.inFlight == []
  {
    var s1 := Apply(c, s, Check(part));
    assert s1 == s.(inFlight := [part]);
    var s2 := Apply(c, s1, Record(0, part));
    assert Without([part], 0) == [];
    assert [Check(part), Record(0, part)][1..] == [Record(0, part)] && [Record(0, part)][1..] == [];
    assert Run(c, s1, [Record(0, part)]) == s2;
  }

  function Full(e: int, n: nat): seq<int> { seq(n, _ => e) }

  function Checks(e: int, n: nat): seq<Step> { seq(n, _ => Check(e)) }

  function Records(e: int, n: nat): seq<Step> { seq(n, _ => Record(0, e)) }

  lemma {:induction false} AllPass(c: Setting, s: State, used: int, n: nat)
    requires 0 < c.e && |s.inFlight| + n <= c.k && Used(s, used) && used + c.e <= c.tpm
    ensures Run(c, s, Checks(c.e, n)) == s.(inFlight := s.inFlight + Full(c.e, n))
    decreases n
  {
    if n == 0 {
      assert s.inFlight + Full(c.e, 0) == s.inFlight;
    } else {
      var s' := Apply(c, s, Check(c.e));
      assert Checks(c.e, n)[1..] == Checks(c.e, n - 1);
      AllPass(c, s', used, n - 1);
      assert s'.inFlight + Full(c.e, n - 1) == s.inFlight + Full(c.e, n);
    }
  }

  lemma {:induction false} AllRecord(c: Setting, s: State, n: nat)
    requires 0 < c.e && s.inFlight == Full(c.e, n) && s.now == 0
    ensures RecordedIn(Run(c, s, Records(c.e, n)), 0) == RecordedIn(s, 0) + n * c.e
    decreases n
  {
    if n > 0 {
      var s' := Apply(c, s, Record(0, c.e));
      assert RecordedIn(s', 0) == RecordedIn(s, 0) + c.e;
      assert n * c.e == (n - 1) * c.e + c.e;
      assert Records(c.e, n)[1..] == Records(c.e, n - 1);
      assert s'.inFlight == Full(c.e, n - 1);
      AllRecord(c, s', n - 1);
    }
  }

  /** The excess is real: for every limit, every k and every estimate e within the limit, k requests
      of e tokens all pass the check when only e tokens are left, and then record (k - 1) * e too many. */
  lemma ExcessIsReached(tpm: int, k: nat, e: int) returns (steps: seq<Step>)
    requires 0 < e <= tpm && k > 0
    ensures RecordedIn(Run(Setting(tpm, k, e), State(0, map[], [], map[]), steps), 0) == tpm + (k - 1) * e
  {
    var c := Setting(tpm, k, e);
    var s0 := State(0, map[], [], map[]);
    var before := UseUp(c, tpm - e);
    var s1 := Run(c, s0, before);
    AllPass(c, s1, tpm - e, k);
    assert [] + Full(e, k) == Full(e, k);
    var s2 := s1.(inFlight := Full(e, k));
    AllRecord(c, s2, k);
    RunAppend(c, s0, before, Checks(e, k));
    RunAppend(c, s0, before + Checks(e, k), Records(e, k));
    assert tpm - e + k * e == tpm + (k - 1) * e;
    steps := before + Checks(e, k) + Records(e, k);
  }

  /** Every minute of every run stays within the limit. */
  ghost predicate MinutesWithinLimit(c: Setting) {
    forall start, steps, minute :: RecordedIn(Run(c, State(start, map[], [], map[]), steps), minute) <= c.tpm
  }

  /** That holds exactly when a user's requests are handled one at a time. */
  lemma MinutesWithinLimitIff(c: Setting)
    requires 0 < c.e <= c.tpm && c.k > 0
    ensures MinutesWithinLimit(c) <==> c.k == 1
  {
    if c.k == 1 {
      forall start, steps, minute ensures RecordedIn(Run(c, State(start, map[], [], map[]), steps), minute) <= c.tpm {
        MinuteBound(c, start, steps, minute);
      }
    } else {
      var steps := ExcessIsReached(c.tpm, c.k, c.e);
      ScaleUp(1, c.k - 1, c.e);
    }
  }
}
