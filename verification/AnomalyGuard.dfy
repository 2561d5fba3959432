/**
  APIKeyAnomalyGuard (internal/middleware/apikey_anomaly.go) for one API key: failing responses
  increment a counter with a time to live; at the threshold the key is blocked and the counter
  deleted.
*/
module AnomalyGuard {
  import opened Common

  datatype Config = Config(threshold: int, window: int, blockFor: int)

  // ---------- Interleaved requests ----------

  datatype Stage =
    | Handling                // not blocked; the handler runs
    | Refused                 // blocked: answered 429 without reaching the handler
    | Failing                 // the response was an error
    | Counted(count: nat)     // INCR returned count
    | Tripping(count: nat)    // count reached the threshold
    | Clearing                // the block is written
    | Finished

  datatype Counter = Counter(count: nat, expireAt: Option<int>)

  datatype State = State(
    now: int,
    counter: Option<Counter>,
    blockedUntil: int,
    stages: map<nat, Stage>,
    errors: nat,          // failing responses counted so far
    sinceVanished: nat,   // of these, since the counter last vanished
    tripped: set<nat>,    // requests whose INCR reached the threshold
    blocks: set<nat>,     // requests that wrote a block
    evidence: seq<nat>)   // for each trip, sinceVanished at that moment

  datatype Step =
    | Tick(to: int)
    | Check(id: nat)
    | Respond(id: nat, failed: bool)
    | Incr(id: nat)
    | Expire(id: nat)   // EXPIRE when the count is 1, then the threshold test
    | Block(id: nat)
    | Clear(id: nat)    // DEL counter

  function Initial(now: int): State {
    State(now, None, now, map[], 0, 0, {}, {}, [])
  }

  function At(s: State, id: nat): Option<Stage> {
    if id in s.stages then Some(s.stages[id]) else None
  }

  function Move(s: State, id: nat, stage: Stage): State {
    s.(stages := s.stages[id := stage])
  }

  predicate CounterOver(counter: Option<Counter>, now: int) {
    counter.Some? && counter.value.expireAt.Some? && counter.value.expireAt.value <= now
  }

  function Apply(c: Config, s: State, step: Step): State {
    match step
    case Tick(to) =>
      if to < s.now then s
      else if CounterOver(s.counter, to) then s.(now := to, counter := None, sinceVanished := 0)
      else s.(now := to)
    case Check(id) =>
      if At(s, id) == None then Move(s, id, if s.now < s.blockedUntil then Refused else Handling) else s
    case Respond(id, failed) =>
      if At(s, id) == Some(Handling) then Move(s, id, if failed then Failing else Finished) else s
    case Incr(id) =>
      if At(s, id) == Some(Failing) then
        var count := if s.counter.Some? then s.counter.value.count + 1 else 1;
        var expireAt := if s.counter.Some? then s.counter.value.expireAt else None;
        var trips := count >= c.threshold;
        Move(s, id, Counted(count)).(counter := Some(Counter(count, expireAt)),
                                     errors := s.errors + 1,
                                     sinceVanished := s.sinceVanished + 1,
                                     tripped := s.tripped + if trips then {id} else {},
                                     evidence := s.evidence + if trips then [s.sinceVanished + 1] else [])
      else s
    case Expire(id) =>
      if At(s, id).Some? && At(s, id).value.Counted? then
        var count := At(s, id).value.count;
        var counter := if count == 1 && s.counter.Some?
                       then Some(s.counter.value.(expireAt := Some(s.now + c.window))) else s.counter;
        Move(s, id, if count >= c.threshold then Tripping(count) else Finished).(counter := counter)
      else s
    case Block(id) =>
      if At(s, id).Some? && At(s, id).value.Tripping?
      then Move(s, id, Clearing).(blockedUntil := s.now + c.blockFor, blocks := s.blocks + {id}) else s
    case Clear(id) =>
      if At(s, id) == Some(Clearing) then Move(s, id, Finished).(counter := None, sinceVanished := 0) else s
  }

  function Run(c: Config, s: State, steps: seq<Step>): State
    decreases |steps|
  {
    if steps == [] then s else Run(c, Apply(c, s, steps[0]), steps[1..])
  }

  predicate Past(stage: Stage) {
    stage.Counted? || stage.Tripping? || stage.Clearing? || stage.Finished?
  }

  /** Whoever may write a block has tripped, and nobody trips twice. */
  ghost predicate TripInv(c: Config, s: State) {
    && (forall id :: id in s.tripped ==> id in s.stages && Past(s.stages[id]))
    && (forall id :: id in s.stages && MayBlock(c, s.stages[id]) ==> id in s.tripped)
    && s.blocks <= s.tripped
  }

  predicate MayBlock(c: Config, stage: Stage) {
    (stage.Counted? && stage.count >= c.threshold) || stage.Tripping?
  }

  ghost predicate CountInv(c: Config, s: State) {
    && (if s.counter.Some? then s.counter.value.count else 0) == s.sinceVanished <= s.errors
    && |s.evidence| == |s.tripped|
    && (forall k :: 0 <= k < |s.evidence| ==> s.evidence[k] >= c.threshold)
    && (s.tripped != {} ==> s.errors >= c.threshold - 1 + |s.tripped|)
  }

  ghost predicate Inv(c: Config, s: State) { TripInv(c, s) && CountInv(c, s) }

  lemma StepKeepsTrips(c: Config, s: State, step: Step)
    requires TripInv(c, s)
    ensures TripInv(c, Apply(c, s, step))
  {
  }

  lemma StepKeepsCounts(c: Config, s: State, step: Step)
    requires Inv(c, s)
    ensures CountInv(c, Apply(c, s, step))
  {
    if step.Incr? && At(s, step.id) == Some(Failing) {
      assert step.id !in s.tripped;
    }
  }

  lemma {:induction false} RunKeepsInv(c: Config, s: State, steps: seq<Step>)
    requires Inv(c, s)
    ensures Inv(c, Run(c, s, steps))
    decreases |steps|
  {
    if steps != [] {
      StepKeepsTrips(c, s, steps[0]);
      StepKeepsCounts(c, s, steps[0]);
      RunKeepsInv(c, Apply(c, s, steps[0]), steps[1..]);
    }
  }

  /** In every interleaving a block is written only by a request whose increment saw at least
      `threshold` failures since the counter last vanished, and k blocks need at least
      threshold - 1 + k failures. */
  lemma BlocksNeedErrors(c: Config, start: int, steps: seq<Step>)
    ensures var s := Run(c, Initial(start), steps);
      && s.blocks <= s.tripped && |s.evidence| == |s.tripped|
      && (forall k :: 0 <= k < |s.evidence| ==> s.evidence[k] >= c.threshold)
      && (s.blocks != {} ==> s.errors >= c.threshold - 1 + |s.blocks|)
  {
    RunKeepsInv(c, Initial(start), steps);
    var s := Run(c, Initial(start), steps);
    SubsetSize(s.blocks, s.tripped);
  }

  // ---------- Requests that do not overlap ----------

  predicate Ended(stage: Stage) {
    stage.Refused? || stage.Finished?
  }

  function InFlight(stages: map<nat, Stage>): set<nat> {
    set id | id in stages && !Ended(stages[id])
  }

  /** At most m requests are in flight at any time. */
  predicate Paced(c: Config, m: nat, s: State, steps: seq<Step>)
    decreases |steps|
  {
    |InFlight(s.stages)| <= m && (steps == [] || Paced(c, m, Apply(c, s, steps[0]), steps[1..]))
  }

  ghost predicate AtMostOneInFlight(s: State) {
    forall a, b :: a in InFlight(s.stages) && b in InFlight(s.stages) ==> a == b
  }

  /** Failures paid in for the next block, as the stage of the one request in flight has it. */
  predicate PaidFor(c: Config, s: State, stage: Stage) {
    match stage
    case Counted(count) =>
      s.sinceVanished <= count <= c.threshold && s.errors >= |s.blocks| * c.threshold + count
    case Tripping(count) => s.errors >= (|s.blocks| + 1) * c.threshold
    case Clearing => s.errors >= |s.blocks| * c.threshold
    case _ => Resting(c, s)
  }

  predicate Resting(c: Config, s: State) {
    s.sinceVanished < c.threshold && s.errors >= |s.blocks| * c.threshold + s.sinceVanished
  }

  ghost predicate SerialInv(c: Config, s: State) {
    && AtMostOneInFlight(s)
    && (InFlight(s.stages) == {} ==> Resting(c, s))
    && (forall id :: id in InFlight(s.stages) ==> PaidFor(c, s, s.stages[id]))
  }

  lemma SmallSet(a: set<nat>)
    requires |a| <= 1
    ensures forall x, y :: x in a && y in a ==> x == y
  {
    if x, y :| x in a && y in a && x != y {
      SubsetSize({x, y}, a);
    }
  }

  lemma OneMoreBlock(c: Config, s: State, id: nat)
    requires c.threshold > 0
    ensures |s.blocks + {id}| * c.threshold <= (|s.blocks| + 1) * c.threshold
  {
    assert s.blocks + {id} == s.blocks + ({id} - s.blocks);
    SubsetSize({id} - s.blocks, {id});
    ScaleUp(|s.blocks + {id}|, |s.blocks| + 1, c.threshold);
  }

  lemma ScaleUp(a: nat, b: nat, t: int)
    requires a <= b && t > 0
    ensures a * t <= b * t
  {
  }

  lemma FlightAfter(stages: map<nat, Stage>, id: nat, stage: Stage)
    ensures InFlight(stages[id := stage]) == InFlight(stages) - {id} + if Ended(stage) then {} else {id}
  {
  }

  lemma TickKeepsSerial(c: Config, s: State, to: int)
    requires c.threshold > 0 && SerialInv(c, s)
    ensures SerialInv(c, Apply(c, s, Tick(to)))
  {
    assert InFlight(Apply(c, s, Tick(to)).stages) == InFlight(s.stages);
  }

  lemma CheckKeepsSerial(c: Config, s: State, id: nat)
    requires SerialInv(c, s) && AtMostOneInFlight(Apply(c, s, Check(id)))
    ensures SerialInv(c, Apply(c, s, Check(id)))
  {
    var s' := Apply(c, s, Check(id));
    if At(s, id) == None {
      FlightAfter(s.stages, id, s'.stages[id]);
      assert id !in InFlight(s.stages);
      if s'.stages[id] == Handling {
        forall a ensures a !in InFlight(s.stages) {
          assert id in InFlight(s'.stages) && (a in InFlight(s.stages) ==> a in InFlight(s'.stages));
        }
      } else {
        assert InFlight(s'.stages) == InFlight(s.stages);
      }
    }
  }

  /** A step that takes the one request in flight from a stage to the next. */
  lemma MoveKeepsSerial(c: Config, s: State, id: nat, s': State, stage: Stage)
    requires SerialInv(c, s) && id in InFlight(s.stages)
    requires s'.stages == s.stages[id := stage]
    requires if Ended(stage) then Resting(c, s') else PaidFor(c, s', stage)
    ensures SerialInv(c, s')
  {
    FlightAfter(s.stages, id, stage);
    forall a ensures a in InFlight(s'.stages) ==> a == id {
      assert a in InFlight(s.stages) ==> a == id;
    }
  }

  lemma StepKeepsSerial(c: Config, s: State, step: Step)
    requires c.threshold > 0 && SerialInv(c, s) && CountInv(c, s) && AtMostOneInFlight(Apply(c, s, step))
    ensures SerialInv(c, Apply(c, s, step))
  {
    var s' := Apply(c, s, step);
    if step.Tick? {
      TickKeepsSerial(c, s, step.to);
    } else if step.Check? {
      CheckKeepsSerial(c, s, step.id);
    } else if s' != s {
      assert step.id in InFlight(s.stages) && PaidFor(c, s, s.stages[step.id]);
      OneMoreBlock(c, s, step.id);
      MoveKeepsSerial(c, s, step.id, s', s'.stages[step.id]);
    }
  }

  lemma {:induction false} SerialRun(c: Config, s: State, steps: seq<Step>)
    requires c.threshold > 0 && SerialInv(c, s) && Inv(c, s) && Paced(c, 1, s, steps)
    ensures SerialInv(c, Run(c, s, steps))
    decreases |steps|
  {
    if steps != [] {
      var s' := Apply(c, s, steps[0]);
      SmallSet(InFlight(s'.stages));
      StepKeepsSerial(c, s, steps[0]);
      StepKeepsTrips(c, s, steps[0]);
      StepKeepsCounts(c, s, steps[0]);
      SerialRun(c, s', steps[1..]);
    }
  }

  lemma {:induction false} PacedMonotone(c: Config, k: nat, m: nat, s: State, steps: seq<Step>)
    requires k <= m && Paced(c, k, s, steps)
    ensures Paced(c, m, s, steps)
    decreases |steps|
  {
    if steps != [] {
      PacedMonotone(c, k, m, Apply(c, s, steps[0]), steps[1..]);
    }
  }

  /** Without overlap every block is paid for by `threshold` failures of its own. */
  lemma SerialBlocksArePaid(c: Config, start: int, steps: seq<Step>)
    requires c.threshold > 0 && Paced(c, 1, Initial(start), steps)
    ensures var s := Run(c, Initial(start), steps); s.errors >= |s.blocks| * c.threshold
  {
    assert InFlight(Initial(start).stages) == {};
    SerialRun(c, Initial(start), steps);
    var s := Run(c, Initial(start), steps);
    if id :| id in InFlight(s.stages) {
      assert PaidFor(c, s, s.stages[id]);
      assert (|s.blocks| + 1) * c.threshold == |s.blocks| * c.threshold + c.threshold;
      PaidInRun(c, start, steps);
    }
  }

  lemma PaidInRun(c: Config, start: int, steps: seq<Step>)
    ensures CountInv(c, Run(c, Initial(start), steps))
  {
    RunKeepsInv(c, Initial(start), steps);
  }

  // ---------- Requests that do ----------

  lemma {:induction false} RunAppend(c: Config, s: State, a: seq<Step>, b: seq<Step>)
    ensures Run(c, s, a + b) == Run(c, Run(c, s, a), b)
    decreases |a|
  {
    if a == [] {
      assert a + b == b;
    } else {
      assert (a + b)[0] == a[0] && (a + b)[1..] == a[1..] + b;
      RunAppend(c, Apply(c, s, a[0]), a[1..], b);
    }
  }

  lemma {:induction false} PacedAppend(c: Config, m: nat, s: State, a: seq<Step>, b: seq<Step>)
    requires Paced(c, m, s, a) && Paced(c, m, Run(c, s, a), b)
    ensures Paced(c, m, s, a + b)
    decreases |a|
  {
    if a == [] {
      assert a + b == b;
    } else {
      assert (a + b)[0] == a[0] && (a + b)[1..] == a[1..] + b;
      PacedAppend(c, m, Apply(c, s, a[0]), a[1..], b);
    }
  }

  /** From s a run with at most m in flight leads to s'. */
  ghost predicate Leads(c: Config, m: nat, s: State, steps: seq<Step>, s': State) {
    Paced(c, m, s, steps) && Run(c, s, steps) == s'
  }

  lemma LeadsOn(c: Config, m: nat, s: State, a: seq<Step>, s': State, b: seq<Step>, s'': State)
    requires Leads(c, m, s, a, s') && Leads(c, m, s', b, s'')
    ensures Leads(c, m, s, a + b, s'')
  {
    RunAppend(c, s, a, b);
    PacedAppend(c, m, s, a, b);
  }

  lemma LeadsByOne(c: Config, m: nat, s: State, step: Step)
    requires |InFlight(s.stages)| <= m && |InFlight(Apply(c, s, step).stages)| <= m
    ensures Leads(c, m, s, [step], Apply(c, s, step))
  {
    assert [step][1..] == [];
    assert Paced(c, m, Apply(c, s, step), []);
  }

  function CountOf(s: State): nat {
    if s.counter.Some? then s.counter.value.count else 0
  }

  ghost predicate Free(s: State, base: nat) {
    forall id: nat :: base <= id ==> id !in s.stages
  }

  /** Nothing is blocked, n failures are on record. */
  ghost predicate Unblocked(s: State, base: nat, n: nat) {
    Free(s, base) && s.blockedUntil <= s.now && s.blocks == {} && s.errors == n && CountOf(s) == n
  }

  lemma LeadsByTwo(c: Config, m: nat, s: State, x: Step, y: Step)
    requires |InFlight(s.stages)| <= m && |InFlight(Apply(c, s, x).stages)| <= m
    requires |InFlight(Apply(c, Apply(c, s, x), y).stages)| <= m
    ensures Leads(c, m, s, [x] + [y], Apply(c, Apply(c, s, x), y))
  {
    var s1 := Apply(c, s, x);
    LeadsByOne(c, m, s, x);
    LeadsByOne(c, m, s1, y);
    LeadsOn(c, m, s, [x], s1, [y], Apply(c, s1, y));
  }

  lemma FailSteps(c: Config, s: State, id: nat)
    requires id !in s.stages && s.blockedUntil <= s.now
    ensures Apply(c, s, Check(id)) == s.(stages := s.stages[id := Handling])
    ensures Apply(c, Apply(c, s, Check(id)), Respond(id, true)) == s.(stages := s.stages[id := Failing])
  {
    assert s.stages[id := Handling][id := Failing] == s.stages[id := Failing];
  }

  lemma FlightOfNew(stages: map<nat, Stage>, id: nat, stage: Stage)
    requires id !in stages && !Ended(stage)
    ensures InFlight(stages[id := stage]) == InFlight(stages) + {id}
    ensures |InFlight(stages[id := stage])| == |InFlight(stages)| + 1
  {
    FlightAfter(stages, id, stage);
    assert id !in InFlight(stages);
  }

  /** A request comes in and fails. */
  lemma FailNext(c: Config, m: nat, s: State, base: nat, n: nat) returns (steps: seq<Step>, s': State)
    requires Unblocked(s, base, n) && |InFlight(s.stages)| < m
    ensures Leads(c, m, s, steps, s') && Unblocked(s', base + 1, n)
    ensures s'.stages == s.stages[base := Failing]
    ensures InFlight(s'.stages) == InFlight(s.stages) + {base} && |InFlight(s'.stages)| == |InFlight(s.stages)| + 1
  {
    FailSteps(c, s, base);
    FlightOfNew(s.stages, base, Handling);
    FlightOfNew(s.stages, base, Failing);
    LeadsByTwo(c, m, s, Check(base), Respond(base, true));
    steps, s' := [Check(base)] + [Respond(base, true)], s.(stages := s.stages[base := Failing]);
  }

  lemma FlightOfMoved(stages: map<nat, Stage>, id: nat, stage: Stage)
    requires id in InFlight(stages)
    ensures InFlight(stages[id := stage]) == if Ended(stage) then InFlight(stages) - {id} else InFlight(stages)
    ensures |InFlight(stages[id := stage])| <= |InFlight(stages)|
  {
    FlightAfter(stages, id, stage);
    assert InFlight(stages) - {id} + {id} == InFlight(stages);
    SubsetSize(InFlight(stages[id := stage]), InFlight(stages));
  }

  lemma IncrStep(c: Config, s: State, id: nat)
    requires At(s, id) == Some(Failing)
    ensures
      var s1 := Apply(c, s, Incr(id));
      && s1.stages == s.stages[id := Counted(CountOf(s) + 1)]
      && CountOf(s1) == CountOf(s) + 1 && s1.counter.Some? && s1.errors == s.errors + 1
      && s1.blocks == s.blocks && s1.blockedUntil == s.blockedUntil && s1.now == s.now
  {
  }

  lemma ExpireStep(c: Config, s: State, id: nat, count: nat)
    requires At(s, id) == Some(Counted(count))
    ensures
      var s1 := Apply(c, s, Expire(id));
      && s1.stages == s.stages[id := if count >= c.threshold then Tripping(count) else Finished]
      && CountOf(s1) == CountOf(s) && s1.errors == s.errors
      && s1.blocks == s.blocks && s1.blockedUntil == s.blockedUntil && s1.now == s.now
  {
  }

  /** Its failure is counted and stays below the threshold. */
  lemma CountNext(c: Config, m: nat, s: State, id: nat, n: nat) returns (steps: seq<Step>, s': State)
    requires Unblocked(s, id + 1, n) && At(s, id) == Some(Failing) && n + 1 < c.threshold && |InFlight(s.stages)| <= m
    ensures Leads(c, m, s, steps, s') && Unblocked(s', id + 1, n + 1)
    ensures InFlight(s'.stages) == InFlight(s.stages) - {id}
  {
    var s1 := Apply(c, s, Incr(id));
    s' := Apply(c, s1, Expire(id));
    IncrStep(c, s, id);
    ExpireStep(c, s1, id, n + 1);
    assert s1.stages[id := Finished] == s.stages[id := Finished];
    FlightOfMoved(s.stages, id, Counted(n + 1));
    FlightOfMoved(s.stages, id, Finished);
    LeadsByTwo(c, m, s, Incr(id), Expire(id));
    steps := [Incr(id)] + [Expire(id)];
  }

  /** n failures, one after the other, below the threshold. */
  lemma {:induction false} WarmUp(c: Config, m: nat, n: nat) returns (steps: seq<Step>, s: State)
    requires n < c.threshold && m > 0
    ensures Leads(c, m, Initial(0), steps, s) && Unblocked(s, n, n) && InFlight(s.stages) == {}
  {
    if n == 0 {
      steps, s := [], Initial(0);
      assert InFlight(s.stages) == {};
    } else {
      var before, s0 := WarmUp(c, m, n - 1);
      var a, s1 := FailNext(c, m, s0, n - 1, n - 1);
      var b;
      b, s := CountNext(c, m, s1, n - 1, n - 1);
      LeadsOn(c, m, Initial(0), before, s0, a, s1);
      LeadsOn(c, m, Initial(0), before + a, s1, b, s);
      assert InFlight(s.stages) == {};
      steps := before + a + b;
    }
  }

  ghost predicate AllFailing(s: State, from: nat, to: nat) {
    forall id: nat :: from <= id < to ==> At(s, id) == Some(Failing)
  }

  /** k requests that have all failed and none of which is counted yet. */
  lemma {:induction false} Crowd(c: Config, m: nat, n: nat, k: nat) returns (steps: seq<Step>, s: State)
    requires n < c.threshold && k <= m && m > 0
    ensures Leads(c, m, Initial(0), steps, s) && Unblocked(s, n + k, n)
    ensures |InFlight(s.stages)| == k && AllFailing(s, n, n + k)
  {
    if k == 0 {
      steps, s := WarmUp(c, m, n);
    } else {
      var before, s0 := Crowd(c, m, n, k - 1);
      var more;
      more, s := FailNext(c, m, s0, n + k - 1, n);
      LeadsOn(c, m, Initial(0), before, s0, more, s);
      forall id: nat | n <= id < n + k ensures At(s, id) == Some(Failing) {
        assert id < n + k - 1 ==> At(s0, id) == Some(Failing);
      }
      steps := before + more;
    }
  }

  /** j requests of the crowd have written a block. */
  ghost predicate Blocked(c: Config, s: State, n: nat, k: nat, j: nat) {
    && n + 1 == c.threshold && j <= k
    && s.errors == n + j && CountOf(s) == n + j
    && |s.blocks| == j && (forall id :: id in s.blocks ==> id < n + j)
    && AllFailing(s, n + j, n + k) && |InFlight(s.stages)| == k
  }

  /** Its failure is counted, trips the guard and writes a block. */
  lemma TripNext(c: Config, m: nat, s: State, id: nat) returns (steps: seq<Step>, s': State)
    requires At(s, id) == Some(Failing) && CountOf(s) + 1 >= c.threshold && |InFlight(s.stages)| <= m
    ensures Leads(c, m, s, steps, s')
    ensures s'.stages == s.stages[id := Clearing] && InFlight(s'.stages) == InFlight(s.stages)
    ensures s'.errors == s.errors + 1 && CountOf(s') == CountOf(s) + 1 && s'.blocks == s.blocks + {id}
  {
    var count := CountOf(s) + 1;
    var s1 := Apply(c, s, Incr(id));
    var s2 := Apply(c, s1, Expire(id));
    s' := Apply(c, s2, Block(id));
    IncrStep(c, s, id);
    ExpireStep(c, s1, id, count);
    assert s1.stages[id := Tripping(count)] == s.stages[id := Tripping(count)];
    assert s2.stages[id := Clearing] == s.stages[id := Clearing];
    FlightOfMoved(s.stages, id, Counted(count));
    FlightOfMoved(s.stages, id, Tripping(count));
    FlightOfMoved(s.stages, id, Clearing);
    LeadsByTwo(c, m, s, Incr(id), Expire(id));
    LeadsByOne(c, m, s2, Block(id));
    LeadsOn(c, m, s, [Incr(id)] + [Expire(id)], s2, [Block(id)], s');
    steps := [Incr(id)] + [Expire(id)] + [Block(id)];
  }

  lemma BlockNext(c: Config, m: nat, s: State, n: nat, k: nat, j: nat) returns (steps: seq<Step>, s': State)
    requires Blocked(c, s, n, k, j) && j < k <= m
    ensures Leads(c, m, s, steps, s') && Blocked(c, s', n, k, j + 1)
  {
    assert At(s, n + j) == Some(Failing);
    steps, s' := TripNext(c, m, s, n + j);
    assert n + j !in s.blocks;
    forall i: nat | n + j + 1 <= i < n + k ensures At(s', i) == Some(Failing) {
      assert At(s, i) == Some(Failing);
    }
  }

  lemma {:induction false} BlockAll(c: Config, m: nat, k: nat, j: nat) returns (steps: seq<Step>, s: State)
    requires c.threshold > 0 && j <= k <= m && m > 0
    ensures Leads(c, m, Initial(0), steps, s) && Blocked(c, s, c.threshold - 1, k, j)
  {
    if j == 0 {
      steps, s := Crowd(c, m, c.threshold - 1, k);
    } else {
      var before, s0 := BlockAll(c, m, k, j - 1);
      var more;
      more, s := BlockNext(c, m, s0, c.threshold - 1, k, j - 1);
      LeadsOn(c, m, Initial(0), before, s0, more, s);
      steps := before + more;
    }
  }

  /** The interleaved bound is the best possible: for every threshold and every k, k requests at
      once write k blocks after no more than threshold - 1 + k failures. */
  lemma ConcurrentFailuresAttainBound(c: Config, k: nat) returns (steps: seq<Step>)
    requires c.threshold > 0 && k > 0
    ensures Paced(c, k, Initial(0), steps)
    ensures var s := Run(c, Initial(0), steps); |s.blocks| == k && s.errors == c.threshold - 1 + k
  {
    var s;
    steps, s := BlockAll(c, k, k, k);
  }

  /** In every run with at most m requests in flight k blocks cost k * threshold failures. */
  ghost predicate BlocksArePaid(c: Config, m: nat) {
    forall start: int, steps: seq<Step> :: Paced(c, m, Initial(start), steps)
      ==> Run(c, Initial(start), steps).errors >= |Run(c, Initial(start), steps).blocks| * c.threshold
  }

  /** That holds exactly when requests do not overlap, or one failure is enough for a block. */
  lemma BlocksArePaidIff(c: Config, m: nat)
    ensures BlocksArePaid(c, m) <==> m <= 1 || c.threshold <= 1
  {
    if m <= 1 || c.threshold <= 1 {
      forall start: int, steps: seq<Step> | Paced(c, m, Initial(start), steps)
        ensures Run(c, Initial(start), steps).errors >= |Run(c, Initial(start), steps).blocks| * c.threshold
      {
        if c.threshold <= 1 {
          BlocksNeedErrors(c, start, steps);
          NoMoreThan(|Run(c, Initial(start), steps).blocks|, c.threshold);
        } else {
          PacedMonotone(c, m, 1, Initial(start), steps);
          SerialBlocksArePaid(c, start, steps);
        }
      }
    } else {
      var steps := ConcurrentFailuresAttainBound(c, 2);
      PacedMonotone(c, 2, m, Initial(0), steps);
      assert c.threshold - 1 + 2 < 2 * c.threshold;
    }
  }

  lemma NoMoreThan(blocks: nat, threshold: int)
    requires threshold <= 1
    ensures threshold == 1 ==> blocks * threshold == blocks
    ensures threshold < 1 ==> blocks * threshold <= 0
  {
  }

  // ---------- One request at a time ----------

  class Redis {
    var counter: Option<Counter>
    var blockedUntil: int

    constructor (now: int)
      ensures View() == Key(None, now)
    {
      counter, blockedUntil := None, now;
    }

    ghost function View(): Key
      reads this
    {
      Key(counter, blockedUntil)
    }

    /** The middleware around one request; `failed` says how the handler would answer. */
    method Guard(c: Config, now: int, failed: bool) returns (handled: bool)
      modifies this
      ensures handled <==> old(blockedUntil) <= now
      ensures View() == Serve(c, old(View()), now, failed)
    {
      if now < blockedUntil {
        return false;
      }
      handled := true;
      if !failed {
        return;
      }
      var count := 1;
      if counter.Some? && !CounterOver(counter, now) {
        count := counter.value.count + 1;
        counter := Some(counter.value.(count := count));
      } else {
        counter := Some(Counter(1, None));
      }
      if count == 1 {
        counter := Some(counter.value.(expireAt := Some(now + c.window)));
      }
      if count >= c.threshold {
        blockedUntil := now + c.blockFor;
        counter := None;
      }
    }
  }

  datatype Key = Key(counter: Option<Counter>, blockedUntil: int)

  /** Failures on record at time `now`. */
  function Standing(k: Key, now: int): nat {
    if k.counter.Some? && !CounterOver(k.counter, now) then k.counter.value.count else 0
  }

  function Serve(c: Config, k: Key, now: int, failed: bool): Key {
    if now < k.blockedUntil || !failed then k
    else if Standing(k, now) + 1 >= c.threshold then Key(None, now + c.blockFor)
    else if Standing(k, now) == 0 then Key(Some(Counter(1, Some(now + c.window))), k.blockedUntil)
    else Key(Some(k.counter.value.(count := Standing(k, now) + 1)), k.blockedUntil)
  }

  /** The steps of one request with nobody else about. */
  function Alone(id: nat, failed: bool): seq<Step> {
    [Check(id)] + [Respond(id, failed)] + [Incr(id)] + [Expire(id)] + [Block(id)] + [Clear(id)]
  }

  function KeyOf(s: State): Key {
    Key(s.counter, s.blockedUntil)
  }

  lemma RunOneMore(c: Config, s: State, steps: seq<Step>, step: Step)
    ensures Run(c, s, steps + [step]) == Apply(c, Run(c, s, steps), step)
  {
    RunAppend(c, s, steps, [step]);
    assert [step][1..] == [];
  }

  lemma RunAlone(c: Config, s: State, id: nat, failed: bool)
    ensures Run(c, s, Alone(id, failed))
         == Apply(c, Apply(c, Apply(c, Apply(c, Apply(c, Apply(c, s, Check(id)), Respond(id, failed)), Incr(id)),
                                          Expire(id)), Block(id)), Clear(id))
  {
    var a := [Check(id)];
    assert a[1..] == [];
    RunOneMore(c, s, a, Respond(id, failed));
    RunOneMore(c, s, a + [Respond(id, failed)], Incr(id));
    RunOneMore(c, s, a + [Respond(id, failed)] + [Incr(id)], Expire(id));
    RunOneMore(c, s, a + [Respond(id, failed)] + [Incr(id)] + [Expire(id)], Block(id));
    RunOneMore(c, s, a + [Respond(id, failed)] + [Incr(id)] + [Expire(id)] + [Block(id)], Clear(id));
  }

  /** Serving one request is a run of the step model: what Guard does to the key, the steps do. */
  lemma ServeIsARun(c: Config, s: State, id: nat, failed: bool)
    requires id !in s.stages && !CounterOver(s.counter, s.now)
    ensures KeyOf(Run(c, s, Alone(id, failed))) == Serve(c, KeyOf(s), s.now, failed)
  {
    RunAlone(c, s, id, failed);
    var s2 := Apply(c, Apply(c, s, Check(id)), Respond(id, failed));
    if s.now < s.blockedUntil {
      assert At(s2, id) == Some(Refused);
    } else if !failed {
      assert At(s2, id) == Some(Finished);
    } else {
      FailSteps(c, s, id);
      assert At(s2, id) == Some(Failing);
      assert Standing(KeyOf(s), s.now) == CountOf(s);
    }
  }

  datatype Request = Request(now: int, failed: bool)

  /** The key after the first n requests, with how many failures were counted and blocks written. */
  datatype Tally = Tally(key: Key, errors: nat, blocks: nat)

  function Serial(c: Config, start: int, requests: seq<Request>, n: nat): Tally
    requires n <= |requests|
  {
    if n == 0 then Tally(Key(None, start), 0, 0)
    else
      var t := Serial(c, start, requests, n - 1);
      var r := requests[n - 1];
      var counted := t.key.blockedUntil <= r.now && r.failed;
      var blocks := counted && Standing(t.key, r.now) + 1 >= c.threshold;
      Tally(Serve(c, t.key, r.now, r.failed),
            t.errors + if counted then 1 else 0,
            t.blocks + if blocks then 1 else 0)
  }

  /** With requests handled one at a time the counter always rests below the threshold, and
      every block is paid for by `threshold` failures of its own. */
  lemma {:induction false} SerialBlocksCostThresholdEach(c: Config, start: int, requests: seq<Request>, n: nat)
    requires n <= |requests| && c.threshold > 0
    ensures var t := Serial(c, start, requests, n);
      var count := if t.key.counter.Some? then t.key.counter.value.count else 0;
      count < c.threshold && t.errors >= t.blocks * c.threshold + count
  {
    if n > 0 {
      SerialBlocksCostThresholdEach(c, start, requests, n - 1);
      var b := Serial(c, start, requests, n - 1).blocks;
      assert (b + 1) * c.threshold == b * c.threshold + c.threshold;
    }
  }

  /** Whether request i reached the counter. */
  predicate CountedAt(c: Config, start: int, requests: seq<Request>, i: nat)
    requires i < |requests|
  {
    Serial(c, start, requests, i).key.blockedUntil <= requests[i].now && requests[i].failed
  }

  /** How many of the first n requests did, at `from` or later. */
  function CountedSince(c: Config, start: int, requests: seq<Request>, n: nat, from: int): nat
    requires n <= |requests|
  {
    if n == 0 then 0
    else
      var here := CountedAt(c, start, requests, n - 1) && from <= requests[n - 1].now;
      CountedSince(c, start, requests, n - 1, from) + if here then 1 else 0
  }

  ghost predicate InTime(requests: seq<Request>) {
    forall i, j :: 0 <= i < j < |requests| ==> requests[i].now <= requests[j].now
  }

  lemma {:induction false} CountedLater(c: Config, start: int, requests: seq<Request>, n: nat, from: int, later: int)
    requires n <= |requests| && from <= later
    ensures CountedSince(c, start, requests, n, later) <= CountedSince(c, start, requests, n, from)
  {
    if n > 0 {
      CountedLater(c, start, requests, n - 1, from, later);
    }
  }

  /** The counter holds no more than the failures of one window up to its expiry. */
  ghost predicate Holds(c: Config, start: int, requests: seq<Request>, n: nat, counter: Option<Counter>)
    requires n <= |requests|
  {
    counter.Some? ==>
      && counter.value.expireAt.Some? && n > 0
      && counter.value.expireAt.value - c.window <= requests[n - 1].now
      && counter.value.count <= CountedSince(c, start, requests, n, counter.value.expireAt.value - c.window)
  }

  lemma {:induction false} CounterHolds(c: Config, start: int, requests: seq<Request>, n: nat)
    requires n <= |requests| && InTime(requests)
    ensures Holds(c, start, requests, n, Serial(c, start, requests, n).key.counter)
  {
    if n > 0 {
      CounterHolds(c, start, requests, n - 1);
      assert n > 1 ==> requests[n - 2].now <= requests[n - 1].now;
    }
  }

  /** A block needs a burst: when request n brings it about, it and threshold - 1 others have failed
      less than one window ago. */
  lemma BlockNeedsBurst(c: Config, start: int, requests: seq<Request>, n: nat)
    requires n < |requests| && InTime(requests) && c.window > 0
    requires Serial(c, start, requests, n + 1).blocks > Serial(c, start, requests, n).blocks
    ensures CountedSince(c, start, requests, n + 1, requests[n].now - c.window + 1) >= c.threshold
  {
    var k, now := Serial(c, start, requests, n).key, requests[n].now;
    CounterHolds(c, start, requests, n);
    assert CountedAt(c, start, requests, n);
    if Standing(k, now) > 0 {
      CountedLater(c, start, requests, n, now - c.window + 1, k.counter.value.expireAt.value - c.window);
    }
  }

  /** The tally counts exactly the failures that reached the counter and the blocks that were written. */
  lemma {:induction false} TallyIsExact(c: Config, start: int, requests: seq<Request>, n: nat, from: int)
    requires n <= |requests| && c.blockFor > 0 && forall i :: 0 <= i < |requests| ==> from <= requests[i].now
    ensures Serial(c, start, requests, n).errors == CountedSince(c, start, requests, n, from)
    ensures n == 0 ==> Serial(c, start, requests, n).blocks == 0
    ensures n > 0 ==>
      var before, after := Serial(c, start, requests, n - 1), Serial(c, start, requests, n);
      after.blocks == before.blocks + if after.key.blockedUntil != before.key.blockedUntil then 1 else 0
  {
    if n > 0 {
      TallyIsExact(c, start, requests, n - 1, from);
    }
  }

  /** The first failure opens a window: the counter is there until it ends, and then gone. */
  lemma WindowFromFirstFailure(c: Config, s: State, id: nat, to: int)
    requires At(s, id) == Some(Failing) && s.counter == None && s.now <= to && c.threshold > 1
    ensures
      var s' := Apply(c, Apply(c, Apply(c, s, Incr(id)), Expire(id)), Tick(to));
      && s'.now == to && s'.blockedUntil == s.blockedUntil
      && (s'.counter == None <==> s.now + c.window <= to)
      && (s'.counter.Some? ==> s'.counter.value == Counter(1, Some(s.now + c.window)))
  {
  }
}
