/**
  checkGlobalQPS of internal/middleware/rate_limiter.go: a process-wide counter and the second
  of its last reset, both changed by atomic operations that goroutines interleave freely.

  A step that is not enabled does nothing, so every sequence of steps is a run.  Nothing is
  assumed about the order in which goroutines observe the clock.
*/
module GlobalQps {
  import opened Common

  datatype Stage =
    | Clocked(now: int)              // time.Now().Unix() was read
    | Loaded(now: int, last: int)    // the reset second was loaded and lies in the past
    | ToStore(now: int)              // the compare-and-swap succeeded
    | ToAdd(now: int)
    | Done(current: int)             // value returned by the atomic add

  datatype Step = Clock(id: nat, now: int) | Load(id: nat) | Swap(id: nat) | Store(id: nat) | Add(id: nat)

  /** The two globals, the goroutines, and a ledger of what happened so far. */
  datatype State = State(
    counter: int,
    resetTime: int,
    stages: map<nat, Stage>,
    seen: set<int>,          // seconds goroutines have read
    resetSeconds: set<int>,  // seconds written by a successful compare-and-swap
    stores: nat,             // how often the counter was set to 0
    sinceStore: nat,         // admissions since it was last set to 0
    admitted: nat,
    perSecond: multiset<int>)  // the seconds the admitted requests had read

  function Initial(counter: int, resetTime: int): State {
    State(counter, resetTime, map[], {}, {}, 0, 0, 0, multiset{})
  }

  function At(s: State, id: nat): Option<Stage> {
    if id in s.stages then Some(s.stages[id]) else None
  }

  function Move(s: State, id: nat, stage: Stage): State {
    s.(stages := s.stages[id := stage])
  }

  function Apply(maxQPS: int, s: State, step: Step): State {
    match (step, At(s, step.id))
    case (Clock(id, now), None) => Move(s, id, Clocked(now)).(seen := s.seen + {now})
    case (Load(id), Some(Clocked(now))) =>
      Move(s, id, if now > s.resetTime then Loaded(now, s.resetTime) else ToAdd(now))
    case (Swap(id), Some(Loaded(now, last))) =>
      if s.resetTime == last
      then Move(s, id, ToStore(now)).(resetTime := now, resetSeconds := s.resetSeconds + {now})
      else Move(s, id, ToAdd(now))
    case (Store(id), Some(ToStore(now))) =>
      Move(s, id, ToAdd(now)).(counter := 0, stores := s.stores + 1, sinceStore := 0)
    case (Add(id), Some(ToAdd(now))) =>
      var one := if s.counter + 1 <= maxQPS then 1 else 0;
      Move(s, id, Done(s.counter + 1)).(counter := s.counter + 1,
                                        sinceStore := s.sinceStore + one,
                                        admitted := s.admitted + one,
                                        perSecond := s.perSecond + if one == 1 then multiset{now} else multiset{})
    case _ => s
  }

  function Run(maxQPS: int, s: State, steps: seq<Step>): State
    decreases |steps|
  {
    if steps == [] then s else Run(maxQPS, Apply(maxQPS, s, steps[0]), steps[1..])
  }

  function PendingStores(stages: map<nat, Stage>): set<nat> {
    set id | id in stages && stages[id].ToStore?
  }

  /** Seconds later than `from` that some goroutine has read. */
  function NewSeconds(s: State, from: int): set<int> {
    set x | x in s.seen && x > from
  }

  predicate Inv(maxQPS: int, from: int, s: State) {
    && 0 <= s.counter && s.sinceStore <= s.counter && s.sinceStore <= maxQPS
    && s.admitted <= maxQPS * s.stores + s.sinceStore
    && s.stores + |PendingStores(s.stages)| == |s.resetSeconds|
    && SecondsInv(from, s)
  }

  predicate SecondsInv(from: int, s: State) {
    && from <= s.resetTime
    && (forall x :: x in s.resetSeconds ==> x <= s.resetTime)
    && s.resetSeconds <= NewSeconds(s, from)
    && (forall id :: id in s.stages && s.stages[id].Clocked? ==> s.stages[id].now in s.seen)
    && (forall id :: id in s.stages && s.stages[id].Loaded? ==>
          s.stages[id].now in s.seen && from <= s.stages[id].last < s.stages[id].now)
  }

  lemma StepKeepsSeconds(maxQPS: int, from: int, s: State, step: Step)
    requires SecondsInv(from, s)
    ensures SecondsInv(from, Apply(maxQPS, s, step))
  {
  }

  /** A compare-and-swap records a second not recorded before; a store settles one of them. */
  lemma StepKeepsStoreCount(maxQPS: int, from: int, s: State, step: Step)
    requires SecondsInv(from, s) && s.stores + |PendingStores(s.stages)| == |s.resetSeconds|
    ensures Apply(maxQPS, s, step).stores + |PendingStores(Apply(maxQPS, s, step).stages)|
         == |Apply(maxQPS, s, step).resetSeconds|
  {
    match (step, At(s, step.id))
    case (Clock(id, now), None) => MoveChangesPending(s.stages, id, Clocked(now));
    case (Load(id), Some(Clocked(now))) =>
      MoveChangesPending(s.stages, id, if now > s.resetTime then Loaded(now, s.resetTime) else ToAdd(now));
    case (Swap(id), Some(Loaded(now, last))) =>
      MoveChangesPending(s.stages, id, if s.resetTime == last then ToStore(now) else ToAdd(now));
      assert s.resetTime == last ==> now !in s.resetSeconds;
    case (Store(id), Some(ToStore(now))) => MoveChangesPending(s.stages, id, ToAdd(now));
    case (Add(id), Some(ToAdd(now))) => MoveChangesPending(s.stages, id, Done(s.counter + 1));
    case _ =>
  }

  lemma MoveChangesPending(stages: map<nat, Stage>, id: nat, stage: Stage)
    ensures |PendingStores(stages[id := stage])|
         == |PendingStores(stages)|
          + (if stage.ToStore? then 1 else 0)
          - (if id in stages && stages[id].ToStore? then 1 else 0)
  {
    assert PendingStores(stages[id := stage])
        == PendingStores(stages) - {id} + if stage.ToStore? then {id} else {};
  }

  lemma StepKeepsInv(maxQPS: int, from: int, s: State, step: Step)
    requires maxQPS > 0 && Inv(maxQPS, from, s)
    ensures Inv(maxQPS, from, Apply(maxQPS, s, step))
  {
    StepKeepsSeconds(maxQPS, from, s, step);
    StepKeepsStoreCount(maxQPS, from, s, step);
    assert maxQPS * (s.stores + 1) == maxQPS * s.stores + maxQPS;
  }

  lemma {:induction false} RunKeepsInv(maxQPS: int, from: int, s: State, steps: seq<Step>)
    requires maxQPS > 0 && Inv(maxQPS, from, s)
    ensures Inv(maxQPS, from, Run(maxQPS, s, steps))
    decreases |steps|
  {
    if steps != [] {
      StepKeepsInv(maxQPS, from, s, steps[0]);
      RunKeepsInv(maxQPS, from, Apply(maxQPS, s, steps[0]), steps[1..]);
    }
  }

  /** Over every interleaving: at most maxQPS admissions between resets, no more resets than
      new seconds observed, hence at most maxQPS * (n + 1) admissions over n new seconds. */
  lemma AdmissionsOverSeconds(maxQPS: int, counter: nat, resetTime: int, steps: seq<Step>)
    requires maxQPS > 0
    ensures var s := Run(maxQPS, Initial(counter, resetTime), steps);
      && s.sinceStore <= maxQPS
      && s.stores <= |s.resetSeconds| <= |NewSeconds(s, resetTime)|
      && s.admitted <= maxQPS * (|NewSeconds(s, resetTime)| + 1)
  {
    var s0 := Initial(counter, resetTime);
    assert PendingStores(s0.stages) == {};
    RunKeepsInv(maxQPS, resetTime, s0, steps);
    var s := Run(maxQPS, s0, steps);
    var n := |NewSeconds(s, resetTime)|;
    SubsetSize(s.resetSeconds, NewSeconds(s, resetTime));
    ProductGrows(maxQPS, s.stores, n);
  }

  lemma ProductGrows(a: int, m: int, n: int)
    requires a > 0 && m <= n
    ensures a * m + a <= a * (n + 1)
  {
    assert a * (n + 1) - (a * m + a) == a * (n - m);
  }

  lemma RunThree(maxQPS: int, s: State, steps: seq<Step>, i: nat) returns (s': State)
    requires i + 3 <= |steps|
    ensures s' == Apply(maxQPS, Apply(maxQPS, Apply(maxQPS, s, steps[i]), steps[i + 1]), steps[i + 2])
    ensures Run(maxQPS, s, steps[i..]) == Run(maxQPS, s', steps[i + 3..])
  {
    assert steps[i..][1..] == steps[i + 1..];
    assert steps[i + 1..][1..] == steps[i + 2..];
    assert steps[i + 2..][1..] == steps[i + 3..];
    s' := Apply(maxQPS, Apply(maxQPS, Apply(maxQPS, s, steps[i]), steps[i + 1]), steps[i + 2]);
    assert Run(maxQPS, s, steps[i..]) == Run(maxQPS, Apply(maxQPS, s, steps[i]), steps[i + 1..]);
  }

  // ---------- Checks in flight ----------

  function InFlight(stages: map<nat, Stage>): set<nat> {
    set id | id in stages && !stages[id].Done?
  }

  /** No goroutine reads an earlier second than one read before. */
  predicate InOrder(s: State, step: Step) {
    step.Clock? ==> forall x :: x in s.seen ==> x <= step.now
  }

  /** At most k checks in flight at any time, and the clock does not go back. */
  predicate Paced(maxQPS: int, k: nat, s: State, steps: seq<Step>)
    decreases |steps|
  {
    && |InFlight(s.stages)| <= k
    && (steps == [] || (InOrder(s, steps[0]) && Paced(maxQPS, k, Apply(maxQPS, s, steps[0]), steps[1..])))
  }

  lemma {:induction false} PacedMonotone(maxQPS: int, k: nat, m: nat, s: State, steps: seq<Step>)
    requires k <= m && Paced(maxQPS, k, s, steps)
    ensures Paced(maxQPS, m, s, steps)
    decreases |steps|
  {
    if steps != [] {
      PacedMonotone(maxQPS, k, m, Apply(maxQPS, s, steps[0]), steps[1..]);
    }
  }

  // ---------- Runs of many checks ----------

  lemma {:induction false} RunAppend(maxQPS: int, s: State, a: seq<Step>, b: seq<Step>)
    ensures Run(maxQPS, s, a + b) == Run(maxQPS, Run(maxQPS, s, a), b)
    decreases |a|
  {
    if a == [] {
      assert a + b == b;
    } else {
      assert (a + b)[0] == a[0] && (a + b)[1..] == a[1..] + b;
      RunAppend(maxQPS, Apply(maxQPS, s, a[0]), a[1..], b);
    }
  }

  lemma {:induction false} PacedAppend(maxQPS: int, k: nat, s: State, a: seq<Step>, b: seq<Step>)
    requires Paced(maxQPS, k, s, a) && Paced(maxQPS, k, Run(maxQPS, s, a), b)
    ensures Paced(maxQPS, k, s, a + b)
    decreases |a|
  {
    if a == [] {
      assert a + b == b;
    } else {
      assert (a + b)[0] == a[0] && (a + b)[1..] == a[1..] + b;
      PacedAppend(maxQPS, k, Apply(maxQPS, s, a[0]), a[1..], b);
    }
  }

  /** From s a paced run with at most k in flight leads to s'. */
  ghost predicate Leads(maxQPS: int, k: nat, s: State, steps: seq<Step>, s': State) {
    Paced(maxQPS, k, s, steps) && Run(maxQPS, s, steps) == s'
  }

  lemma LeadsOn(maxQPS: int, k: nat, s: State, a: seq<Step>, s': State, b: seq<Step>, s'': State)
    requires Leads(maxQPS, k, s, a, s') && Leads(maxQPS, k, s', b, s'')
    ensures Leads(maxQPS, k, s, a + b, s'')
  {
    RunAppend(maxQPS, s, a, b);
    PacedAppend(maxQPS, k, s, a, b);
  }

  lemma LeadsByOne(maxQPS: int, k: nat, s: State, step: Step)
    requires |InFlight(s.stages)| <= k && InOrder(s, step) && |InFlight(Apply(maxQPS, s, step).stages)| <= k
    ensures Leads(maxQPS, k, s, [step], Apply(maxQPS, s, step))
  {
    var s' := Apply(maxQPS, s, step);
    assert [step][1..] == [];
    assert Paced(maxQPS, k, s', []);
  }

  ghost predicate StepsTo(maxQPS: int, k: nat, s: State, step: Step, s': State) {
    InOrder(s, step) && Apply(maxQPS, s, step) == s' && |InFlight(s'.stages)| <= k
  }

  lemma LeadsByThree(maxQPS: int, k: nat, s: State, x: Step, s1: State, y: Step, s2: State, z: Step, s3: State)
    requires |InFlight(s.stages)| <= k
    requires StepsTo(maxQPS, k, s, x, s1) && StepsTo(maxQPS, k, s1, y, s2) && StepsTo(maxQPS, k, s2, z, s3)
    ensures Leads(maxQPS, k, s, [x] + [y] + [z], s3)
  {
    LeadsByOne(maxQPS, k, s, x);
    LeadsByOne(maxQPS, k, s1, y);
    LeadsByOne(maxQPS, k, s2, z);
    LeadsOn(maxQPS, k, s, [x], s1, [y], s2);
    LeadsOn(maxQPS, k, s, [x] + [y], s2, [z], s3);
  }

  lemma FlightAfter(stages: map<nat, Stage>, id: nat, stage: Stage)
    ensures InFlight(stages[id := stage]) == InFlight(stages) - {id} + if stage.Done? then {} else {id}
    ensures id !in stages ==> |InFlight(stages[id := stage])| == |InFlight(stages)| + if stage.Done? then 0 else 1
  {
    if id !in stages {
      assert id !in InFlight(stages);
      assert InFlight(stages) - {id} == InFlight(stages);
    }
  }

  /** Ids from `base` on are still free; no second later than `now` has been read. */
  ghost predicate Fresh(s: State, base: nat, now: int) {
    && (forall id: nat :: base <= id ==> id !in s.stages)
    && (forall x :: x in s.seen ==> x <= now)
  }

  /** What one more check of a second that needs no reset leaves behind, when it is admitted. */
  function Served(s: State, id: nat, now: int): State {
    State(s.counter + 1, s.resetTime, s.stages[id := Done(s.counter + 1)], s.seen + {now}, s.resetSeconds,
          s.stores, s.sinceStore + 1, s.admitted + 1, s.perSecond + multiset{now})
  }

  /** A check of that second that has loaded the reset time and goes on to the add. */
  function Adding(s: State, id: nat, now: int): State {
    s.(stages := s.stages[id := ToAdd(now)], seen := s.seen + {now})
  }

  lemma AddServes(maxQPS: int, k: nat, s: State, id: nat, now: int)
    requires id !in s.stages && |InFlight(s.stages)| <= k && s.counter < maxQPS
    ensures StepsTo(maxQPS, k, Adding(s, id, now), Add(id), Served(s, id, now))
  {
    FlightAfter(s.stages, id, Done(s.counter + 1));
    assert s.stages[id := ToAdd(now)][id := Done(s.counter + 1)] == s.stages[id := Done(s.counter + 1)];
  }

  lemma ServeOne(maxQPS: int, k: nat, s: State, base: nat, now: int) returns (steps: seq<Step>)
    requires Fresh(s, base, now) && now <= s.resetTime && |InFlight(s.stages)| < k && s.counter < maxQPS
    ensures Leads(maxQPS, k, s, steps, Served(s, base, now))
    ensures forall i :: 0 <= i < |steps| && steps[i].Clock? ==> steps[i].now == now
  {
    var s1 := s.(stages := s.stages[base := Clocked(now)], seen := s.seen + {now});
    var s2 := Adding(s, base, now);
    FlightAfter(s.stages, base, Clocked(now));
    FlightAfter(s.stages, base, ToAdd(now));
    assert s1.stages[base := ToAdd(now)] == s2.stages;
    assert StepsTo(maxQPS, k, s, Clock(base, now), s1);
    assert StepsTo(maxQPS, k, s1, Load(base), s2);
    AddServes(maxQPS, k, s, base, now);
    LeadsByThree(maxQPS, k, s, Clock(base, now), s1, Load(base), s2, Add(base), Served(s, base, now));
    steps := [Clock(base, now)] + [Load(base)] + [Add(base)];
  }

  /** m checks served one after the other. */
  ghost predicate ServedMany(s: State, s': State, base: nat, now: int, m: nat) {
    && s'.counter == s.counter + m && s'.admitted == s.admitted + m && s'.perSecond[now] == s.perSecond[now] + m
    && s'.resetTime == s.resetTime && s'.resetSeconds == s.resetSeconds && Fresh(s', base + m, now)
    && s.seen <= s'.seen <= s.seen + {now}
    && InFlight(s'.stages) == InFlight(s.stages)
    && (forall id: nat :: id < base && id in s.stages ==> id in s'.stages && s'.stages[id] == s.stages[id])
  }

  lemma ServedIsOne(s: State, base: nat, now: int)
    requires Fresh(s, base, now)
    ensures ServedMany(s, Served(s, base, now), base, now, 1)
  {
    FlightAfter(s.stages, base, Done(s.counter + 1));
    assert base !in InFlight(s.stages);
  }

  lemma ServedChain(s: State, s1: State, s2: State, base: nat, now: int, m: nat)
    requires ServedMany(s, s1, base, now, m) && ServedMany(s1, s2, base + m, now, 1)
    ensures ServedMany(s, s2, base, now, m + 1)
  {
  }

  lemma {:induction false} ServeMany(maxQPS: int, k: nat, s: State, base: nat, now: int, m: nat)
    returns (steps: seq<Step>, s': State)
    requires Fresh(s, base, now) && now <= s.resetTime && |InFlight(s.stages)| < k && s.counter + m <= maxQPS
    ensures Leads(maxQPS, k, s, steps, s') && ServedMany(s, s', base, now, m)
    ensures forall i :: 0 <= i < |steps| && steps[i].Clock? ==> steps[i].now == now
  {
    if m == 0 {
      steps, s' := [], s;
    } else {
      var before, s1 := ServeMany(maxQPS, k, s, base, now, m - 1);
      var last := ServeOne(maxQPS, k, s1, base + m - 1, now);
      s' := Served(s1, base + m - 1, now);
      LeadsOn(maxQPS, k, s, before, s1, last, s');
      ServedIsOne(s1, base + m - 1, now);
      ServedChain(s, s1, s', base, now, m - 1);
      steps := before + last;
    }
  }

  // ---------- Exceeding the limit ----------

  /** The first check of a new second, up to its compare-and-swap. */
  function Swapped(s: State, id: nat, now: int): State {
    s.(stages := s.stages[id := ToStore(now)], seen := s.seen + {now}, resetTime := now,
      resetSeconds := s.resetSeconds + {now})
  }

  lemma SwapFirst(maxQPS: int, k: nat, s: State, base: nat, now: int) returns (steps: seq<Step>)
    requires Fresh(s, base, now) && s.resetTime < now && |InFlight(s.stages)| < k
    ensures Leads(maxQPS, k, s, steps, Swapped(s, base, now))
    ensures Fresh(Swapped(s, base, now), base + 1, now)
    ensures |InFlight(Swapped(s, base, now).stages)| == |InFlight(s.stages)| + 1
    ensures forall i :: 0 <= i < |steps| && steps[i].Clock? ==> steps[i].now == now
  {
    var s1 := s.(stages := s.stages[base := Clocked(now)], seen := s.seen + {now});
    var s2 := s1.(stages := s.stages[base := Loaded(now, s.resetTime)]);
    FlightAfter(s.stages, base, Clocked(now));
    FlightAfter(s.stages, base, Loaded(now, s.resetTime));
    FlightAfter(s.stages, base, ToStore(now));
    assert s1.stages[base := Loaded(now, s.resetTime)] == s2.stages;
    assert s2.stages[base := ToStore(now)] == s.stages[base := ToStore(now)];
    assert StepsTo(maxQPS, k, s, Clock(base, now), s1);
    assert StepsTo(maxQPS, k, s1, Load(base), s2);
    assert StepsTo(maxQPS, k, s2, Swap(base), Swapped(s, base, now));
    LeadsByThree(maxQPS, k, s, Clock(base, now), s1, Load(base), s2, Swap(base), Swapped(s, base, now));
    steps := [Clock(base, now)] + [Load(base)] + [Swap(base)];
  }

  /** The same check once it has stored and added: the counter starts again at 1. */
  function Stored(s: State, id: nat, now: int): State {
    State(1, s.resetTime, s.stages[id := Done(1)], s.seen, s.resetSeconds,
          s.stores + 1, 1, s.admitted + 1, s.perSecond + multiset{now})
  }

  lemma StoreAndAdd(maxQPS: int, k: nat, s: State, id: nat, now: int)
    requires maxQPS > 0 && id in s.stages && s.stages[id] == ToStore(now) && |InFlight(s.stages)| <= k
    ensures Leads(maxQPS, k, s, [Store(id)] + [Add(id)], Stored(s, id, now))
  {
    var s1 := s.(stages := s.stages[id := ToAdd(now)], counter := 0, stores := s.stores + 1, sinceStore := 0);
    var s2 := Stored(s, id, now);
    FlightAfter(s.stages, id, ToAdd(now));
    FlightAfter(s.stages, id, Done(1));
    SubsetSize(InFlight(s1.stages), InFlight(s.stages));
    SubsetSize(InFlight(s2.stages), InFlight(s.stages));
    assert s1.stages[id := Done(1)] == s2.stages;
    assert Apply(maxQPS, s, Store(id)) == s1;
    assert Apply(maxQPS, s1, Add(id)) == s2;
    LeadsByOne(maxQPS, k, s, Store(id));
    LeadsByOne(maxQPS, k, s1, Add(id));
    LeadsOn(maxQPS, k, s, [Store(id)], s1, [Add(id)], s2);
  }

  /** Between the swap and the store of one check others use up the whole limit: the second gets
      one request too many, for every limit, with two checks in flight and one clock reading. */
  lemma SecondOverLimit(maxQPS: int, k: nat, second: int) returns (steps: seq<Step>)
    requires maxQPS > 0 && k >= 2
    ensures Paced(maxQPS, k, Initial(0, second - 1), steps)
    ensures forall i :: 0 <= i < |steps| && steps[i].Clock? ==> steps[i].now == second
    ensures Run(maxQPS, Initial(0, second - 1), steps).perSecond[second] == maxQPS + 1
  {
    var s0 := Initial(0, second - 1);
    assert InFlight(s0.stages) == {};
    var a := SwapFirst(maxQPS, k, s0, 0, second);
    var s1 := Swapped(s0, 0, second);
    var b, s2 := ServeMany(maxQPS, k, s1, 1, second, maxQPS);
    assert 0 in s2.stages && s2.stages[0] == ToStore(second);
    StoreAndAdd(maxQPS, k, s2, 0, second);
    LeadsOn(maxQPS, k, s0, a, s1, b, s2);
    LeadsOn(maxQPS, k, s0, a + b, s2, [Store(0)] + [Add(0)], Stored(s2, 0, second));
    steps := a + b + ([Store(0)] + [Add(0)]);
  }

  // ---------- The bound over several seconds is attained ----------

  /** A run over the seconds up to n that has admitted the limit in each, and in the second before. */
  ghost predicate Full(maxQPS: int, s: State, base: nat, n: nat) {
    && Fresh(s, base, n) && InFlight(s.stages) == {} && s.resetTime == n
    && |NewSeconds(s, 0)| == n && s.admitted == maxQPS * (n + 1)
  }

  lemma {:induction false} FillSeconds(maxQPS: int, n: nat) returns (steps: seq<Step>, s: State, base: nat)
    requires maxQPS > 0
    ensures Leads(maxQPS, 1, Initial(0, 0), steps, s) && Full(maxQPS, s, base, n)
  {
    if n == 0 {
      var s0 := Initial(0, 0);
      assert InFlight(s0.stages) == {};
      steps, s := ServeMany(maxQPS, 1, s0, 0, 0, maxQPS);
      base := maxQPS;
      assert NewSeconds(s, 0) == {};
    } else {
      var before, s1, free := FillSeconds(maxQPS, n - 1);
      var more;
      more, s, base := FillNext(maxQPS, s1, free, n - 1);
      LeadsOn(maxQPS, 1, Initial(0, 0), before, s1, more, s);
      steps := before + more;
    }
  }

  /** The first check of the next second. */
  lemma FillReset(maxQPS: int, s: State, free: nat, n: nat) returns (steps: seq<Step>, s': State)
    requires maxQPS > 0 && Full(maxQPS, s, free, n)
    ensures Leads(maxQPS, 1, s, steps, s') && Fresh(s', free + 1, n + 1) && InFlight(s'.stages) == {}
    ensures s'.counter == 1 && s'.resetTime == n + 1 && s'.admitted == s.admitted + 1 && s'.seen == s.seen + {n + 1}
  {
    var now := n + 1;
    var a := SwapFirst(maxQPS, 1, s, free, now);
    var s1 := Swapped(s, free, now);
    s' := Stored(s1, free, now);
    StoreAndAdd(maxQPS, 1, s1, free, now);
    LeadsOn(maxQPS, 1, s, a, s1, [Store(free)] + [Add(free)], s');
    steps := a + ([Store(free)] + [Add(free)]);
    FlightAfter(s1.stages, free, Done(1));
    FlightAfter(s.stages, free, ToStore(now));
  }

  lemma FillNext(maxQPS: int, s: State, free: nat, n: nat) returns (steps: seq<Step>, s': State, base: nat)
    requires maxQPS > 0 && Full(maxQPS, s, free, n)
    ensures Leads(maxQPS, 1, s, steps, s') && Full(maxQPS, s', base, n + 1)
  {
    var a, s1 := FillReset(maxQPS, s, free, n);
    var b;
    b, s' := ServeMany(maxQPS, 1, s1, free + 1, n + 1, maxQPS - 1);
    LeadsOn(maxQPS, 1, s, a, s1, b, s');
    steps, base := a + b, free + 1 + (maxQPS - 1);
    assert n + 1 !in NewSeconds(s, 0);
    assert NewSeconds(s', 0) == NewSeconds(s, 0) + {n + 1};
    assert maxQPS * (n + 1) + maxQPS == maxQPS * (n + 2);
  }

  /** For every limit and n some run over n new seconds admits maxQPS * (n + 1). */
  lemma AdmissionsAttained(maxQPS: int, n: nat) returns (steps: seq<Step>)
    requires maxQPS > 0
    ensures var s := Run(maxQPS, Initial(0, 0), steps);
      |NewSeconds(s, 0)| == n && s.admitted == maxQPS * (n + 1)
  {
    var s, base;
    steps, s, base := FillSeconds(maxQPS, n);
  }

  // ---------- One goroutine at a time ----------

  class Globals {
    var counter: int
    var resetTime: int

    constructor (counter: int, resetTime: int)
      ensures this.counter == counter && this.resetTime == resetTime
    {
      this.counter, this.resetTime := counter, resetTime;
    }

    /** Without interference the check has the effect of the goroutine's steps taken in a row. */
    method CheckGlobalQPS(maxQPS: int, now: int) returns (ok: bool)
      modifies this
      ensures maxQPS <= 0 ==> ok && counter == old(counter) && resetTime == old(resetTime)
      ensures maxQPS > 0 ==>
        var s := Run(maxQPS, Initial(old(counter), old(resetTime)), Whole(now > old(resetTime), now));
        counter == s.counter && resetTime == s.resetTime && ok == (s.admitted == 1)
    {
      if maxQPS <= 0 {
        return true;
      }
      WholeRun(maxQPS, counter, resetTime, now);
      var lastReset := resetTime;
      if now > lastReset {
        resetTime := now;
        counter := 0;
      }
      counter := counter + 1;
      ok := counter <= maxQPS;
    }
  }

  function Whole(newSecond: bool, now: int): seq<Step> {
    if newSecond then [Clock(0, now), Load(0), Swap(0), Store(0), Add(0)] else [Clock(0, now), Load(0), Add(0)]
  }

  lemma WholeRun(maxQPS: int, counter: int, resetTime: int, now: int)
    ensures var s := Run(maxQPS, Initial(counter, resetTime), Whole(now > resetTime, now));
      && s.resetTime == (if now > resetTime then now else resetTime)
      && s.counter == (if now > resetTime then 1 else counter + 1)
      && s.admitted == if s.counter <= maxQPS then 1 else 0
  {
    var steps := Whole(now > resetTime, now);
    assert steps[0..] == steps;
    var s3 := RunThree(maxQPS, Initial(counter, resetTime), steps, 0);
    if now > resetTime {
      assert s3.stages[0] == ToStore(now);
      assert steps[3..][1..] == steps[4..] && steps[4..][1..] == [];
      assert Run(maxQPS, s3, steps[3..]) == Run(maxQPS, Apply(maxQPS, s3, Store(0)), steps[4..]);
    } else {
      assert steps[3..] == [];
    }
  }
}
