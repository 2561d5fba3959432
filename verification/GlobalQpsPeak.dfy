/**
  The most requests checkGlobalQPS can admit in one second when at most k checks are in flight.

  A check that has won the compare-and-swap of an earlier second may be late with its store, and
  starts the count again in the middle of this one; a check that read the clock this second may be
  late with its add, and be counted after a later second has started again.
*/
module GlobalQpsPeak {
  import opened Common
  import opened GlobalQps

  function Smaller(a: int, b: int): int {
    if a <= b then a else b
  }

  /** What one second admits until the clock moves on. */
  function PeakInTime(maxQPS: int, k: nat): int {
    k * maxQPS + Smaller(maxQPS, k - 1)
  }

  function PeakInAll(maxQPS: int, k: nat): int {
    PeakInTime(maxQPS, k) + k - 1
  }

  /** The most one second admits: each further check in flight brings the limit once more, one late
      add, and as long as the limit lasts one more in the count that was running. */
  function Peak(maxQPS: int, k: nat): int {
    if k <= 1 then maxQPS else Peak(maxQPS, k - 1) + maxQPS + 1 + if k - 1 <= maxQPS then 1 else 0
  }

  lemma {:induction false} PeakIs(maxQPS: int, k: nat)
    requires maxQPS > 0 && k > 0
    ensures Peak(maxQPS, k) == k * maxQPS + Smaller(maxQPS, k - 1) + k - 1
  {
    if k > 1 {
      PeakIs(maxQPS, k - 1);
      assert k * maxQPS == (k - 1) * maxQPS + maxQPS;
    }
  }

  // ---------- Who may still start the count again, and who may still be admitted ----------

  predicate ReadAt(stage: Stage, x: int) {
    !stage.Done? && stage.now == x
  }

  predicate ReadBefore(stage: Stage, x: int) {
    !stage.Done? && stage.now < x
  }

  /** Checks of second x that are in flight. */
  function Current(s: State, x: int): set<nat> {
    set id | id in s.stages && ReadAt(s.stages[id], x)
  }

  /** Checks of earlier seconds that have not swapped. */
  function Unswapped(s: State, x: int): set<nat> {
    set id | id in s.stages && ReadBefore(s.stages[id], x) && (s.stages[id].Clocked? || s.stages[id].Loaded?)
  }

  /** Checks of earlier seconds that may still store. */
  function Storers(s: State, x: int): set<nat> {
    set id | id in s.stages && ReadBefore(s.stages[id], x) && !s.stages[id].ToAdd?
  }

  predicate Certain(s: State, stage: Stage, x: int) {
    || (stage.ToAdd? && stage.now == x)
    || (stage.Loaded? && stage.now == x && stage.last != s.resetTime)
  }

  /** Checks of second x that will not swap. */
  function Sure(s: State, x: int): set<nat> {
    set id | id in s.stages && Certain(s, s.stages[id], x)
  }

  predicate StageFits(s: State, stage: Stage) {
    match stage
    case Clocked(now) => now in s.seen
    case Loaded(now, last) => now in s.seen && last < now && last <= s.resetTime
    case ToStore(now) => now in s.seen && now <= s.resetTime
    case ToAdd(now) => now in s.seen
    case Done(_) => true
  }

  predicate Basic(maxQPS: int, k: nat, s: State) {
    && s.sinceStore <= s.counter && s.sinceStore <= maxQPS && |InFlight(s.stages)| <= k
    && forall id :: id in s.stages ==> StageFits(s, s.stages[id])
  }

  predicate NotYet(s: State, x: int) { forall y :: y in s.seen ==> y < x }

  predicate Now(s: State, x: int) { x in s.seen && forall y :: y in s.seen ==> y <= x }

  /** Second x is being counted, and has not been reset: `first` bounds its admissions while every
      other check in flight may still store. */
  predicate BeforeReset(maxQPS: int, k: nat, s: State, x: int) {
    var a, storers := s.perSecond[x], |Storers(s, x)|;
    && storers <= k - 1
    && if storers == k - 1 then a <= s.sinceStore && a + |Unswapped(s, x)| + |Sure(s, x)| <= k - 1
       else a - s.sinceStore <= (k - 2 - storers) * maxQPS + Smaller(maxQPS, k - 1)
  }

  predicate AfterReset(maxQPS: int, k: nat, s: State, x: int) {
    var a, pending := s.perSecond[x], |PendingStores(s.stages)|;
    if pending == k then a + k * maxQPS <= PeakInTime(maxQPS, k)
    else a + (maxQPS - s.sinceStore) + pending * maxQPS <= PeakInTime(maxQPS, k)
  }

  predicate PeakInv(maxQPS: int, k: nat, s: State, x: int) {
    && Basic(maxQPS, k, s)
    && if NotYet(s, x) then s.perSecond[x] == 0
       else if Now(s, x) then
         if s.resetTime < x then BeforeReset(maxQPS, k, s, x) else AfterReset(maxQPS, k, s, x)
       else s.perSecond[x] + |Current(s, x)| <= PeakInAll(maxQPS, k)
  }

  // ---------- One step ----------

  lemma BasicStep(maxQPS: int, k: nat, s: State, step: Step)
    requires maxQPS > 0 && Basic(maxQPS, k, s) && |InFlight(Apply(maxQPS, s, step).stages)| <= k
    ensures Basic(maxQPS, k, Apply(maxQPS, s, step))
  {
  }

  /** A set that one step changes in at most one place. */
  lemma OneChange(a: set<nat>, b: set<nat>, id: nat)
    requires b - {id} == a - {id}
    ensures |b| == |a| + (if id in b then 1 else 0) - (if id in a then 1 else 0)
  {
    assert b == (a - {id}) + if id in b then {id} else {};
    assert a == (a - {id}) + if id in a then {id} else {};
  }

  lemma SetsChange(maxQPS: int, s: State, step: Step, x: int)
    ensures var s', id := Apply(maxQPS, s, step), step.id;
      && Current(s', x) - {id} == Current(s, x) - {id}
      && Unswapped(s', x) - {id} == Unswapped(s, x) - {id}
      && Storers(s', x) - {id} == Storers(s, x) - {id}
      && PendingStores(s'.stages) - {id} == PendingStores(s.stages) - {id}
      && (s'.resetTime == s.resetTime ==> Sure(s', x) - {id} == Sure(s, x) - {id})
  {
  }

  lemma SizesChange(maxQPS: int, s: State, step: Step, x: int)
    ensures var s', id := Apply(maxQPS, s, step), step.id;
      && |Current(s', x)| == |Current(s, x)| + (if id in Current(s', x) then 1 else 0)
                             - (if id in Current(s, x) then 1 else 0)
      && |Unswapped(s', x)| == |Unswapped(s, x)| + (if id in Unswapped(s', x) then 1 else 0)
                               - (if id in Unswapped(s, x) then 1 else 0)
      && |Storers(s', x)| == |Storers(s, x)| + (if id in Storers(s', x) then 1 else 0)
                             - (if id in Storers(s, x) then 1 else 0)
      && |PendingStores(s'.stages)| == |PendingStores(s.stages)| + (if id in PendingStores(s'.stages) then 1 else 0)
                                       - (if id in PendingStores(s.stages) then 1 else 0)
      && (s'.resetTime == s.resetTime ==>
            |Sure(s', x)| == |Sure(s, x)| + (if id in Sure(s', x) then 1 else 0) - (if id in Sure(s, x) then 1 else 0))
  {
    var s', id := Apply(maxQPS, s, step), step.id;
    SetsChange(maxQPS, s, step, x);
    OneChange(Current(s, x), Current(s', x), id);
    OneChange(Unswapped(s, x), Unswapped(s', x), id);
    OneChange(Storers(s, x), Storers(s', x), id);
    OneChange(PendingStores(s.stages), PendingStores(s'.stages), id);
    if s'.resetTime == s.resetTime {
      OneChange(Sure(s, x), Sure(s', x), id);
    }
  }

  /** All the checks that may store are in flight, besides those of second x. */
  lemma SeatsTaken(k: nat, s: State, x: int)
    requires |InFlight(s.stages)| <= k
    ensures |Storers(s, x)| + |Current(s, x)| <= k
    ensures |PendingStores(s.stages)| <= k && |Sure(s, x)| <= |Current(s, x)|
    ensures |PendingStores(s.stages)| == k ==> PendingStores(s.stages) == InFlight(s.stages)
  {
    assert Storers(s, x) !! Current(s, x);
    assert |Storers(s, x) + Current(s, x)| == |Storers(s, x)| + |Current(s, x)|;
    SubsetSize(Storers(s, x) + Current(s, x), InFlight(s.stages));
    SubsetSize(PendingStores(s.stages), InFlight(s.stages));
    SubsetSize(Sure(s, x), Current(s, x));
  }

  lemma TimesNext(a: int, q: int)
    ensures (a + 1) * q == a * q + q
  {
  }

  lemma TimesNotNegative(a: int, q: int)
    requires 0 <= a && 0 <= q
    ensures 0 <= a * q
  {
  }

  // A storer gone gives the bound of the others one more limit.
  lemma StorerGone(maxQPS: int, k: nat, s: State, s': State, x: int)
    requires maxQPS > 0 && s.sinceStore <= maxQPS && BeforeReset(maxQPS, k, s, x)
    requires |Storers(s', x)| == |Storers(s, x)| - 1 && s'.perSecond[x] == s.perSecond[x]
    requires s'.sinceStore == s.sinceStore || s'.sinceStore == 0
    ensures BeforeReset(maxQPS, k, s', x)
  {
    TimesNext(k - 2 - |Storers(s, x)|, maxQPS);
    if |Storers(s, x)| < k - 1 {
      TimesNotNegative(k - 2 - |Storers(s, x)|, maxQPS);
    }
  }

  lemma StoreBeforeReset(maxQPS: int, k: nat, s: State, id: nat, x: int)
    requires maxQPS > 0 && Basic(maxQPS, k, s) && s.resetTime < x && BeforeReset(maxQPS, k, s, x)
    ensures BeforeReset(maxQPS, k, Apply(maxQPS, s, Store(id)), x)
  {
    if id in s.stages && s.stages[id].ToStore? {
      SizesChange(maxQPS, s, Store(id), x);
      assert id in Storers(s, x) && id !in Storers(Apply(maxQPS, s, Store(id)), x);
      StorerGone(maxQPS, k, s, Apply(maxQPS, s, Store(id)), x);
    }
  }

  lemma AddBeforeReset(maxQPS: int, k: nat, s: State, id: nat, x: int)
    requires maxQPS > 0 && Basic(maxQPS, k, s) && s.resetTime < x && BeforeReset(maxQPS, k, s, x)
    ensures BeforeReset(maxQPS, k, Apply(maxQPS, s, Add(id)), x)
  {
    if id in s.stages && s.stages[id].ToAdd? {
      SizesChange(maxQPS, s, Add(id), x);
      assert id !in Storers(s, x) && id !in Unswapped(s, x);
      assert id in Sure(s, x) <==> s.stages[id].now == x;
    }
  }

  /** A load, or a compare-and-swap that fails. */
  lemma LookBeforeReset(maxQPS: int, k: nat, s: State, step: Step, x: int)
    requires maxQPS > 0 && Basic(maxQPS, k, s) && s.resetTime < x && BeforeReset(maxQPS, k, s, x)
    requires step.Load? || step.Swap?
    requires Apply(maxQPS, s, step).resetTime == s.resetTime
    ensures BeforeReset(maxQPS, k, Apply(maxQPS, s, step), x)
  {
    var s', id := Apply(maxQPS, s, step), step.id;
    SizesChange(maxQPS, s, step, x);
    if id in Storers(s, x) && id !in Storers(s', x) {
      StorerGone(maxQPS, k, s, s', x);
    } else if s' != s {
      assert id in Storers(s', x) <==> id in Storers(s, x);
      assert id in Unswapped(s', x) <==> id in Unswapped(s, x);
      assert id in Sure(s', x) <==> id in Sure(s, x);
    }
  }

  lemma ClockInSecond(maxQPS: int, k: nat, s: State, id: nat, x: int)
    requires BeforeReset(maxQPS, k, s, x)
    ensures BeforeReset(maxQPS, k, Apply(maxQPS, s, Clock(id, x)), x)
  {
    SizesChange(maxQPS, s, Clock(id, x), x);
  }

  /** An earlier second is reset late: at most the one check of second x that has loaded is now sure. */
  lemma OldSwap(maxQPS: int, k: nat, s: State, id: nat, x: int)
    requires maxQPS > 0 && Basic(maxQPS, k, s) && s.resetTime < x && BeforeReset(maxQPS, k, s, x)
    requires id in s.stages && s.stages[id].Loaded? && s.stages[id].last == s.resetTime && s.stages[id].now < x
    ensures BeforeReset(maxQPS, k, Apply(maxQPS, s, Swap(id)), x)
  {
    var s' := Apply(maxQPS, s, Swap(id));
    SizesChange(maxQPS, s, Swap(id), x);
    SeatsTaken(k, s, x);
    assert id in Storers(s, x) && id in Storers(s', x);
    assert id in Unswapped(s, x) && id !in Unswapped(s', x);
    if |Storers(s, x)| == k - 1 {
      assert Sure(s, x) <= Sure(s', x) <= Current(s, x) by {
        forall i | i in Sure(s, x) ensures i in Sure(s', x) {
          assert StageFits(s, s.stages[i]);
        }
      }
      SubsetSize(Sure(s', x), Current(s, x));
      SubsetSize(Sure(s, x), Sure(s', x));
      assert |Sure(s', x)| <= 1;
    }
  }

  /** The reset of second x itself. */
  lemma OwnSwap(maxQPS: int, k: nat, s: State, id: nat, x: int)
    requires maxQPS > 0 && Basic(maxQPS, k, s) && s.resetTime < x && BeforeReset(maxQPS, k, s, x)
    requires id in s.stages && s.stages[id].Loaded? && s.stages[id].last == s.resetTime && s.stages[id].now == x
    ensures AfterReset(maxQPS, k, Apply(maxQPS, s, Swap(id)), x)
  {
    var s' := Apply(maxQPS, s, Swap(id));
    SizesChange(maxQPS, s, Swap(id), x);
    assert id !in PendingStores(s.stages) && id in PendingStores(s'.stages);
    var pending, storers := |PendingStores(s.stages)|, |Storers(s, x)|;
    assert PendingStores(s.stages) <= Storers(s, x) by {
      forall i | i in PendingStores(s.stages) ensures i in Storers(s, x) {
        assert StageFits(s, s.stages[i]);
      }
    }
    SubsetSize(PendingStores(s.stages), Storers(s, x));
    if pending + 1 < k {
      assert s.perSecond[x] - s.sinceStore <= (k - 2 - pending) * maxQPS + Smaller(maxQPS, k - 1) by {
        TimesNotNegative(k - 2 - pending, maxQPS);
        if storers < k - 1 {
          TimesNotNegative(storers - pending, maxQPS);
          assert (k - 2 - pending) * maxQPS == (k - 2 - storers) * maxQPS + (storers - pending) * maxQPS;
        }
      }
      assert (k - 2 - pending) * maxQPS == k * maxQPS - maxQPS - (pending + 1) * maxQPS;
    }
  }

  lemma StepAfterReset(maxQPS: int, k: nat, s: State, step: Step, x: int)
    requires maxQPS > 0 && Basic(maxQPS, k, s) && Now(s, x) && x <= s.resetTime && AfterReset(maxQPS, k, s, x)
    requires |InFlight(Apply(maxQPS, s, step).stages)| <= k && (step.Clock? ==> step.now == x)
    ensures AfterReset(maxQPS, k, Apply(maxQPS, s, step), x)
    ensures Apply(maxQPS, s, step).resetTime == s.resetTime
  {
    var s', id := Apply(maxQPS, s, step), step.id;
    SizesChange(maxQPS, s, step, x);
    SeatsTaken(k, s, x);
    if id in s.stages {
      assert StageFits(s, s.stages[id]);
    }
    TimesNext(|PendingStores(s.stages)| - 1, maxQPS);
    assert |PendingStores(s.stages)| == k && id in s.stages && !s.stages[id].Done? ==> id in InFlight(s.stages);
  }

  lemma NoneSure(s: State, id: nat, x: int)
    requires NotYet(s, x) && forall i :: i in s.stages ==> StageFits(s, s.stages[i])
    ensures Sure(s.(stages := s.stages[id := Clocked(x)]), x) == {}
  {
    forall i | i in s.stages && i != id ensures !Certain(s, s.stages[i], x) {
      assert StageFits(s, s.stages[i]);
    }
  }

  // The check that reads x takes one of the k places.
  lemma PlacesLeft(k: nat, s: State, id: nat, x: int)
    requires id in s.stages && s.stages[id] == Clocked(x) && |InFlight(s.stages)| <= k
    ensures |Unswapped(s, x)| <= |Storers(s, x)| <= k - 1 && |PendingStores(s.stages)| <= k - 1
  {
    SeatsTaken(k, s, x);
    SubsetSize({id}, Current(s, x));
    SubsetSize(Unswapped(s, x), Storers(s, x));
    assert id in InFlight(s.stages) && id !in PendingStores(s.stages);
  }

  lemma NothingAdmittedYet(maxQPS: int, k: nat, s: State, x: int)
    requires maxQPS > 0 && s.perSecond[x] == 0 && Sure(s, x) == {}
    requires |Unswapped(s, x)| <= |Storers(s, x)| <= k - 1 && |PendingStores(s.stages)| <= k - 1
    ensures BeforeReset(maxQPS, k, s, x) && AfterReset(maxQPS, k, s, x)
  {
    var pending, storers := |PendingStores(s.stages)|, |Storers(s, x)|;
    TimesNotNegative(k - 1 - pending, maxQPS);
    if storers < k - 1 {
      TimesNotNegative(k - 2 - storers, maxQPS);
    }
    assert k * maxQPS - maxQPS - pending * maxQPS == (k - 1 - pending) * maxQPS;
  }

  /** The first reading of second x. */
  lemma SecondBegins(maxQPS: int, k: nat, s: State, id: nat, x: int)
    requires maxQPS > 0 && PeakInv(maxQPS, k, s, x) && NotYet(s, x) && id !in s.stages
    requires |InFlight(Apply(maxQPS, s, Clock(id, x)).stages)| <= k
    ensures PeakInv(maxQPS, k, Apply(maxQPS, s, Clock(id, x)), x)
  {
    var s' := Apply(maxQPS, s, Clock(id, x));
    BasicStep(maxQPS, k, s, Clock(id, x));
    NoneSure(s, id, x);
    assert Sure(s', x) == Sure(s.(stages := s.stages[id := Clocked(x)]), x);
    PlacesLeft(k, s', id, x);
    NothingAdmittedYet(maxQPS, k, s', x);
  }

  /** The first reading of a later second: what is left of second x are checks in flight. */
  lemma SecondEnds(maxQPS: int, k: nat, s: State, id: nat, now: int, x: int)
    requires maxQPS > 0 && PeakInv(maxQPS, k, s, x) && (NotYet(s, x) || Now(s, x)) && id !in s.stages && x < now
    requires |InFlight(Apply(maxQPS, s, Clock(id, now)).stages)| <= k
    ensures PeakInv(maxQPS, k, Apply(maxQPS, s, Clock(id, now)), x)
  {
    var s' := Apply(maxQPS, s, Clock(id, now));
    BasicStep(maxQPS, k, s, Clock(id, now));
    SeatsTaken(k, s', x);
    assert id in InFlight(s'.stages) && id !in Current(s', x) && id !in PendingStores(s'.stages);
    SubsetSize(Current(s', x) + {id}, InFlight(s'.stages));
    SizesChange(maxQPS, s, Clock(id, now), x);
    TimesNotNegative(k, maxQPS);
    if Now(s, x) {
      WithinTime(maxQPS, k, s, x);
    }
  }

  lemma WithinTime(maxQPS: int, k: nat, s: State, x: int)
    requires maxQPS > 0 && k > 0 && Basic(maxQPS, k, s)
    requires if s.resetTime < x then BeforeReset(maxQPS, k, s, x) else AfterReset(maxQPS, k, s, x)
    ensures s.perSecond[x] <= PeakInTime(maxQPS, k)
  {
    var pending, storers := |PendingStores(s.stages)|, |Storers(s, x)|;
    TimesNotNegative(k, maxQPS);
    TimesNotNegative(k - 1, maxQPS);
    TimesNotNegative(pending, maxQPS);
    if s.resetTime < x && storers < k - 1 {
      TimesNotNegative(storers + 1, maxQPS);
      assert (k - 2 - storers) * maxQPS + maxQPS == k * maxQPS - (storers + 1) * maxQPS;
    }
    assert (k - 1) * maxQPS + maxQPS == k * maxQPS;
  }

  lemma StepInSecond(maxQPS: int, k: nat, s: State, step: Step, x: int)
    requires maxQPS > 0 && PeakInv(maxQPS, k, s, x) && Now(s, x) && (step.Clock? ==> step.now == x)
    requires |InFlight(Apply(maxQPS, s, step).stages)| <= k
    ensures PeakInv(maxQPS, k, Apply(maxQPS, s, step), x)
  {
    BasicStep(maxQPS, k, s, step);
    if x <= s.resetTime {
      StepAfterReset(maxQPS, k, s, step, x);
    } else {
      match step
      case Clock(id, _) => ClockInSecond(maxQPS, k, s, id, x);
      case Load(_) => LookBeforeReset(maxQPS, k, s, step, x);
      case Store(id) => StoreBeforeReset(maxQPS, k, s, id, x);
      case Add(id) => AddBeforeReset(maxQPS, k, s, id, x);
      case Swap(id) =>
        if id in s.stages && s.stages[id].Loaded? && s.stages[id].last == s.resetTime {
          assert StageFits(s, s.stages[id]);
          if s.stages[id].now < x {
            OldSwap(maxQPS, k, s, id, x);
          } else {
            OwnSwap(maxQPS, k, s, id, x);
          }
        } else {
          LookBeforeReset(maxQPS, k, s, step, x);
        }
    }
  }

  lemma StepKeepsPeak(maxQPS: int, k: nat, s: State, step: Step, x: int)
    requires maxQPS > 0 && PeakInv(maxQPS, k, s, x) && InOrder(s, step)
    requires |InFlight(Apply(maxQPS, s, step).stages)| <= k
    ensures PeakInv(maxQPS, k, Apply(maxQPS, s, step), x)
  {
    BasicStep(maxQPS, k, s, step);
    if Apply(maxQPS, s, step) == s {
    } else if step.Clock? && x < step.now && (NotYet(s, x) || Now(s, x)) {
      SecondEnds(maxQPS, k, s, step.id, step.now, x);
    } else if step.Clock? && step.now == x && NotYet(s, x) {
      SecondBegins(maxQPS, k, s, step.id, x);
    } else if Now(s, x) {
      StepInSecond(maxQPS, k, s, step, x);
    } else {
      SizesChange(maxQPS, s, step, x);
      if step.id in s.stages {
        assert StageFits(s, s.stages[step.id]);
      }
    }
  }

  lemma {:induction false} RunKeepsPeak(maxQPS: int, k: nat, s: State, steps: seq<Step>, x: int)
    requires maxQPS > 0 && PeakInv(maxQPS, k, s, x) && Paced(maxQPS, k, s, steps)
    ensures PeakInv(maxQPS, k, Run(maxQPS, s, steps), x)
    decreases |steps|
  {
    if steps != [] {
      assert Paced(maxQPS, k, Apply(maxQPS, s, steps[0]), steps[1..]);
      StepKeepsPeak(maxQPS, k, s, steps[0], x);
      RunKeepsPeak(maxQPS, k, Apply(maxQPS, s, steps[0]), steps[1..], x);
    }
  }

  lemma RunBelowPeak(maxQPS: int, k: nat, counter: nat, resetTime: int, steps: seq<Step>, x: int)
    requires maxQPS > 0 && k > 0 && Paced(maxQPS, k, Initial(counter, resetTime), steps)
    ensures PeakInv(maxQPS, k, Run(maxQPS, Initial(counter, resetTime), steps), x)
  {
    RunKeepsPeak(maxQPS, k, Initial(counter, resetTime), steps, x);
  }

  lemma InvBelowPeak(maxQPS: int, k: nat, s: State, x: int)
    requires maxQPS > 0 && k > 0 && PeakInv(maxQPS, k, s, x)
    ensures s.perSecond[x] <= Peak(maxQPS, k)
  {
    PeakIs(maxQPS, k);
    TimesNotNegative(k, maxQPS);
    if Now(s, x) {
      WithinTime(maxQPS, k, s, x);
    }
  }

  /** In every run with at most k checks in flight and a clock that does not go back, no second
      admits more than n. */
  ghost predicate EverySecondWithin(maxQPS: int, k: nat, n: int) {
    forall counter: nat, resetTime, steps, x ::
      Paced(maxQPS, k, Initial(counter, resetTime), steps)
      ==> Run(maxQPS, Initial(counter, resetTime), steps).perSecond[x] <= n
  }

  /** No second of any run admits more than k times the limit, the smaller of limit and k - 1, and
      k - 1. */
  lemma NoSecondAbovePeak(maxQPS: int, k: nat)
    requires maxQPS > 0 && k > 0
    ensures EverySecondWithin(maxQPS, k, Peak(maxQPS, k))
  {
    forall counter: nat, resetTime, steps, x | Paced(maxQPS, k, Initial(counter, resetTime), steps)
      ensures Run(maxQPS, Initial(counter, resetTime), steps).perSecond[x] <= Peak(maxQPS, k)
    {
      RunBelowPeak(maxQPS, k, counter, resetTime, steps, x);
      InvBelowPeak(maxQPS, k, Run(maxQPS, Initial(counter, resetTime), steps), x);
    }
  }

  // ---------- A run that gets there ----------

  predicate IsId(lo: nat, id: nat, hi: nat) { lo <= id < hi }

  /** Ids lo, lo + 1, .., hi - 1. */
  function Ids(lo: nat, hi: nat): set<nat> {
    set id: nat | lo <= id < hi && IsId(lo, id, hi)
  }

  lemma {:induction false} IdsCount(lo: nat, hi: nat)
    requires lo <= hi
    ensures |Ids(lo, hi)| == hi - lo
    decreases hi
  {
    if lo < hi {
      IdsCount(lo, hi - 1);
      assert Ids(lo, hi) == Ids(lo, hi - 1) + {(hi - 1) as nat};
    } else {
      assert Ids(lo, hi) == {};
    }
  }

  lemma IdsGrow(lo: nat, hi: nat)
    requires lo <= hi
    ensures hi !in Ids(lo, hi) && Ids(lo, hi) + {hi} == Ids(lo, hi + 1)
    ensures Ids(lo, hi) - {hi} + {hi} == Ids(lo, hi + 1) && Ids(lo, hi + 1) - {hi} + {hi} == Ids(lo, hi + 1)
  {
  }

  lemma IdsShrink(lo: nat, hi: nat)
    requires lo < hi
    ensures lo in Ids(lo, hi) && Ids(lo, hi) - {lo} == Ids(lo + 1, hi)
  {
  }

  /** Some paced run leads from s to s'. */
  ghost predicate Reaches(maxQPS: int, k: nat, s: State, s': State) {
    exists steps :: Leads(maxQPS, k, s, steps, s')
  }

  lemma ReachesOn(maxQPS: int, k: nat, s: State, s': State, s'': State)
    requires Reaches(maxQPS, k, s, s') && Reaches(maxQPS, k, s', s'')
    ensures Reaches(maxQPS, k, s, s'')
  {
    var a :| Leads(maxQPS, k, s, a, s');
    var b :| Leads(maxQPS, k, s', b, s'');
    LeadsOn(maxQPS, k, s, a, s', b, s'');
  }

  lemma ReachesThree(maxQPS: int, k: nat, s: State, x: Step, s1: State, y: Step, s2: State, z: Step, s3: State)
    requires |InFlight(s.stages)| <= k
    requires StepsTo(maxQPS, k, s, x, s1) && StepsTo(maxQPS, k, s1, y, s2) && StepsTo(maxQPS, k, s2, z, s3)
    ensures Reaches(maxQPS, k, s, s3)
  {
    LeadsByThree(maxQPS, k, s, x, s1, y, s2, z, s3);
  }

  /** What a step that takes check id to `stage` does to the checks in flight. */
  ghost predicate Moves(s: State, s': State, id: nat, stage: Stage) {
    && s'.stages == s.stages[id := stage]
    && InFlight(s'.stages) == InFlight(s.stages) - {id} + if stage.Done? then {} else {id}
  }

  lemma ClockOne(maxQPS: int, k: nat, s: State, id: nat, now: int) returns (s': State)
    requires Fresh(s, id, now) && |InFlight(s.stages)| < k
    ensures Reaches(maxQPS, k, s, s') && Moves(s, s', id, Clocked(now))
    ensures s' == s.(stages := s'.stages, seen := s.seen + {now}) && Fresh(s', id + 1, now)
  {
    s' := Apply(maxQPS, s, Clock(id, now));
    FlightAfter(s.stages, id, Clocked(now));
    LeadsByOne(maxQPS, k, s, Clock(id, now));
  }

  /** A load that finds the second already counted. */
  lemma LoadOne(maxQPS: int, k: nat, s: State, id: nat, now: int) returns (s': State)
    requires id in s.stages && s.stages[id] == Clocked(now) && now <= s.resetTime && |InFlight(s.stages)| <= k
    ensures Reaches(maxQPS, k, s, s') && Moves(s, s', id, ToAdd(now)) && s' == s.(stages := s'.stages)
  {
    s' := Apply(maxQPS, s, Load(id));
    FlightAfter(s.stages, id, ToAdd(now));
    assert InFlight(s'.stages) == InFlight(s.stages);
    LeadsByOne(maxQPS, k, s, Load(id));
  }

  lemma StoreOne(maxQPS: int, k: nat, s: State, id: nat, now: int) returns (s': State)
    requires id in s.stages && s.stages[id] == ToStore(now) && |InFlight(s.stages)| <= k
    ensures Reaches(maxQPS, k, s, s') && Moves(s, s', id, ToAdd(now))
    ensures s'.counter == 0 && s'.resetTime == s.resetTime && s'.seen == s.seen && s'.perSecond == s.perSecond
  {
    s' := Apply(maxQPS, s, Store(id));
    FlightAfter(s.stages, id, ToAdd(now));
    assert InFlight(s'.stages) == InFlight(s.stages);
    LeadsByOne(maxQPS, k, s, Store(id));
  }

  lemma AddFlight(stages: map<nat, Stage>, id: nat, current: int)
    ensures InFlight(stages[id := Done(current)]) == InFlight(stages) - {id}
    ensures |InFlight(stages[id := Done(current)])| <= |InFlight(stages)|
  {
    FlightAfter(stages, id, Done(current));
    SubsetSize(InFlight(stages[id := Done(current)]), InFlight(stages));
  }

  lemma AddOne(maxQPS: int, k: nat, s: State, id: nat, now: int) returns (s': State)
    requires id in s.stages && s.stages[id] == ToAdd(now) && |InFlight(s.stages)| <= k
    ensures Reaches(maxQPS, k, s, s') && Moves(s, s', id, Done(s.counter + 1))
    ensures s'.counter == s.counter + 1 && s'.resetTime == s.resetTime && s'.seen == s.seen
    ensures s'.perSecond == s.perSecond + if s.counter + 1 <= maxQPS then multiset{now} else multiset{}
  {
    s' := Apply(maxQPS, s, Add(id));
    AddFlight(s.stages, id, s.counter + 1);
    LeadsByOne(maxQPS, k, s, Add(id));
  }

  lemma SwappedMoves(k: nat, s: State, id: nat, now: int)
    requires Fresh(s, id, now) && |InFlight(s.stages)| < k
    ensures Moves(s, Swapped(s, id, now), id, ToStore(now)) && InFlight(s.stages) - {id} == InFlight(s.stages)
    ensures |InFlight(Swapped(s, id, now).stages)| == |InFlight(s.stages)| + 1
  {
    FlightAfter(s.stages, id, ToStore(now));
    assert id !in InFlight(s.stages);
  }

  /** The first check of a new second, up to its store. */
  lemma ResetOne(maxQPS: int, k: nat, s: State, id: nat, now: int) returns (s': State)
    requires Fresh(s, id, now) && s.resetTime < now && |InFlight(s.stages)| < k
    ensures Reaches(maxQPS, k, s, s') && Moves(s, s', id, ToAdd(now)) && Fresh(s', id + 1, now)
    ensures s'.counter == 0 && s'.resetTime == now && s'.perSecond == s.perSecond
    ensures |InFlight(s'.stages)| == |InFlight(s.stages)| + 1
  {
    var a := SwapFirst(maxQPS, k, s, id, now);
    var s1 := Swapped(s, id, now);
    SwappedMoves(k, s, id, now);
    s' := StoreOne(maxQPS, k, s1, id, now);
    ReachesOn(maxQPS, k, s, s1, s');
    assert s1.stages[id := ToAdd(now)] == s.stages[id := ToAdd(now)];
  }

  lemma ServeSome(maxQPS: int, k: nat, s: State, base: nat, now: int, m: nat) returns (s': State)
    requires Fresh(s, base, now) && now <= s.resetTime && |InFlight(s.stages)| < k && s.counter + m <= maxQPS
    ensures Reaches(maxQPS, k, s, s') && ServedMany(s, s', base, now, m)
  {
    var steps;
    steps, s' := ServeMany(maxQPS, k, s, base, now, m);
  }

  /** Check j has read second j, for j up to i. */
  ghost predicate Seated(s: State, i: nat) {
    && s.counter == 0 && s.resetTime == 0 && s.perSecond == multiset{} && InFlight(s.stages) == Ids(1, i + 1)
    && Fresh(s, i + 1, i) && forall j: nat :: 1 <= j <= i ==> j in s.stages && s.stages[j] == Clocked(j)
  }

  lemma SeatNext(maxQPS: int, k: nat, s: State, i: nat) returns (s': State)
    requires Seated(s, i) && i + 1 < k
    ensures Reaches(maxQPS, k, s, s') && Seated(s', i + 1)
  {
    IdsCount(1, i + 1);
    IdsGrow(1, i + 1);
    s' := ClockOne(maxQPS, k, s, i + 1, i + 1);
  }

  lemma {:induction false} SeatLate(maxQPS: int, k: nat, i: nat) returns (s: State)
    requires i < k
    ensures Reaches(maxQPS, k, Initial(0, 0), s) && Seated(s, i)
  {
    if i == 0 {
      s := Initial(0, 0);
      assert InFlight(s.stages) == {} == Ids(1, 1);
      assert Leads(maxQPS, k, s, [], s);
    } else {
      var s0 := SeatLate(maxQPS, k, i - 1);
      s := SeatNext(maxQPS, k, s0, i - 1);
      ReachesOn(maxQPS, k, Initial(0, 0), s0, s);
    }
  }

  /** Checks 1 to i have swapped, each just before a check of second k was to, which was so admitted. */
  ghost predicate Raced(maxQPS: int, k: nat, s: State, i: nat, base: nat) {
    && s.counter == i < k <= base && s.resetTime == i && s.perSecond[k] == Smaller(maxQPS, i)
    && Fresh(s, base, k) && InFlight(s.stages) == Ids(1, k)
    && forall j: nat :: 1 <= j < k ==> j in s.stages && s.stages[j] == if j <= i then ToStore(j) else Clocked(j)
  }

  function RaceLoaded(s: State, i: nat, g: nat, k: nat): State {
    s.(stages := s.stages[i + 1 := Loaded(i + 1, i)][g := Loaded(k, i)], seen := s.seen + {k as int})
  }

  function RaceLost(s: State, i: nat, g: nat, k: nat, stage: Stage): State {
    s.(stages := s.stages[i + 1 := ToStore(i + 1)][g := stage], seen := s.seen + {k as int},
       resetTime := i + 1, resetSeconds := s.resetSeconds + {(i + 1) as int})
  }

  function RaceWon(maxQPS: int, s: State, i: nat, g: nat, k: nat): State {
    var one := if i + 1 <= maxQPS then 1 else 0;
    State(i + 1, i + 1, s.stages[i + 1 := ToStore(i + 1)][g := Done(i + 1)], s.seen + {k as int},
          s.resetSeconds + {(i + 1) as int}, s.stores, s.sinceStore + one, s.admitted + one,
          s.perSecond + if one == 1 then multiset{k as int} else multiset{})
  }

  lemma SeatsInRace(stages: map<nat, Stage>, k: nat, g: nat, stage: Stage)
    requires InFlight(stages) == Ids(1, k) && 1 <= k <= g
    ensures InFlight(stages[g := stage]) == Ids(1, k) + if stage.Done? then {} else {g}
    ensures |InFlight(stages)| == k - 1 && |InFlight(stages[g := stage])| <= k
  {
    IdsCount(1, k);
    FlightAfter(stages, g, stage);
  }

  lemma SameSeats(stages: map<nat, Stage>, k: nat, j: nat, stage: Stage)
    requires InFlight(stages) == Ids(1, k) && 1 <= j < k && !stage.Done?
    ensures InFlight(stages[j := stage]) == Ids(1, k)
  {
  }

  lemma RaceFlight(maxQPS: int, k: nat, s: State, i: nat, g: nat, stage: Stage)
    requires Raced(maxQPS, k, s, i, g) && i + 1 < k
    ensures |InFlight(s.stages[i + 1 := ToStore(i + 1)][g := stage])| <= k
    ensures |InFlight(s.stages[i + 1 := Loaded(i + 1, i)][g := stage])| <= k
    ensures |InFlight(s.stages[i + 1 := Loaded(i + 1, i)])| <= k && |InFlight(s.stages)| <= k
  {
    SameSeats(s.stages, k, i + 1, Loaded(i + 1, i));
    SameSeats(s.stages, k, i + 1, ToStore(i + 1));
    SeatsInRace(s.stages[i + 1 := Loaded(i + 1, i)], k, g, stage);
    SeatsInRace(s.stages[i + 1 := ToStore(i + 1)], k, g, stage);
  }

  lemma RaceLoads(maxQPS: int, k: nat, s: State, i: nat, g: nat)
    requires Raced(maxQPS, k, s, i, g) && i + 1 < k
    ensures Reaches(maxQPS, k, s, RaceLoaded(s, i, g, k))
  {
    var stages := s.stages[i + 1 := Loaded(i + 1, i)];
    var s1, s3 := s.(stages := stages), RaceLoaded(s, i, g, k);
    var s2 := s.(stages := stages[g := Clocked(k)], seen := s.seen + {k as int});
    RaceFlight(maxQPS, k, s, i, g, Clocked(k));
    RaceFlight(maxQPS, k, s, i, g, Loaded(k, i));
    assert StepsTo(maxQPS, k, s, Load(i + 1), s1);
    assert StepsTo(maxQPS, k, s1, Clock(g, k), s2);
    assert StepsTo(maxQPS, k, s2, Load(g), s3) by {
      assert s2.stages[g := Loaded(k, i)] == s3.stages;
    }
    ReachesThree(maxQPS, k, s, Load(i + 1), s1, Clock(g, k), s2, Load(g), s3);
  }

  lemma OldSwaps(maxQPS: int, k: nat, s: State, i: nat, g: nat)
    requires Raced(maxQPS, k, s, i, g) && i + 1 < k
    ensures StepsTo(maxQPS, k, RaceLoaded(s, i, g, k), Swap(i + 1), RaceLost(s, i, g, k, Loaded(k, i)))
  {
    RaceFlight(maxQPS, k, s, i, g, Loaded(k, i));
    assert RaceLoaded(s, i, g, k).stages[i + 1 := ToStore(i + 1)] == RaceLost(s, i, g, k, Loaded(k, i)).stages;
  }

  lemma NewSwapFails(maxQPS: int, k: nat, s: State, i: nat, g: nat)
    requires Raced(maxQPS, k, s, i, g) && i + 1 < k
    ensures StepsTo(maxQPS, k, RaceLost(s, i, g, k, Loaded(k, i)), Swap(g), RaceLost(s, i, g, k, ToAdd(k)))
  {
    RaceFlight(maxQPS, k, s, i, g, ToAdd(k));
    assert RaceLost(s, i, g, k, Loaded(k, i)).stages[g := ToAdd(k)] == RaceLost(s, i, g, k, ToAdd(k)).stages;
  }

  lemma NewAdds(maxQPS: int, k: nat, s: State, i: nat, g: nat)
    requires Raced(maxQPS, k, s, i, g) && i + 1 < k
    ensures StepsTo(maxQPS, k, RaceLost(s, i, g, k, ToAdd(k)), Add(g), RaceWon(maxQPS, s, i, g, k))
  {
    RaceFlight(maxQPS, k, s, i, g, Done(i + 1));
    assert RaceLost(s, i, g, k, ToAdd(k)).stages[g := Done(i + 1)] == RaceWon(maxQPS, s, i, g, k).stages;
  }

  lemma RaceSwaps(maxQPS: int, k: nat, s: State, i: nat, g: nat)
    requires Raced(maxQPS, k, s, i, g) && i + 1 < k
    ensures Reaches(maxQPS, k, RaceLoaded(s, i, g, k), RaceWon(maxQPS, s, i, g, k))
  {
    RaceFlight(maxQPS, k, s, i, g, Loaded(k, i));
    OldSwaps(maxQPS, k, s, i, g);
    NewSwapFails(maxQPS, k, s, i, g);
    NewAdds(maxQPS, k, s, i, g);
    ReachesThree(maxQPS, k, RaceLoaded(s, i, g, k), Swap(i + 1), RaceLost(s, i, g, k, Loaded(k, i)), Swap(g),
                 RaceLost(s, i, g, k, ToAdd(k)), Add(g), RaceWon(maxQPS, s, i, g, k));
  }

  lemma RaceKeeps(maxQPS: int, k: nat, s: State, i: nat, g: nat)
    requires Raced(maxQPS, k, s, i, g) && i + 1 < k
    ensures Raced(maxQPS, k, RaceWon(maxQPS, s, i, g, k), i + 1, g + 1)
  {
    SameSeats(s.stages, k, i + 1, ToStore(i + 1));
    SeatsInRace(s.stages[i + 1 := ToStore(i + 1)], k, g, Done(i + 1));
  }

  lemma RaceNext(maxQPS: int, k: nat, s: State, i: nat, g: nat) returns (s': State)
    requires Raced(maxQPS, k, s, i, g) && i + 1 < k
    ensures Reaches(maxQPS, k, s, s') && Raced(maxQPS, k, s', i + 1, g + 1)
  {
    s' := RaceWon(maxQPS, s, i, g, k);
    RaceKeeps(maxQPS, k, s, i, g);
    assert Reaches(maxQPS, k, s, s') by {
      RaceLoads(maxQPS, k, s, i, g);
      RaceSwaps(maxQPS, k, s, i, g);
      ReachesOn(maxQPS, k, s, RaceLoaded(s, i, g, k), s');
    }
  }

  lemma {:induction false} RaceLate(maxQPS: int, k: nat, i: nat) returns (s: State, base: nat)
    requires i < k && maxQPS > 0
    ensures Reaches(maxQPS, k, Initial(0, 0), s) && Raced(maxQPS, k, s, i, base)
  {
    if i == 0 {
      s := SeatLate(maxQPS, k, k - 1);
      base := k;
    } else {
      var s0, g := RaceLate(maxQPS, k, i - 1);
      s := RaceNext(maxQPS, k, s0, i - 1, g);
      base := g + 1;
      ReachesOn(maxQPS, k, Initial(0, 0), s0, s);
    }
  }

  /** Checks lo to k - 1 have swapped and not stored. */
  predicate Pend(s: State, lo: nat, k: nat) {
    forall j: nat :: lo <= j < k ==> j in s.stages && s.stages[j] == ToStore(j)
  }

  /** Second k has been reset, checks 1 to lo - 1 have stored late, n checks were admitted since the
      last store and a in all. */
  ghost predicate Counting(k: nat, s: State, lo: nat, base: nat, n: nat, a: int) {
    && 0 < lo <= k <= base && s.counter == n && s.resetTime == k && Fresh(s, base, k)
    && Pend(s, lo, k) && s.perSecond[k] == a
  }

  lemma StartResets(maxQPS: int, k: nat, s: State, base: nat) returns (s': State)
    requires maxQPS > 0 && 0 < k && Raced(maxQPS, k, s, k - 1, base)
    ensures Reaches(maxQPS, k, s, s') && InFlight(s'.stages) == Ids(1, k) + {base} && base !in Ids(1, k)
    ensures Counting(k, s', 1, base + 1, 0, Smaller(maxQPS, k - 1)) && |InFlight(s'.stages)| <= k
    ensures base in s'.stages && s'.stages[base] == ToAdd(k)
  {
    IdsCount(1, k);
    assert base !in Ids(1, k);
    s' := ResetOne(maxQPS, k, s, base, k);
  }

  lemma StartAdds(maxQPS: int, k: nat, s: State, base: nat, a: int) returns (s': State)
    requires maxQPS > 0 && k <= base && Counting(k, s, 1, base + 1, 0, a) && |InFlight(s.stages)| <= k
    requires InFlight(s.stages) == Ids(1, k) + {base} && base !in Ids(1, k)
    requires base in s.stages && s.stages[base] == ToAdd(k)
    ensures Reaches(maxQPS, k, s, s') && InFlight(s'.stages) == Ids(1, k)
    ensures Counting(k, s', 1, base + 1, 1, a + 1)
  {
    s' := AddOne(maxQPS, k, s, base, k);
  }

  /** Second k is reset, and the limit used up. */
  lemma StartSecond(maxQPS: int, k: nat, s: State, base: nat) returns (s': State, base': nat)
    requires maxQPS > 0 && 0 < k && Raced(maxQPS, k, s, k - 1, base)
    ensures Reaches(maxQPS, k, s, s') && InFlight(s'.stages) == Ids(1, k)
    ensures Counting(k, s', 1, base', maxQPS, Smaller(maxQPS, k - 1) + maxQPS)
  {
    IdsCount(1, k);
    var s1 := StartResets(maxQPS, k, s, base);
    var s2 := StartAdds(maxQPS, k, s1, base, Smaller(maxQPS, k - 1));
    s' := CountMore(maxQPS, k, s2, 1, base + 1, 1, Smaller(maxQPS, k - 1) + 1);
    base' := base + 1 + (maxQPS - 1);
    ReachesOn(maxQPS, k, s, s1, s2);
    ReachesOn(maxQPS, k, s, s2, s');
  }

  lemma CountMore(maxQPS: int, k: nat, s: State, lo: nat, base: nat, n: nat, a: int) returns (s': State)
    requires maxQPS > 0 && Counting(k, s, lo, base, n, a) && n <= maxQPS && |InFlight(s.stages)| < k
    ensures Reaches(maxQPS, k, s, s') && InFlight(s'.stages) == InFlight(s.stages)
    ensures Counting(k, s', lo, base + (maxQPS - n), maxQPS, a + (maxQPS - n))
    ensures forall j: nat :: j < base && j in s.stages ==> j in s'.stages && s'.stages[j] == s.stages[j]
  {
    s' := ServeSome(maxQPS, k, s, base, k, maxQPS - n);
  }

  lemma LateStore(maxQPS: int, k: nat, s: State, lo: nat, base: nat, n: nat, a: int) returns (s': State)
    requires Counting(k, s, lo, base, n, a) && lo < k && InFlight(s.stages) == Ids(lo, k)
    ensures Reaches(maxQPS, k, s, s') && InFlight(s'.stages) == Ids(lo, k)
    ensures Counting(k, s', lo + 1, base, 0, a) && lo in s'.stages && s'.stages[lo] == ToAdd(lo)
  {
    IdsCount(lo, k);
    IdsShrink(lo, k);
    s' := StoreOne(maxQPS, k, s, lo, lo);
  }

  lemma LateAdd(maxQPS: int, k: nat, s: State, lo: nat, base: nat, a: int) returns (s': State)
    requires maxQPS > 0 && Counting(k, s, lo + 1, base, maxQPS, a) && InFlight(s.stages) == Ids(lo, k)
    requires lo in s.stages && s.stages[lo] == ToAdd(lo) && 0 < lo
    ensures Reaches(maxQPS, k, s, s') && InFlight(s'.stages) == Ids(lo + 1, k)
    ensures Counting(k, s', lo + 1, base, maxQPS + 1, a)
  {
    IdsCount(lo, k);
    IdsShrink(lo, k);
    s' := AddOne(maxQPS, k, s, lo, lo);
  }

  /** Check lo stores late, the limit is used up once more, and check lo adds in vain. */
  lemma DrainNext(maxQPS: int, k: nat, s: State, lo: nat, base: nat, n: nat, a: int) returns (s': State)
    requires maxQPS > 0 && Counting(k, s, lo, base, n, a) && lo < k && InFlight(s.stages) == Ids(lo, k)
    ensures Reaches(maxQPS, k, s, s') && InFlight(s'.stages) == Ids(lo + 1, k)
    ensures Counting(k, s', lo + 1, base + maxQPS, maxQPS + 1, a + maxQPS)
  {
    IdsCount(lo, k);
    var s1 := LateStore(maxQPS, k, s, lo, base, n, a);
    var s2 := CountMore(maxQPS, k, s1, lo + 1, base, 0, a);
    s' := LateAdd(maxQPS, k, s2, lo, base + maxQPS, a + maxQPS);
    ReachesOn(maxQPS, k, s, s1, s2);
    ReachesOn(maxQPS, k, s, s2, s');
  }

  lemma {:induction false} DrainLate(maxQPS: int, k: nat, lo: nat) returns (s: State, base: nat, n: nat)
    requires 0 < lo <= k && maxQPS > 0
    ensures Reaches(maxQPS, k, Initial(0, 0), s) && InFlight(s.stages) == Ids(lo, k)
    ensures Counting(k, s, lo, base, n, Smaller(maxQPS, k - 1) + lo * maxQPS)
  {
    if lo == 1 {
      var s0, free := RaceLate(maxQPS, k, k - 1);
      s, base := StartSecond(maxQPS, k, s0, free);
      n := maxQPS;
      ReachesOn(maxQPS, k, Initial(0, 0), s0, s);
    } else {
      var s0, free, n0 := DrainLate(maxQPS, k, lo - 1);
      s := DrainNext(maxQPS, k, s0, lo - 1, free, n0, Smaller(maxQPS, k - 1) + (lo - 1) * maxQPS);
      base, n := free + maxQPS, maxQPS + 1;
      ReachesOn(maxQPS, k, Initial(0, 0), s0, s);
      TimesNext(lo - 1, maxQPS);
    }
  }

  /** Checks lo to hi - 1 of second k are about to add. */
  predicate Park(s: State, k: nat, lo: nat, hi: nat) {
    forall j: nat :: lo <= j < hi ==> j in s.stages && s.stages[j] == ToAdd(k)
  }

  /** They are the checks in flight, ids from `base` on are free, and a were admitted in second k. */
  ghost predicate Parked(k: nat, s: State, lo: nat, hi: nat, base: nat, a: int) {
    && lo <= hi <= base && k <= s.resetTime && Fresh(s, base, s.resetTime) && InFlight(s.stages) == Ids(lo, hi)
    && s.perSecond[k] == a && Park(s, k, lo, hi)
  }

  lemma ParkClocks(maxQPS: int, k: nat, s: State, lo: nat, hi: nat, a: int) returns (s': State)
    requires Parked(k, s, lo, hi, hi, a) && s.resetTime == k && hi - lo < k
    ensures Reaches(maxQPS, k, s, s') && InFlight(s'.stages) == Ids(lo, hi + 1) && |InFlight(s'.stages)| <= k
    ensures s'.resetTime == k && Fresh(s', hi + 1, k) && s'.perSecond[k] == a
    ensures Park(s', k, lo, hi) && hi in s'.stages && s'.stages[hi] == Clocked(k)
  {
    IdsCount(lo, hi);
    IdsCount(lo, hi + 1);
    IdsGrow(lo, hi);
    s' := ClockOne(maxQPS, k, s, hi, k);
  }

  lemma ParkLoads(maxQPS: int, k: nat, s: State, lo: nat, hi: nat, a: int) returns (s': State)
    requires lo <= hi && InFlight(s.stages) == Ids(lo, hi + 1) && |InFlight(s.stages)| <= k
    requires s.resetTime == k && Fresh(s, hi + 1, k) && s.perSecond[k] == a
    requires Park(s, k, lo, hi) && hi in s.stages && s.stages[hi] == Clocked(k)
    ensures Reaches(maxQPS, k, s, s') && Parked(k, s', lo, hi + 1, hi + 1, a) && s'.resetTime == k
  {
    IdsGrow(lo, hi);
    s' := LoadOne(maxQPS, k, s, hi, k);
  }

  lemma ParkNext(maxQPS: int, k: nat, s: State, lo: nat, hi: nat, a: int) returns (s': State)
    requires Parked(k, s, lo, hi, hi, a) && s.resetTime == k && hi - lo < k
    ensures Reaches(maxQPS, k, s, s') && Parked(k, s', lo, hi + 1, hi + 1, a) && s'.resetTime == k
  {
    var s1 := ParkClocks(maxQPS, k, s, lo, hi, a);
    s' := ParkLoads(maxQPS, k, s1, lo, hi, a);
    ReachesOn(maxQPS, k, s, s1, s');
  }

  lemma {:induction false} ParkChecks(maxQPS: int, k: nat, n: nat) returns (s: State, lo: nat)
    requires n < k && maxQPS > 0
    ensures Reaches(maxQPS, k, Initial(0, 0), s) && s.resetTime == k
    ensures Parked(k, s, lo, lo + n, lo + n, PeakInTime(maxQPS, k))
  {
    if n == 0 {
      var m;
      s, lo, m := DrainLate(maxQPS, k, k);
      assert Ids(k, k) == {} == Ids(lo, lo);
    } else {
      var s0;
      s0, lo := ParkChecks(maxQPS, k, n - 1);
      s := ParkNext(maxQPS, k, s0, lo, lo + (n - 1), PeakInTime(maxQPS, k));
      ReachesOn(maxQPS, k, Initial(0, 0), s0, s);
    }
  }

  /** A later second is reset, by check `base`, and lets check lo through. */
  lemma LetNext(maxQPS: int, k: nat, s: State, lo: nat, hi: nat, base: nat, a: int) returns (s': State)
    requires maxQPS > 0 && Parked(k, s, lo, hi, base, a) && lo < hi && hi - lo < k
    ensures Reaches(maxQPS, k, s, s') && InFlight(s'.stages) == Ids(lo + 1, hi) + {base}
    ensures k < s'.resetTime && Fresh(s', base + 1, s'.resetTime) && s'.perSecond[k] == a + 1
    ensures Park(s', k, lo + 1, hi) && base in s'.stages && s'.stages[base] == ToAdd(s'.resetTime)
  {
    IdsCount(lo, hi);
    IdsShrink(lo, hi);
    assert base !in Ids(lo, hi);
    var s1 := ResetOne(maxQPS, k, s, base, s.resetTime + 1);
    s' := AddOne(maxQPS, k, s1, lo, k);
    ReachesOn(maxQPS, k, s, s1, s');
  }

  lemma LetAdd(maxQPS: int, k: nat, s: State, lo: nat, hi: nat, base: nat, a: int) returns (s': State)
    requires maxQPS > 0 && lo <= hi <= base && hi - lo < k && InFlight(s.stages) == Ids(lo, hi) + {base}
    requires k < s.resetTime && Fresh(s, base + 1, s.resetTime) && s.perSecond[k] == a
    requires Park(s, k, lo, hi) && base in s.stages && s.stages[base] == ToAdd(s.resetTime)
    ensures Reaches(maxQPS, k, s, s') && Parked(k, s', lo, hi, base + 1, a)
  {
    IdsCount(lo, hi);
    assert base !in Ids(lo, hi);
    s' := AddOne(maxQPS, k, s, base, s.resetTime);
  }

  lemma {:induction false} LetThrough(maxQPS: int, k: nat, s: State, lo: nat, hi: nat, base: nat, a: int)
    returns (s': State)
    requires maxQPS > 0 && Parked(k, s, lo, hi, base, a) && hi - lo < k
    ensures Reaches(maxQPS, k, s, s') && s'.perSecond[k] == a + (hi - lo)
    decreases hi - lo
  {
    if lo == hi {
      s' := s;
      IdsCount(lo, hi);
      assert Leads(maxQPS, k, s, [], s);
    } else {
      var s1 := LetNext(maxQPS, k, s, lo, hi, base, a);
      var s2 := LetAdd(maxQPS, k, s1, lo + 1, hi, base, a + 1);
      s' := LetThrough(maxQPS, k, s2, lo + 1, hi, base + 1, a + 1);
      ReachesOn(maxQPS, k, s, s1, s2);
      ReachesOn(maxQPS, k, s, s2, s');
    }
  }

  /** For every limit and k some run admits exactly that many. */
  lemma PeakAttained(maxQPS: int, k: nat)
    requires maxQPS > 0 && k > 0
    ensures exists steps ::
      Paced(maxQPS, k, Initial(0, 0), steps) && Run(maxQPS, Initial(0, 0), steps).perSecond[k] == Peak(maxQPS, k)
  {
    PeakIs(maxQPS, k);
    var s, lo := ParkChecks(maxQPS, k, k - 1);
    var s' := LetThrough(maxQPS, k, s, lo, lo + (k - 1), lo + (k - 1), PeakInTime(maxQPS, k));
    ReachesOn(maxQPS, k, Initial(0, 0), s, s');
    var steps :| Leads(maxQPS, k, Initial(0, 0), steps, s');
  }

  // ---------- The limit in each second ----------

  /** So that is the exact maximum. */
  lemma EverySecondWithinIff(maxQPS: int, k: nat, n: int)
    requires maxQPS > 0 && k > 0
    ensures EverySecondWithin(maxQPS, k, n) <==> Peak(maxQPS, k) <= n
  {
    PeakAttained(maxQPS, k);
    NoSecondAbovePeak(maxQPS, k);
  }

  lemma {:induction false} PeakOfOne(maxQPS: int, k: nat)
    requires maxQPS > 0
    ensures Peak(maxQPS, k) >= maxQPS
    ensures Peak(maxQPS, k) == maxQPS <==> k <= 1
  {
    if k > 1 {
      PeakOfOne(maxQPS, k - 1);
    }
  }

  /** Checks one at a time never admit more than the limit in any second. */
  lemma OneAtATimeKeepsTheLimit(maxQPS: int)
    requires maxQPS > 0
    ensures EverySecondWithin(maxQPS, 1, maxQPS)
  {
    NoSecondAbovePeak(maxQPS, 1);
  }

  /** "At most maxQPS requests per second" holds exactly when checks never overlap. */
  lemma EverySecondWithinLimitIff(maxQPS: int, k: nat)
    requires maxQPS > 0
    ensures EverySecondWithin(maxQPS, k, maxQPS) <==> k <= 1
  {
    if k == 0 {
      OneAtATimeKeepsTheLimit(maxQPS);
      forall counter: nat, resetTime, steps, x | Paced(maxQPS, 0, Initial(counter, resetTime), steps)
        ensures Run(maxQPS, Initial(counter, resetTime), steps).perSecond[x] <= maxQPS
      {
        PacedMonotone(maxQPS, 0, 1, Initial(counter, resetTime), steps);
      }
    } else {
      EverySecondWithinIff(maxQPS, k, maxQPS);
      PeakOfOne(maxQPS, k);
    }
  }
}
