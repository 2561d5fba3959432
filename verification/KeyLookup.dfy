/**
  The cached API-key lookup of OpenAPIAuth (internal/middleware/openapi_auth.go) for one key
  hash in one process: look in the cache, take the per-hash mutex, look again, and only then
  read the database and fill the cache.

  Runs are arbitrary sequences of steps of any number of requests; a step that is not enabled
  does nothing.  Only this process writes the entry; it may be evicted at any time.
*/
module KeyLookup {
  import opened Common

  const CACHE_TTL: int := 300000

  datatype Stage =
    | Missed     // first look found nothing
    | Locked     // mutex taken
    | Reading    // second look found nothing
    | Writing    // database row found
    | Unlocking  // about to release the mutex
    | Finished(locked: bool)

  datatype State = State(
    now: int,
    cache: Option<int>,       // expiry of the cached entry
    holder: Option<nat>,      // owner of the mutex
    stages: map<nat, Stage>,
    locks: multiset<nat>, unlocks: multiset<nat>,
    dbReads: nat,             // database reads that have returned
    filled: nat,              // cache writes that landed
    ended: nat,               // cached entries that expired or were evicted
    fruitless: nat)           // reads that did not end in a landed cache write

  datatype Step =
    | Tick(to: int)
    | Evict
    | Look(id: nat)
    | Lock(id: nat)
    | LookAgain(id: nat)
    | Read(id: nat, found: bool)
    | Write(id: nat, landed: bool)
    | Unlock(id: nat)

  function Initial(now: int): State {
    State(now, None, None, map[], multiset{}, multiset{}, 0, 0, 0, 0)
  }

  function At(s: State, id: nat): Option<Stage> {
    if id in s.stages then Some(s.stages[id]) else None
  }

  function Move(s: State, id: nat, stage: Stage): State {
    s.(stages := s.stages[id := stage])
  }

  function Apply(s: State, step: Step): State {
    match step
    case Tick(to) =>
      if to < s.now then s
      else if s.cache.Some? && s.cache.value <= to then s.(now := to, cache := None, ended := s.ended + 1)
      else s.(now := to)
    case Evict => if s.cache.Some? then s.(cache := None, ended := s.ended + 1) else s
    case Look(id) =>
      if At(s, id) == None then Move(s, id, if s.cache.Some? then Finished(false) else Missed) else s
    case Lock(id) =>
      if At(s, id) == Some(Missed) && s.holder == None
      then Move(s, id, Locked).(holder := Some(id), locks := s.locks + multiset{id}) else s
    case LookAgain(id) =>
      if At(s, id) == Some(Locked) then Move(s, id, if s.cache.Some? then Unlocking else Reading) else s
    case Read(id, found) =>
      if At(s, id) == Some(Reading)
      then Move(s, id, if found then Writing else Unlocking)
           .(dbReads := s.dbReads + 1, fruitless := s.fruitless + if found then 0 else 1)
      else s
    case Write(id, landed) =>
      if At(s, id) == Some(Writing) then
        if landed then Move(s, id, Unlocking).(cache := Some(s.now + CACHE_TTL), filled := s.filled + 1)
        else Move(s, id, Unlocking).(fruitless := s.fruitless + 1)
      else s
    case Unlock(id) =>
      if At(s, id) == Some(Unlocking)
      then Move(s, id, Finished(true)).(holder := None, unlocks := s.unlocks + multiset{id}) else s
  }

  function Run(s: State, steps: seq<Step>): State
    decreases |steps|
  {
    if steps == [] then s else Run(Apply(s, steps[0]), steps[1..])
  }

  predicate Critical(stage: Stage) {
    stage.Locked? || stage.Reading? || stage.Writing? || stage.Unlocking?
  }

  /** The mutex is held exactly by the request inside the critical section. */
  ghost predicate HolderInv(s: State) {
    && (forall id :: id in s.stages && Critical(s.stages[id]) ==> s.holder == Some(id))
    && (s.holder.Some? ==> s.holder.value in s.stages && Critical(s.stages[s.holder.value]))
  }

  /** Each request has locked and unlocked as often as its stage says. */
  ghost predicate TallyInv(s: State) {
    forall id :: Tallies(s, id)
  }

  predicate Tallies(s: State, id: nat) {
    s.locks[id] == Locks(At(s, id)) && s.unlocks[id] == Unlocks(At(s, id))
  }

  function Locks(stage: Option<Stage>): nat {
    if stage.Some? && (Critical(stage.value) || stage.value == Finished(true)) then 1 else 0
  }

  function Unlocks(stage: Option<Stage>): nat {
    if stage == Some(Finished(true)) then 1 else 0
  }

  /** While an entry is cached nobody reads the database or writes the cache. */
  ghost predicate CacheInv(s: State) {
    && (s.cache.Some? ==> s.now < s.cache.value)
    && (s.cache.Some? ==> forall id :: id in s.stages ==> !s.stages[id].Reading? && !s.stages[id].Writing?)
    && s.filled == s.ended + (if s.cache.Some? then 1 else 0)
    && s.dbReads == s.filled + s.fruitless + (if WriterInside(s) then 1 else 0)
  }

  predicate WriterInside(s: State) {
    s.holder.Some? && At(s, s.holder.value) == Some(Writing)
  }

  lemma StepKeepsHolder(s: State, step: Step)
    requires HolderInv(s)
    ensures HolderInv(Apply(s, step))
  {
  }

  lemma StepKeepsTally(s: State, step: Step)
    requires TallyInv(s)
    ensures TallyInv(Apply(s, step))
  {
    forall id ensures Tallies(Apply(s, step), id) {
      assert Tallies(s, id);
      StepTallies(s, step, id);
    }
  }

  lemma StepTallies(s: State, step: Step, id: nat)
    requires Tallies(s, id)
    ensures Tallies(Apply(s, step), id)
  {
  }

  lemma StepKeepsCache(s: State, step: Step)
    requires HolderInv(s) && CacheInv(s)
    ensures CacheInv(Apply(s, step))
  {
  }

  lemma {:induction false} RunKeepsInv(s: State, steps: seq<Step>)
    requires HolderInv(s) && TallyInv(s) && CacheInv(s)
    ensures HolderInv(Run(s, steps)) && TallyInv(Run(s, steps)) && CacheInv(Run(s, steps))
    decreases |steps|
  {
    if steps != [] {
      StepKeepsHolder(s, steps[0]);
      StepKeepsTally(s, steps[0]);
      StepKeepsCache(s, steps[0]);
      RunKeepsInv(Apply(s, steps[0]), steps[1..]);
    }
  }

  /** At most one database read per cached entry: apart from reads that found nothing or whose
      cache write was lost, reads exceed the entries that have come to an end by at most one. */
  lemma OneReadPerCacheLifetime(start: int, steps: seq<Step>)
    ensures var s := Run(Initial(start), steps); s.dbReads <= s.ended + s.fruitless + 1
    ensures var s := Run(Initial(start), steps); s.filled <= s.ended + 1
  {
    RunKeepsInv(Initial(start), steps);
  }

  /** While the entry is cached, no step reads the database. */
  lemma NoReadWhileCached(start: int, steps: seq<Step>, id: nat, found: bool)
    requires Run(Initial(start), steps).cache.Some?
    ensures Apply(Run(Initial(start), steps), Read(id, found)) == Run(Initial(start), steps)
  {
    RunKeepsInv(Initial(start), steps);
  }

  predicate NoneEvicts(steps: seq<Step>) {
    forall k :: 0 <= k < |steps| ==> !steps[k].Evict?
  }

  lemma {:induction false} CachedRun(s: State, steps: seq<Step>, until: int)
    requires HolderInv(s) && TallyInv(s) && CacheInv(s) && NoneEvicts(steps) && s.cache == Some(until)
    requires Run(s, steps).now < until
    ensures Run(s, steps).cache == Some(until) && Run(s, steps).dbReads == s.dbReads
    decreases |steps|
  {
    if steps != [] {
      var s' := Apply(s, steps[0]);
      RunKeepsInv(s, [steps[0]]);
      assert [steps[0]][1..] == [] && Run(s, [steps[0]]) == s';
      ClockRuns(s', steps[1..]);
      CachedRun(s', steps[1..], until);
    }
  }

  lemma {:induction false} ClockRuns(s: State, steps: seq<Step>)
    ensures s.now <= Run(s, steps).now
    decreases |steps|
  {
    if steps != [] {
      ClockRuns(Apply(s, steps[0]), steps[1..]);
    }
  }

  /** Whatever requests do, once an entry has been written the database is not read for 300 s unless the
      entry is evicted; then it has gone. */
  lemma NoReadForFiveMinutes(start: int, before: seq<Step>, id: nat, after: seq<Step>)
    requires At(Run(Initial(start), before), id) == Some(Writing) && NoneEvicts(after)
    ensures
      var s := Apply(Run(Initial(start), before), Write(id, true));
      && (Run(s, after).now < s.now + 300000 ==> Run(s, after).dbReads == s.dbReads)
      && Apply(s, Tick(s.now + 300000)).cache == None
      && forall t :: s.now <= t < s.now + 300000 ==> Apply(s, Tick(t)).now == t && Apply(s, Tick(t)).cache.Some?
  {
    RunKeepsInv(Initial(start), before);
    var s0 := Run(Initial(start), before);
    var s := Apply(s0, Write(id, true));
    RunKeepsInv(s0, [Write(id, true)]);
    assert [Write(id, true)][1..] == [] && Run(s0, [Write(id, true)]) == s;
    if Run(s, after).now < s.now + 300000 {
      CachedRun(s, after, s.now + 300000);
    }
  }

  /** Every request that took the mutex and has finished released it exactly once, and no other
      request released it; at most one request is inside at any time. */
  lemma MutexReleasedExactlyOnce(start: int, steps: seq<Step>, id: nat, other: nat)
    ensures var s := Run(Initial(start), steps);
      && s.unlocks[id] <= s.locks[id] <= 1
      && (id in s.stages && s.stages[id].Finished? ==> s.unlocks[id] == s.locks[id])
      && (id in s.stages && other in s.stages && Critical(s.stages[id]) && Critical(s.stages[other]) ==> id == other)
  {
    RunKeepsInv(Initial(start), steps);
    assert Tallies(Run(Initial(start), steps), id);
  }

  // ---------- One request at a time ----------

  /** What a request does once it has missed. */
  function AfterMiss(found: bool, landed: bool): seq<Step> {
    [Lock(0), LookAgain(0), Read(0, found), Write(0, landed), Unlock(0)]
  }

  lemma RunStep(s: State, steps: seq<Step>, i: nat) returns (s': State)
    requires i < |steps|
    ensures s' == Apply(s, steps[i])
    ensures Run(s, steps[i..]) == Run(s', steps[i + 1..])
  {
    s' := Apply(s, steps[i]);
    assert steps[i..][1..] == steps[i + 1..];
  }

  lemma RunLocked(s: State, found: bool, landed: bool) returns (s': State)
    requires At(s, 0) == Some(Missed) && s.holder == None
    ensures At(s', 0) == Some(if s.cache.Some? then Unlocking else Reading)
    ensures s'.cache == s.cache && s'.dbReads == s.dbReads && s'.now == s.now
    ensures Run(s, AfterMiss(found, landed)) == Run(s', AfterMiss(found, landed)[2..])
  {
    var steps := AfterMiss(found, landed);
    assert steps[0..] == steps;
    var s1 := RunStep(s, steps, 0);
    s' := RunStep(s1, steps, 1);
  }

  lemma RunRead(s: State, found: bool, landed: bool)
    requires At(s, 0) == Some(if s.cache.Some? then Unlocking else Reading)
    ensures var s' := Run(s, AfterMiss(found, landed)[2..]);
      && s'.holder == None
      && s'.cache == (if s.cache == None && found && landed then Some(s.now + CACHE_TTL) else s.cache)
      && s'.dbReads == s.dbReads + if s.cache == None then 1 else 0
  {
    var steps := AfterMiss(found, landed);
    var s1 := RunStep(s, steps, 2);
    var s2 := RunStep(s1, steps, 3);
    var s3 := RunStep(s2, steps, 4);
    assert steps[5..] == [];
  }

  /** A request that missed reads the database exactly when nobody filled the entry meanwhile. */
  lemma RunAfterMiss(s: State, found: bool, landed: bool)
    requires At(s, 0) == Some(Missed) && s.holder == None
    ensures var s' := Run(s, AfterMiss(found, landed));
      && s'.holder == None
      && s'.cache == (if s.cache == None && found && landed then Some(s.now + CACHE_TTL) else s.cache)
      && s'.dbReads == s.dbReads + if s.cache == None then 1 else 0
  {
    var inside := RunLocked(s, found, landed);
    RunRead(inside, found, landed);
  }

  /** A request at `now` that missed, and the entry another one filled while it waited for the mutex. */
  function Waiting(now: int, meanwhile: int): (s: State)
    ensures At(s, 0) == Some(Missed) && s.holder == None && s.dbReads == 0 && s.now == now
    ensures s.cache == if now < meanwhile then Some(meanwhile) else None
  {
    Apply(Initial(now), Look(0)).(cache := if now < meanwhile then Some(meanwhile) else None)
  }

  /** The process's mutex and the cached entry in Redis, for one key hash. */
  class Lookup {
    var cachedUntil: int
    var locked: bool

    constructor ()
      ensures !locked && cachedUntil == 0
    {
      cachedUntil, locked := 0, false;
    }

    function Cache(now: int): Option<int>
      reads this
    {
      if now < cachedUntil then Some(cachedUntil) else None
    }

    /**
      A lookup takes the steps of a run.  While it waits for the mutex another request may fill
      the entry until `meanwhile`; `dbRead` says whether it read the database itself.
    */
    method Find(now: int, meanwhile: int, found: bool, landed: bool) returns (dbRead: bool)
      requires !locked
      modifies this
      ensures !locked
      ensures old(Cache(now)).Some? ==> !dbRead && Cache(now) == old(Cache(now))
      ensures old(Cache(now)) == None ==>
        var s := Run(Waiting(now, meanwhile), AfterMiss(found, landed));
        Cache(now) == s.cache && (dbRead <==> s.dbReads == 1) && s.holder == None
    {
      if now < cachedUntil {
        return false;
      }
      RunAfterMiss(Waiting(now, meanwhile), found, landed);
      cachedUntil := if now < meanwhile then meanwhile else cachedUntil;
      locked := true;
      if now < cachedUntil {
        locked := false;
        return false;
      }
      dbRead := true;
      if found && landed {
        cachedUntil := now + CACHE_TTL;
      }
      locked := false;
    }
  }
}
