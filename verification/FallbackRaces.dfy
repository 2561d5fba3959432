/**
  Checks of one key whose Redis commands interleave: the pipeline fallback of slidingWindowCheck
  with each command as a separate step, and script calls, which take a single step.

  A step that is not enabled does nothing, so a run is any sequence of steps.  The guard of
  Start carries the assumptions: distinct members, at most k checks in flight, and timestamps
  taken in order.  The commands of a check may then be delayed at will.  The key does not expire.
*/
module FallbackRaces {
  import opened Common
  import opened SlidingWindow

  datatype Stage = Begun | Trimmed | Counted(count: nat) | Added(count: nat) | Finished(count: nat) | Denied

  datatype Pipeline = Pipeline(now: int, frac: nat, stage: Stage) {
    function Id(): Member { Member(now, frac) }
  }

  datatype State = State(zset: ZSet, pipes: map<nat, Pipeline>)

  datatype Step =
    | Start(id: nat, now: int, frac: nat)
    | Script(id: nat)    // the whole check at once
    | Trim(id: nat)      // ZREMRANGEBYSCORE
    | Card(id: nat)      // ZCARD
    | Add(id: nat)       // ZADD
    | Finish(id: nat)    // EXPIRE, and the pipeline returns

  /** The bound `limit` and the concurrency k. */
  datatype Setting = Setting(limit: nat, k: nat)

  predicate Ended(stage: Stage) {
    stage.Finished? || stage.Denied?
  }

  ghost function InFlight(s: State): set<nat> {
    set id | id in s.pipes && !Ended(s.pipes[id].stage)
  }

  predicate Passed(stage: Stage, limit: nat) {
    (stage.Counted? || stage.Added? || stage.Finished?) && stage.count < limit
  }

  /** Stamped within (t - 60000, t]. */
  predicate InWindow(p: Pipeline, t: int) {
    t - WINDOW < p.now <= t
  }

  /** The requests let through, their count being below the limit, of those stamped within the window. */
  ghost function AdmittedIn(s: State, limit: nat, t: int): set<nat> {
    set id | id in s.pipes && InWindow(s.pipes[id], t) && Passed(s.pipes[id].stage, limit)
  }

  predicate At(s: State, id: nat, stage: Stage) {
    id in s.pipes && s.pipes[id].stage == stage
  }

  ghost predicate MayStart(c: Setting, s: State, id: nat, now: int, frac: nat) {
    && id !in s.pipes && 0 <= now
    && |InFlight(s)| < c.k
    && forall other :: other in s.pipes ==> s.pipes[other].Id() != Member(now, frac) && s.pipes[other].now <= now
  }

  function Move(s: State, id: nat, stage: Stage): State
    requires id in s.pipes
  {
    s.(pipes := s.pipes[id := s.pipes[id].(stage := stage)])
  }

  /** The set as a check by `id` sees it once it has trimmed. */
  function TrimmedFor(s: State, id: nat): ZSet
    requires id in s.pipes
  {
    ZRemRangeByScore(s.zset, 0, s.pipes[id].now - WINDOW)
  }

  function RunScript(c: Setting, s: State, id: nat): State
    requires id in s.pipes
  {
    var z, p := TrimmedFor(s, id), s.pipes[id];
    if |z| < c.limit then State(z[p.Id() := p.now], s.pipes[id := p.(stage := Finished(|z|))])
    else State(z, s.pipes[id := p.(stage := Denied)])
  }

  ghost function Apply(c: Setting, s: State, step: Step): State {
    match step
    case Start(id, now, frac) =>
      if MayStart(c, s, id, now, frac) then s.(pipes := s.pipes[id := Pipeline(now, frac, Begun)]) else s
    case Script(id) => if At(s, id, Begun) then RunScript(c, s, id) else s
    case Trim(id) => if At(s, id, Begun) then Move(s, id, Trimmed).(zset := TrimmedFor(s, id)) else s
    case Card(id) => if At(s, id, Trimmed) then Move(s, id, Counted(|s.zset|)) else s
    case Add(id) =>
      if id in s.pipes && s.pipes[id].stage.Counted?
      then Move(s, id, Added(s.pipes[id].stage.count)).(zset := s.zset[s.pipes[id].Id() := s.pipes[id].now])
      else s
    case Finish(id) =>
      if id in s.pipes && s.pipes[id].stage.Added? then Move(s, id, Finished(s.pipes[id].stage.count)) else s
  }

  ghost function Run(c: Setting, s: State, steps: seq<Step>): State
    decreases |steps|
  {
    if steps == [] then s else Run(c, Apply(c, s, steps[0]), steps[1..])
  }

  // ---------- The invariant for one window ----------

  ghost predicate HasAdded(p: Pipeline) { p.stage.Added? || p.stage.Finished? }

  ghost predicate DistinctIds(s: State) {
    forall i, j :: i in s.pipes && j in s.pipes && i != j ==> s.pipes[i].Id() != s.pipes[j].Id()
  }

  /** The set has the entry of every request of the window that has added one. */
  ghost predicate KeptIn(s: State, t: int, z: ZSet) {
    forall id :: id in s.pipes && InWindow(s.pipes[id], t) && HasAdded(s.pipes[id]) ==> EntryIn(s, id, z)
  }

  predicate EntryIn(s: State, id: nat, z: ZSet)
    requires id in s.pipes
  {
    s.pipes[id].Id() in z && z[s.pipes[id].Id()] == s.pipes[id].now
  }

  ghost predicate WindowStored(s: State, t: int) {
    KeptIn(s, t, s.zset)
  }

  /** Some request stamped after t has trimmed the set. */
  ghost predicate TrimmedLate(s: State, t: int) {
    exists id :: id in s.pipes && t < s.pipes[id].now && s.pipes[id].stage != Begun
  }

  /** Requests of the window that have yet to count. */
  ghost function Uncounted(s: State, t: int): set<nat> {
    set id | id in s.pipes && InWindow(s.pipes[id], t) && (s.pipes[id].stage == Begun || s.pipes[id].stage == Trimmed)
  }

  ghost predicate Inv(c: Setting, s: State, t: int) {
    && DistinctIds(s) && |InFlight(s)| <= c.k
    && if TrimmedLate(s, t) then |AdmittedIn(s, c.limit, t)| + |Uncounted(s, t)| <= c.limit + 2 * c.k - 2
       else WindowStored(s, t) && |AdmittedIn(s, c.limit, t)| < c.limit + c.k
  }

  // ---------- Counting below the limit ----------

  ghost function Landed(s: State, limit: nat, t: int): set<nat> {
    set id | id in AdmittedIn(s, limit, t) && HasAdded(s.pipes[id])
  }

  ghost function Underway(s: State, limit: nat, t: int): set<nat> {
    set id | id in AdmittedIn(s, limit, t) && s.pipes[id].stage.Counted?
  }

  /** The admitted requests of the window that have landed are all in any set that kept its entries. */
  lemma LandedFitsInSet(s: State, limit: nat, t: int, z: ZSet)
    requires DistinctIds(s)
    requires forall id :: id in Landed(s, limit, t) ==> s.pipes[id].Id() in z
    ensures |Landed(s, limit, t)| <= |z|
  {
    var landed := Landed(s, limit, t);
    var member := (id: nat) => if id in s.pipes then s.pipes[id].Id() else Member(0, 0);
    var members := set id | id in landed :: member(id);
    ImageSize(landed, member, members);
    SubsetSize(members, z.Keys);
    assert |z.Keys| == |z|;
  }

  lemma AdmittedSplits(s: State, limit: nat, t: int)
    ensures |AdmittedIn(s, limit, t)| == |Landed(s, limit, t)| + |Underway(s, limit, t)|
  {
    assert AdmittedIn(s, limit, t) == Landed(s, limit, t) + Underway(s, limit, t);
    assert Landed(s, limit, t) !! Underway(s, limit, t);
  }

  /** A request that is about to count is itself in flight, which leaves at most k - 1 others. */
  lemma OthersUnderway(s: State, limit: nat, t: int, id: nat)
    requires At(s, id, Begun) || At(s, id, Trimmed)
    ensures |Underway(s, limit, t)| + 1 <= |InFlight(s)|
  {
    SubsetSize(Underway(s, limit, t) + {id}, InFlight(s));
  }

  /** While nobody has trimmed late, whoever counts below the limit leaves room for the bound. */
  lemma RoomBelowLimit(c: Setting, s: State, t: int, id: nat, z: ZSet)
    requires DistinctIds(s) && |InFlight(s)| <= c.k && (At(s, id, Begun) || At(s, id, Trimmed))
    requires forall other :: other in Landed(s, c.limit, t) ==> s.pipes[other].Id() in z
    requires |z| < c.limit
    ensures |AdmittedIn(s, c.limit, t)| + 1 < c.limit + c.k
  {
    LandedFitsInSet(s, c.limit, t, z);
    AdmittedSplits(s, c.limit, t);
    OthersUnderway(s, c.limit, t, id);
  }

  // ---------- Steps ----------

  /** From s to s' request `id` has moved to another stage, and the set may have changed. */
  ghost predicate Moved(s: State, s': State, id: nat, stage: Stage) {
    && id in InFlight(s) && s'.pipes == s.pipes[id := s.pipes[id].(stage := stage)]
    && stage != Begun && (stage == Trimmed ==> s.pipes[id].stage == Begun)
  }

  /** It is let through now, and was not before. */
  ghost predicate Newcomer(s: State, limit: nat, t: int, id: nat, stage: Stage)
    requires id in s.pipes
  {
    InWindow(s.pipes[id], t) && Passed(stage, limit) && id !in AdmittedIn(s, limit, t)
  }

  lemma MovedFlight(s: State, s': State, id: nat, stage: Stage)
    requires Moved(s, s', id, stage)
    ensures InFlight(s') <= InFlight(s) && |InFlight(s')| <= |InFlight(s)|
    ensures DistinctIds(s) ==> DistinctIds(s')
  {
    SubsetSize(InFlight(s'), InFlight(s));
  }

  lemma MovedAdmitted(s: State, s': State, id: nat, stage: Stage, limit: nat, t: int)
    requires Moved(s, s', id, stage)
    ensures AdmittedIn(s', limit, t) <= AdmittedIn(s, limit, t) + if Newcomer(s, limit, t, id, stage) then {id} else {}
    ensures |AdmittedIn(s', limit, t)| <= |AdmittedIn(s, limit, t)| + if Newcomer(s, limit, t, id, stage) then 1 else 0
  {
    var more := if Newcomer(s, limit, t, id, stage) then {id} else {};
    assert AdmittedIn(s', limit, t) <= AdmittedIn(s, limit, t) + more;
    SubsetSize(AdmittedIn(s', limit, t), AdmittedIn(s, limit, t) + more);
  }

  lemma MovedUncounted(s: State, s': State, id: nat, stage: Stage, t: int)
    requires Moved(s, s', id, stage)
    ensures |Uncounted(s', t)| <= |Uncounted(s, t)|
    ensures id in Uncounted(s, t) && stage != Trimmed ==> |Uncounted(s', t)| + 1 <= |Uncounted(s, t)|
  {
    assert Uncounted(s', t) <= Uncounted(s, t);
    SubsetSize(Uncounted(s', t), Uncounted(s, t));
    if id in Uncounted(s, t) && stage != Trimmed {
      SubsetSize(Uncounted(s', t) + {id}, Uncounted(s, t));
    }
  }

  lemma MovedLate(s: State, s': State, id: nat, stage: Stage, t: int)
    requires Moved(s, s', id, stage)
    ensures TrimmedLate(s', t) <==> TrimmedLate(s, t) || t < s.pipes[id].now
  {
    if TrimmedLate(s, t) {
      var late :| late in s.pipes && t < s.pipes[late].now && s.pipes[late].stage != Begun;
      assert late in s'.pipes && s'.pipes[late].stage != Begun;
    }
    if TrimmedLate(s', t) {
      var late :| late in s'.pipes && t < s'.pipes[late].now && s'.pipes[late].stage != Begun;
      assert late == id || s.pipes[late] == s'.pipes[late];
    }
    assert id in s'.pipes && s'.pipes[id].now == s.pipes[id].now && s'.pipes[id].stage != Begun;
  }

  /** Nobody has trimmed late, and this request does not either. */
  lemma EarlyMoveKeepsInv(c: Setting, s: State, s': State, id: nat, stage: Stage, t: int)
    requires Inv(c, s, t) && Moved(s, s', id, stage) && !TrimmedLate(s, t) && s.pipes[id].now <= t
    requires WindowStored(s', t)
    requires Newcomer(s, c.limit, t, id, stage) ==> |AdmittedIn(s, c.limit, t)| + 1 < c.limit + c.k
    ensures Inv(c, s', t)
  {
    MovedFlight(s, s', id, stage);
    MovedAdmitted(s, s', id, stage, c.limit, t);
    MovedLate(s, s', id, stage, t);
  }

  /** The first late trim: whoever has yet to count is in flight beside the trimming request. */
  lemma FirstLateMoveKeepsInv(c: Setting, s: State, s': State, id: nat, stage: Stage, t: int)
    requires c.k > 0 && Inv(c, s, t) && Moved(s, s', id, stage) && !TrimmedLate(s, t) && t < s.pipes[id].now
    ensures Inv(c, s', t)
  {
    MovedFlight(s, s', id, stage);
    MovedAdmitted(s, s', id, stage, c.limit, t);
    MovedUncounted(s, s', id, stage, t);
    MovedLate(s, s', id, stage, t);
    SubsetSize(Uncounted(s, t) + {id}, InFlight(s));
  }

  /** After that every newcomer was one of those. */
  lemma LaterMoveKeepsInv(c: Setting, s: State, s': State, id: nat, stage: Stage, t: int)
    requires Inv(c, s, t) && Moved(s, s', id, stage) && TrimmedLate(s, t)
    requires Newcomer(s, c.limit, t, id, stage) ==> id in Uncounted(s, t)
    ensures Inv(c, s', t)
  {
    MovedFlight(s, s', id, stage);
    MovedAdmitted(s, s', id, stage, c.limit, t);
    MovedUncounted(s, s', id, stage, t);
    MovedLate(s, s', id, stage, t);
  }

  lemma MoveKeepsInv(c: Setting, s: State, s': State, id: nat, stage: Stage, t: int)
    requires c.k > 0 && Inv(c, s, t) && Moved(s, s', id, stage)
    requires Newcomer(s, c.limit, t, id, stage) ==> id in Uncounted(s, t)
    requires !TrimmedLate(s, t) && s.pipes[id].now <= t ==> WindowStored(s', t)
    requires !TrimmedLate(s, t) && Newcomer(s, c.limit, t, id, stage)
      ==> |AdmittedIn(s, c.limit, t)| + 1 < c.limit + c.k
    ensures Inv(c, s', t)
  {
    if TrimmedLate(s, t) {
      LaterMoveKeepsInv(c, s, s', id, stage, t);
    } else if t < s.pipes[id].now {
      FirstLateMoveKeepsInv(c, s, s', id, stage, t);
    } else {
      EarlyMoveKeepsInv(c, s, s', id, stage, t);
    }
  }

  lemma StartLate(s: State, s': State, id: nat, t: int)
    requires id !in s.pipes && id in s'.pipes && s'.pipes == s.pipes[id := s'.pipes[id]] && s'.pipes[id].stage == Begun
    ensures TrimmedLate(s', t) <==> TrimmedLate(s, t)
  {
    if TrimmedLate(s, t) {
      var late :| late in s.pipes && t < s.pipes[late].now && s.pipes[late].stage != Begun;
      assert late in s'.pipes && s'.pipes[late] == s.pipes[late];
    }
  }

  lemma StartUncounted(c: Setting, s: State, id: nat, now: int, frac: nat, t: int)
    requires MayStart(c, s, id, now, frac) && TrimmedLate(s, t)
    ensures Uncounted(Apply(c, s, Start(id, now, frac)), t) == Uncounted(s, t)
  {
    var late :| late in s.pipes && t < s.pipes[late].now && s.pipes[late].stage != Begun;
    assert s.pipes[late].now <= now;
  }

  lemma StartKeepsInv(c: Setting, s: State, id: nat, now: int, frac: nat, t: int)
    requires Inv(c, s, t)
    ensures Inv(c, Apply(c, s, Start(id, now, frac)), t)
  {
    var s' := Apply(c, s, Start(id, now, frac));
    if MayStart(c, s, id, now, frac) {
      assert InFlight(s') == InFlight(s) + {id};
      assert AdmittedIn(s', c.limit, t) == AdmittedIn(s, c.limit, t);
      StartLate(s, s', id, t);
      if TrimmedLate(s, t) {
        StartUncounted(c, s, id, now, frac, t);
      } else {
        forall other | other in s'.pipes && InWindow(s'.pipes[other], t) && HasAdded(s'.pipes[other])
          ensures EntryIn(s', other, s'.zset)
        {
          assert other != id && EntryIn(s, other, s.zset);
        }
      }
    }
  }

  /** A trim stamped no later than t removes nothing stamped after t - 60000. */
  lemma TrimKeepsWindow(s: State, id: nat, t: int)
    requires id in s.pipes && s.pipes[id].now <= t && WindowStored(s, t)
    ensures KeptIn(s, t, TrimmedFor(s, id))
  {
    forall other | other in s.pipes && InWindow(s.pipes[other], t) && HasAdded(s.pipes[other])
      ensures EntryIn(s, other, TrimmedFor(s, id))
    {
      assert EntryIn(s, other, s.zset);
    }
  }

  lemma TrimStepKeepsInv(c: Setting, s: State, id: nat, t: int)
    requires c.k > 0 && Inv(c, s, t)
    ensures Inv(c, Apply(c, s, Trim(id)), t)
  {
    if At(s, id, Begun) {
      var s' := Apply(c, s, Trim(id));
      if !TrimmedLate(s, t) && s.pipes[id].now <= t {
        TrimKeepsWindow(s, id, t);
        forall other | other in s'.pipes && InWindow(s'.pipes[other], t) && HasAdded(s'.pipes[other])
          ensures EntryIn(s', other, s'.zset)
        {
          assert other != id && s'.pipes[other] == s.pipes[other] && EntryIn(s, other, s'.zset);
        }
      }
      MoveKeepsInv(c, s, s', id, Trimmed, t);
    }
  }

  lemma CardStepKeepsInv(c: Setting, s: State, id: nat, t: int)
    requires c.k > 0 && Inv(c, s, t)
    ensures Inv(c, Apply(c, s, Card(id)), t)
  {
    if At(s, id, Trimmed) {
      var s' := Apply(c, s, Card(id));
      var stage := Counted(|s.zset|);
      if !TrimmedLate(s, t) {
        forall other | other in s'.pipes && InWindow(s'.pipes[other], t) && HasAdded(s'.pipes[other])
          ensures EntryIn(s', other, s'.zset)
        {
          assert other != id && s'.pipes[other] == s.pipes[other] && EntryIn(s, other, s.zset);
        }
        if Newcomer(s, c.limit, t, id, stage) {
          RoomBelowLimit(c, s, t, id, s.zset);
        }
      }
      MoveKeepsInv(c, s, s', id, stage, t);
    }
  }

  lemma AddKeepsWindow(s: State, s': State, id: nat, stage: Stage, z: ZSet, t: int)
    requires Moved(s, s', id, stage) && DistinctIds(s)
    requires s'.zset == z[s.pipes[id].Id() := s.pipes[id].now]
    requires KeptIn(s, t, z)
    ensures WindowStored(s', t)
  {
    forall other | other in s'.pipes && InWindow(s'.pipes[other], t) && HasAdded(s'.pipes[other])
      ensures EntryIn(s', other, s'.zset)
    {
      if other != id {
        assert s'.pipes[other] == s.pipes[other] && s.pipes[other].Id() != s.pipes[id].Id() && EntryIn(s, other, z);
      }
    }
  }

  lemma AddStepKeepsInv(c: Setting, s: State, id: nat, t: int)
    requires c.k > 0 && Inv(c, s, t)
    ensures Inv(c, Apply(c, s, Add(id)), t)
  {
    if id in s.pipes && s.pipes[id].stage.Counted? {
      var s' := Apply(c, s, Add(id));
      var stage := Added(s.pipes[id].stage.count);
      if !TrimmedLate(s, t) {
        AddKeepsWindow(s, s', id, stage, s.zset, t);
      }
      MoveKeepsInv(c, s, s', id, stage, t);
    }
  }

  lemma FinishStepKeepsInv(c: Setting, s: State, id: nat, t: int)
    requires c.k > 0 && Inv(c, s, t)
    ensures Inv(c, Apply(c, s, Finish(id)), t)
  {
    if id in s.pipes && s.pipes[id].stage.Added? {
      var s' := Apply(c, s, Finish(id));
      var stage := Finished(s.pipes[id].stage.count);
      if !TrimmedLate(s, t) {
        forall other | other in s'.pipes && InWindow(s'.pipes[other], t) && HasAdded(s'.pipes[other])
          ensures EntryIn(s', other, s'.zset)
        {
          assert HasAdded(s.pipes[other]) && EntryIn(s, other, s.zset);
        }
      }
      MoveKeepsInv(c, s, s', id, stage, t);
    }
  }

  lemma ScriptStepKeepsInv(c: Setting, s: State, id: nat, t: int)
    requires c.k > 0 && Inv(c, s, t)
    ensures Inv(c, Apply(c, s, Script(id)), t)
  {
    if At(s, id, Begun) {
      var s', z := Apply(c, s, Script(id)), TrimmedFor(s, id);
      var stage := if |z| < c.limit then Finished(|z|) else Denied;
      if !TrimmedLate(s, t) && s.pipes[id].now <= t {
        TrimKeepsWindow(s, id, t);
        if |z| < c.limit {
          AddKeepsWindow(s, s', id, stage, z, t);
          RoomBelowLimit(c, s, t, id, z);
        } else {
          forall other | other in s'.pipes && InWindow(s'.pipes[other], t) && HasAdded(s'.pipes[other])
            ensures EntryIn(s', other, s'.zset)
          {
            assert other != id && s'.pipes[other] == s.pipes[other] && EntryIn(s, other, z);
          }
        }
      }
      MoveKeepsInv(c, s, s', id, stage, t);
    }
  }

  lemma StepKeepsInv(c: Setting, s: State, step: Step, t: int)
    requires c.k > 0 && Inv(c, s, t)
    ensures Inv(c, Apply(c, s, step), t)
  {
    match step
    case Start(id, now, frac) => StartKeepsInv(c, s, id, now, frac, t);
    case Script(id) => ScriptStepKeepsInv(c, s, id, t);
    case Trim(id) => TrimStepKeepsInv(c, s, id, t);
    case Card(id) => CardStepKeepsInv(c, s, id, t);
    case Add(id) => AddStepKeepsInv(c, s, id, t);
    case Finish(id) => FinishStepKeepsInv(c, s, id, t);
  }

  lemma {:induction false} RunKeepsInv(c: Setting, s: State, steps: seq<Step>, t: int)
    requires c.k > 0 && Inv(c, s, t)
    ensures Inv(c, Run(c, s, steps), t)
    decreases |steps|
  {
    if steps != [] {
      StepKeepsInv(c, s, steps[0], t);
      RunKeepsInv(c, Apply(c, s, steps[0]), steps[1..], t);
    }
  }

  lemma RunFromAny(c: Setting, z: ZSet, steps: seq<Step>, t: int)
    requires c.k > 0
    ensures Inv(c, Run(c, State(z, map[]), steps), t)
  {
    var s := State(z, map[]);
    assert InFlight(s) == {} && AdmittedIn(s, c.limit, t) == {};
    RunKeepsInv(c, s, steps, t);
  }

  /** Nobody stamped later than t has started yet. */
  ghost predicate NoneLater(s: State, t: int) {
    forall id :: id in s.pipes ==> s.pipes[id].now <= t
  }

  /** Over every interleaving of pipelines and scripts, however long, with at most k in flight:
      the window up to the latest timestamp holds at most limit + k - 1 admitted requests, whatever
      the set held before. */
  lemma OvershootBound(c: Setting, z: ZSet, steps: seq<Step>, t: int)
    requires c.k > 0 && NoneLater(Run(c, State(z, map[]), steps), t)
    ensures |AdmittedIn(Run(c, State(z, map[]), steps), c.limit, t)| <= c.limit + c.k - 1
  {
    RunFromAny(c, z, steps, t);
  }

  /** Once later requests trim, those of the window that are still under way can be let through as
      well: every window of every run holds at most limit + 2 * (k - 1) admitted requests. */
  lemma WindowOvershootBound(c: Setting, z: ZSet, steps: seq<Step>, t: int)
    requires c.k > 0
    ensures |AdmittedIn(Run(c, State(z, map[]), steps), c.limit, t)| <= c.limit + 2 * (c.k - 1)
  {
    RunFromAny(c, z, steps, t);
  }

  // ---------- The bounds are attained ----------

  lemma {:induction false} RunAppend(c: Setting, s: State, a: seq<Step>, b: seq<Step>)
    ensures Run(c, s, a + b) == Run(c, Run(c, s, a), b)
    decreases |a|
  {
    if a == [] {
      assert a + b == b;
    } else {
      assert (a + b)[0] == a[0] && (a + b)[1..] == a[1..] + b;
      RunAppend(c, Apply(c, s, a[0]), a[1..], b);
    }
  }

  /** n requests served one after the other, then m requests that have all counted but not added. */
  ghost predicate Packed(c: Setting, s: State, n: nat, m: nat) {
    && PackedSet(s, n)
    && PackedPipes(s, n + m)
    && AllAt(s, n, n + m, Counted(n))
    && |InFlight(s)| == m
    && |AdmittedIn(s, c.limit, 0)| == n + m
  }

  ghost predicate AllAt(s: State, from: nat, to: nat, stage: Stage) {
    forall id: nat :: from <= id < to ==> At(s, id, stage)
  }

  ghost predicate PackedSet(s: State, n: nat) {
    && |s.zset| == n
    && forall e :: e in s.zset ==> e.ms == 0 && e.frac < n && s.zset[e] == 0
  }

  ghost predicate PackedPipes(s: State, n: nat) {
    && (forall id: nat :: id in s.pipes <==> id < n)
    && (forall id :: id in s.pipes ==> s.pipes[id].Id() == Member(0, id))
  }

  /** One more request starts, trims and counts. */
  lemma Enter(c: Setting, s: State, n: nat, m: nat) returns (s': State)
    requires Packed(c, s, n, m) && n < c.limit && m < c.k
    ensures s' == Run(c, s, [Start(n + m, 0, n + m), Trim(n + m), Card(n + m)])
    ensures Packed(c, s', n, m + 1)
  {
    var id := n + m;
    s' := State(s.zset, s.pipes[id := Pipeline(0, id, Counted(n))]);
    EnterSteps(c, s, n, id);
    EnterPacks(c, s, s', n, m);
  }

  lemma EnterSteps(c: Setting, s: State, n: nat, id: nat)
    requires PackedSet(s, n) && PackedPipes(s, id) && |InFlight(s)| < c.k
    ensures Run(c, s, [Start(id, 0, id), Trim(id), Card(id)])
         == State(s.zset, s.pipes[id := Pipeline(0, id, Counted(n))])
  {
    EnterBegins(c, s, n, id);
    var s2 := s.(pipes := s.pipes[id := Pipeline(0, id, Trimmed)]);
    assert Apply(c, s2, Card(id)).pipes == s.pipes[id := Pipeline(0, id, Counted(n))];
    RunThree(c, s, Start(id, 0, id), Trim(id), Card(id));
  }

  lemma EnterBegins(c: Setting, s: State, n: nat, id: nat)
    requires PackedSet(s, n) && PackedPipes(s, id) && |InFlight(s)| < c.k
    ensures Apply(c, Apply(c, s, Start(id, 0, id)), Trim(id))
         == s.(pipes := s.pipes[id := Pipeline(0, id, Trimmed)])
  {
    assert MayStart(c, s, id, 0, id);
    assert ZRemRangeByScore(s.zset, 0, -WINDOW) == s.zset;
    assert s.pipes[id := Pipeline(0, id, Begun)][id := Pipeline(0, id, Trimmed)]
        == s.pipes[id := Pipeline(0, id, Trimmed)];
  }

  lemma EnterPacks(c: Setting, s: State, s': State, n: nat, m: nat)
    requires Packed(c, s, n, m) && n < c.limit
    requires s' == State(s.zset, s.pipes[n + m := Pipeline(0, n + m, Counted(n))])
    ensures Packed(c, s', n, m + 1)
  {
    EnterSets(s, s', n + m, c.limit);
    EnterPipes(s, s', n + m);
    EnterAllAt(s, s', n, n + m, Counted(n));
  }

  lemma EnterAllAt(s: State, s': State, from: nat, id: nat, stage: Stage)
    requires AllAt(s, from, id, stage) && At(s', id, stage) && s'.pipes == s.pipes[id := s'.pipes[id]]
    ensures AllAt(s', from, id + 1, stage)
  {
    forall x: nat | from <= x < id + 1 ensures At(s', x, stage) {
      assert x < id ==> At(s, x, stage);
    }
  }

  lemma EnterPipes(s: State, s': State, n: nat)
    requires PackedPipes(s, n)
    requires n in s'.pipes && s'.pipes[n].Id() == Member(0, n) && s'.pipes == s.pipes[n := s'.pipes[n]]
    ensures PackedPipes(s', n + 1)
  {
  }

  lemma EnterSets(s: State, s': State, id: nat, limit: nat)
    requires id !in s.pipes && id in s'.pipes && s'.pipes == s.pipes[id := s'.pipes[id]]
    requires s'.pipes[id].stage.Counted? && s'.pipes[id].stage.count < limit && s'.pipes[id].now == 0
    ensures |InFlight(s')| == |InFlight(s)| + 1
    ensures |AdmittedIn(s', limit, 0)| == |AdmittedIn(s, limit, 0)| + 1
  {
    assert InFlight(s') == InFlight(s) + {id};
    assert AdmittedIn(s', limit, 0) == AdmittedIn(s, limit, 0) + {id};
  }

  /** The only request under way adds its entry and returns. */
  lemma Land(c: Setting, s: State, n: nat) returns (s': State)
    requires Packed(c, s, n, 1) && n < c.limit
    ensures s' == Run(c, s, [Add(n), Finish(n)])
    ensures Packed(c, s', n + 1, 0)
  {
    s' := State(s.zset[Member(0, n) := 0], s.pipes[n := Pipeline(0, n, Finished(n))]);
    assert At(s, n, Counted(n));
    LandSteps(c, s, n, n);
    LandSets(s, s', n, c.limit);
  }

  lemma LandSteps(c: Setting, s: State, n: nat, id: nat)
    requires At(s, id, Counted(n)) && s.pipes[id].Id() == Member(0, id)
    ensures Run(c, s, [Add(id), Finish(id)])
         == State(s.zset[Member(0, id) := 0], s.pipes[id := Pipeline(0, id, Finished(n))])
  {
    var s1 := State(s.zset[Member(0, id) := 0], s.pipes[id := Pipeline(0, id, Added(n))]);
    assert Apply(c, s, Add(id)) == s1;
    var s2 := State(s1.zset, s.pipes[id := Pipeline(0, id, Finished(n))]);
    assert s1.pipes[id := Pipeline(0, id, Finished(n))] == s2.pipes;
    assert Apply(c, s1, Finish(id)) == s2;
    assert [Add(id), Finish(id)][1..] == [Finish(id)] && [Finish(id)][1..] == [];
    assert Run(c, s1, [Finish(id)]) == s2;
  }

  lemma LandSets(s: State, s': State, id: nat, limit: nat)
    requires id in s.pipes && id in s'.pipes && s'.pipes == s.pipes[id := s'.pipes[id]]
    requires s.pipes[id].stage.Counted? && s'.pipes[id] == s.pipes[id].(stage := Finished(s.pipes[id].stage.count))
    ensures |InFlight(s')| == |InFlight(s)| - 1
    ensures |AdmittedIn(s', limit, 0)| == |AdmittedIn(s, limit, 0)|
  {
    assert InFlight(s') == InFlight(s) - {id};
    assert AdmittedIn(s', limit, 0) == AdmittedIn(s, limit, 0);
  }

  lemma RunThree(c: Setting, s: State, x: Step, y: Step, z: Step)
    ensures Run(c, s, [x, y, z]) == Apply(c, Apply(c, Apply(c, s, x), y), z)
  {
    assert [x, y, z][1..] == [y, z] && [y, z][1..] == [z] && [z][1..] == [];
    assert Run(c, Apply(c, Apply(c, s, x), y), [z]) == Apply(c, Apply(c, Apply(c, s, x), y), z);
  }

  ghost predicate Reaches(c: Setting, steps: seq<Step>, s: State) {
    s == Run(c, State(map[], map[]), steps)
  }

  lemma EnterAfter(c: Setting, before: seq<Step>, s0: State, n: nat, m: nat) returns (steps: seq<Step>, s: State)
    requires Reaches(c, before, s0) && Packed(c, s0, n, m) && n < c.limit && m < c.k
    ensures Reaches(c, steps, s) && Packed(c, s, n, m + 1)
  {
    s := Enter(c, s0, n, m);
    var more := [Start(n + m, 0, n + m), Trim(n + m), Card(n + m)];
    RunAppend(c, State(map[], map[]), before, more);
    steps := before + more;
  }

  lemma LandAfter(c: Setting, before: seq<Step>, s0: State, n: nat) returns (steps: seq<Step>, s: State)
    requires Reaches(c, before, s0) && Packed(c, s0, n, 1) && n < c.limit
    ensures Reaches(c, steps, s) && Packed(c, s, n + 1, 0)
  {
    s := Land(c, s0, n);
    RunAppend(c, State(map[], map[]), before, [Add(n), Finish(n)]);
    steps := before + [Add(n), Finish(n)];
  }

  lemma {:induction false} Pack(c: Setting, n: nat, m: nat) returns (steps: seq<Step>, s: State)
    requires (n < c.limit || (n == c.limit && m == 0)) && m <= c.k && c.k > 0
    ensures Reaches(c, steps, s) && Packed(c, s, n, m)
    decreases n, m
  {
    if m > 0 {
      var before, s0 := Pack(c, n, m - 1);
      steps, s := EnterAfter(c, before, s0, n, m - 1);
    } else if n > 0 {
      var before, s0 := Pack(c, n - 1, 1);
      steps, s := LandAfter(c, before, s0, n - 1);
    } else {
      steps, s := [], State(map[], map[]);
      assert InFlight(s) == {} && AdmittedIn(s, c.limit, 0) == {};
    }
  }

  /** For every limit and every k some interleaving admits limit + k - 1 requests of one window
      before anybody later has come. */
  lemma OvershootAttained(c: Setting) returns (steps: seq<Step>)
    requires c.limit > 0 && c.k > 0
    ensures var s := Run(c, State(map[], map[]), steps);
      NoneLater(s, 0) && |AdmittedIn(s, c.limit, 0)| == c.limit + c.k - 1
  {
    var s;
    steps, s := Pack(c, c.limit - 1, c.k);
    forall id | id in s.pipes ensures s.pipes[id].now <= 0 {
      assert s.pipes[id].Id() == Member(0, id);
    }
  }

  // ---------- Stragglers ----------

  /** Every request so far is stamped 0, and so is every entry. */
  ghost predicate AllZero(s: State, n: nat) {
    PackedPipes(s, n) && forall e :: e in s.zset ==> s.zset[e] == 0
  }

  /** Of the crowd in [n, n + k) the first j have landed. */
  ghost predicate Draining(c: Setting, s: State, n: nat, j: nat) {
    && AllZero(s, n + c.k) && j <= c.k && AllAt(s, n + j, n + c.k, Counted(n))
    && |InFlight(s)| == c.k - j && |AdmittedIn(s, c.limit, 0)| == n + c.k
  }

  lemma Drain(c: Setting, before: seq<Step>, s: State, n: nat, j: nat) returns (steps: seq<Step>, s': State)
    requires Reaches(c, before, s) && Draining(c, s, n, j) && j < c.k
    ensures Reaches(c, steps, s') && Draining(c, s', n, j + 1)
  {
    var id := n + j;
    assert At(s, id, Counted(n));
    s' := State(s.zset[Member(0, id) := 0], s.pipes[id := Pipeline(0, id, Finished(n))]);
    LandSteps(c, s, n, id);
    LandSets(s, s', id, c.limit);
    forall i: nat | n + j + 1 <= i < n + c.k ensures At(s', i, Counted(n)) {
      assert At(s, i, Counted(n));
    }
    RunAppend(c, State(map[], map[]), before, [Add(id), Finish(id)]);
    steps := before + [Add(id), Finish(id)];
  }

  lemma {:induction false} DrainAll(c: Setting, n: nat, j: nat) returns (steps: seq<Step>, s: State)
    requires n < c.limit && 0 < c.k && j <= c.k
    ensures Reaches(c, steps, s) && Draining(c, s, n, j)
  {
    if j == 0 {
      steps, s := Pack(c, n, c.k);
    } else {
      var before, s0 := DrainAll(c, n, j - 1);
      steps, s := Drain(c, before, s0, n, j - 1);
    }
  }

  /** The window is full; i more requests of it have started. */
  ghost predicate Waiting(c: Setting, s: State, base: nat, i: nat) {
    && AllZero(s, base + i) && AllAt(s, base, base + i, Begun)
    && |InFlight(s)| == i && |AdmittedIn(s, c.limit, 0)| == base
  }

  lemma RunOneMore(c: Setting, before: seq<Step>, s: State, step: Step)
    requires Reaches(c, before, s)
    ensures Reaches(c, before + [step], Apply(c, s, step))
  {
    RunAppend(c, State(map[], map[]), before, [step]);
    assert [step][1..] == [];
  }

  lemma MayStartNow(c: Setting, s: State, n: nat, now: nat)
    requires AllZero(s, n) && |InFlight(s)| < c.k
    ensures MayStart(c, s, n, now, n)
  {
    forall other | other in s.pipes ensures s.pipes[other].Id() != Member(now, n) && s.pipes[other].now <= now {
      assert s.pipes[other].Id() == Member(0, other);
    }
  }

  lemma StartSets(s: State, s': State, id: nat, limit: nat)
    requires id !in s.pipes && id in s'.pipes && s'.pipes == s.pipes[id := s'.pipes[id]] && s'.pipes[id].stage == Begun
    ensures |InFlight(s')| == |InFlight(s)| + 1
    ensures AdmittedIn(s', limit, 0) == AdmittedIn(s, limit, 0)
  {
    assert InFlight(s') == InFlight(s) + {id};
  }

  lemma StartOne(c: Setting, before: seq<Step>, s: State, base: nat, i: nat) returns (steps: seq<Step>, s': State)
    requires Reaches(c, before, s) && Waiting(c, s, base, i) && i < c.k
    ensures Reaches(c, steps, s') && Waiting(c, s', base, i + 1)
  {
    var id := base + i;
    MayStartNow(c, s, id, 0);
    s' := s.(pipes := s.pipes[id := Pipeline(0, id, Begun)]);
    StartSets(s, s', id, c.limit);
    EnterPipes(s, s', id);
    EnterAllAt(s, s', base, id, Begun);
    RunOneMore(c, before, s, Start(id, 0, id));
    steps := before + [Start(id, 0, id)];
  }

  lemma {:induction false} StartMany(c: Setting, n: nat, i: nat) returns (steps: seq<Step>, s: State)
    requires n < c.limit && i < c.k
    ensures Reaches(c, steps, s) && Waiting(c, s, n + c.k, i)
  {
    if i == 0 {
      steps, s := DrainAll(c, n, c.k);
      assert InFlight(s) == {};
    } else {
      var before, s0 := StartMany(c, n, i - 1);
      steps, s := StartOne(c, before, s0, n + c.k, i - 1);
    }
  }

  /** A later request has emptied the set; of the m waiting requests the first j have counted. */
  ghost predicate Swept(c: Setting, s: State, base: nat, m: nat, j: nat) {
    && s.zset == map[] && j <= m && AllAt(s, base + j, base + m, Begun)
    && (forall id: nat :: base <= id < base + m ==> id in s.pipes && s.pipes[id].now == 0)
    && |AdmittedIn(s, c.limit, 0)| == base + j
  }

  lemma Sweep(c: Setting, before: seq<Step>, s: State, base: nat, m: nat) returns (steps: seq<Step>, s': State)
    requires Reaches(c, before, s) && Waiting(c, s, base, m) && m < c.k
    ensures Reaches(c, steps, s') && Swept(c, s', base, m, 0)
  {
    var late := base + m;
    var start := Start(late, WINDOW, late);
    MayStartNow(c, s, late, WINDOW);
    var s1 := s.(pipes := s.pipes[late := Pipeline(WINDOW, late, Begun)]);
    RunOneMore(c, before, s, start);
    RunOneMore(c, before + [start], s1, Trim(late));
    s' := Apply(c, s1, Trim(late));
    assert s'.zset == map[];
    assert AdmittedIn(s', c.limit, 0) == AdmittedIn(s, c.limit, 0);
    forall id: nat | base <= id < base + m ensures At(s', id, Begun) && s'.pipes[id].now == 0 {
      assert At(s, id, Begun) && s.pipes[id].Id() == Member(0, id);
    }
    steps := before + [start] + [Trim(late)];
  }

  lemma CountOne(c: Setting, before: seq<Step>, s: State, base: nat, m: nat, j: nat)
    returns (steps: seq<Step>, s': State)
    requires Reaches(c, before, s) && Swept(c, s, base, m, j) && j < m && c.limit > 0
    ensures Reaches(c, steps, s') && Swept(c, s', base, m, j + 1)
  {
    var id := base + j;
    assert At(s, id, Begun);
    var p := s.pipes[id];
    var s1 := State(map[], s.pipes[id := p.(stage := Trimmed)]);
    assert TrimmedFor(s, id) == map[];
    assert Apply(c, s, Trim(id)) == s1;
    s' := State(map[], s.pipes[id := p.(stage := Counted(0))]);
    assert s1.pipes[id := p.(stage := Counted(0))] == s'.pipes;
    assert Apply(c, s1, Card(id)) == s';
    RunOneMore(c, before, s, Trim(id));
    RunOneMore(c, before + [Trim(id)], s1, Card(id));
    assert id !in AdmittedIn(s, c.limit, 0);
    assert AdmittedIn(s', c.limit, 0) == AdmittedIn(s, c.limit, 0) + {id};
    forall x: nat | base + j + 1 <= x < base + m ensures At(s', x, Begun) {
      assert At(s, x, Begun);
    }
    steps := before + [Trim(id)] + [Card(id)];
  }

  lemma {:induction false} CountMany(c: Setting, j: nat) returns (steps: seq<Step>, s: State)
    requires c.limit > 0 && j < c.k
    ensures Reaches(c, steps, s) && Swept(c, s, c.limit - 1 + c.k, c.k - 1, j)
  {
    if j == 0 {
      var before, s0 := StartMany(c, c.limit - 1, c.k - 1);
      steps, s := Sweep(c, before, s0, c.limit - 1 + c.k, c.k - 1);
    } else {
      var before, s0 := CountMany(c, j - 1);
      steps, s := CountOne(c, before, s0, c.limit - 1 + c.k, c.k - 1, j - 1);
    }
  }

  /** And for every limit and k some interleaving brings a window to limit + 2 * (k - 1). */
  lemma WindowOvershootAttained(c: Setting) returns (steps: seq<Step>)
    requires c.limit > 0 && c.k > 0
    ensures |AdmittedIn(Run(c, State(map[], map[]), steps), c.limit, 0)| == c.limit + 2 * (c.k - 1)
  {
    var s;
    steps, s := CountMany(c, c.k - 1);
  }
}
