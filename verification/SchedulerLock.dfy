/**
  Several scheduler replicas running releaseFrozenRecords under safeRunNamed: each run creates
  a context with a deadline, takes a Redis lock with a time to live, selects the expired
  records once, and then commits one transaction per record without re-reading its status.

  Requests freeze amounts, recharge, deduct and adjust at any time.  To settle a freeze, or to
  release it after a failure, a request reads the record as FROZEN and commits later, without
  re-reading its status either.  The callback of a payment reads the balance row and saves the
  whole of it later; nothing is assumed to lock the row in between.

  Runs are arbitrary sequences of steps; a step that is not enabled does nothing.  A database
  or Redis command issued with a context past its deadline has no effect.
*/
module SchedulerLock {
  import opened Common
  import opened FreezeLedger

  /** Milliseconds: context timeout, lock time to live, minimum age of a released record. */
  datatype Setting = Setting(timeout: int, ttl: int, grace: int)

  const CODE: Setting := Setting(600000, 600000, 300000)

  datatype Lease = Lease(token: nat, expireAt: int)

  datatype Stage =
    | Waiting(deadline: int)                              // context created, lock not yet taken
    | Holding(token: nat, deadline: int)                  // lock taken
    | Draining(token: nat, deadline: int, todo: seq<nat>) // records selected

  datatype Row = Row(user: nat, columns: Columns)

  datatype State = State(
    now: int,
    lock: Option<Lease>,
    nextToken: nat,
    runs: map<nat, Stage>,
    found: map<nat, nat>,  // request to the record it has read as FROZEN
    rows: map<nat, Row>,   // callback to the balance row it has read
    ledger: Ledger,
    commits: seq<nat>,     // records released by the scheduler, in order of commit
    clamped: bool)         // whether a reduction ever cut a frozen amount off at 0

  datatype Step =
    | Tick(to: int)
    | Freeze(user: nat, units: nat)
    | Find(p: nat, i: nat)       // SettleBalance and ReleaseFrozen read the record
    | Settle(p: nat)             // their transactions commit
    | Unfreeze(p: nat)
    | Rewrite(user: nat)         // a recharge, a deduction or an adjustment commits
    | Read(p: nat, user: nat)    // the callback of a payment reads the row
    | Save(p: nat)               // and saves it
    | Begin(w: nat)
    | Acquire(w: nat)
    | Select(w: nat, cutoff: int)
    | Commit(w: nat)
    | Fail(w: nat)    // the transaction of the next record rolls back
    | Finish(w: nat)  // the task returns or panics; the lock is given back
    | Crash(w: nat)   // the process dies

  /** A run that has the lock and whose context is still open. */
  predicate Live(s: State, w: nat) {
    w in s.runs && !s.runs[w].Waiting? && s.now < s.runs[w].deadline
  }

  ghost predicate SelectedByLiveRun(s: State, i: nat) {
    exists w :: Live(s, w) && s.runs[w].Draining? && i in s.runs[w].todo
  }

  predicate LockFree(s: State) {
    s.lock == None || s.lock.value.expireAt <= s.now
  }

  function Without<T>(m: map<nat, T>, w: nat): map<nat, T> {
    map x | x in m && x != w :: m[x]
  }

  function Reducing(s: State, i: nat, status: Status): State
    requires i < |s.ledger.records|
  {
    var r := s.ledger.records[i];
    s.(ledger := Reduce(s.ledger, i, status), clamped := s.clamped || FrozenOf(s.ledger, r.user) < r.amount)
  }

  predicate CommitEnabled(s: State, w: nat) {
    Live(s, w) && s.runs[w].Draining? && s.runs[w].todo != [] && s.runs[w].todo[0] < |s.ledger.records|
  }

  function CommitNext(s: State, w: nat): State
    requires CommitEnabled(s, w)
  {
    var run := s.runs[w];
    Reducing(s, run.todo[0], Released).(commits := s.commits + [run.todo[0]],
                                        runs := s.runs[w := run.(todo := run.todo[1..])])
  }

  predicate SettleEnabled(s: State, p: nat) {
    p in s.found && s.found[p] < |s.ledger.records|
  }

  function SettleFound(s: State, p: nat, status: Status): State
    requires SettleEnabled(s, p)
  {
    Reducing(s, s.found[p], status).(found := Without(s.found, p))
  }

  function Apply(c: Setting, s: State, step: Step): State {
    match step
    case Tick(to) => if s.now <= to then s.(now := to) else s
    case Freeze(user, units) => s.(ledger := AddFreeze(s.ledger, user, units, s.now))
    case Find(p, i) =>
      if p !in s.found && i < |s.ledger.records| && s.ledger.records[i].status == Frozen
      then s.(found := s.found[p := i]) else s
    case Settle(p) => if SettleEnabled(s, p) then SettleFound(s, p, Settled) else s
    case Unfreeze(p) => if SettleEnabled(s, p) then SettleFound(s, p, Released) else s
    case Rewrite(user) => s.(ledger := FreezeLedger.Rewrite(s.ledger, user))
    case Read(p, user) => s.(rows := s.rows[p := Row(user, ColumnsOf(s.ledger, user))])
    case Save(p) =>
      if p in s.rows
      then s.(ledger := Put(s.ledger, s.rows[p].user, s.rows[p].columns), rows := Without(s.rows, p)) else s
    case Begin(w) => if w !in s.runs then s.(runs := s.runs[w := Waiting(s.now + c.timeout)]) else s
    case Acquire(w) =>
      if w in s.runs && s.runs[w].Waiting? then
        if s.now < s.runs[w].deadline && LockFree(s)
        then s.(lock := Some(Lease(s.nextToken, s.now + c.ttl)), nextToken := s.nextToken + 1,
                runs := s.runs[w := Holding(s.nextToken, s.runs[w].deadline)])
        else s.(runs := Without(s.runs, w))
      else s
    case Select(w, cutoff) =>
      if Live(s, w) && s.runs[w].Holding? && cutoff <= s.now - c.grace
      then s.(runs := s.runs[w := Draining(s.runs[w].token, s.runs[w].deadline,
                                           Snapshot(s.ledger.records, cutoff, |s.ledger.records|))])
      else s
    case Commit(w) => if CommitEnabled(s, w) then CommitNext(s, w) else s
    case Fail(w) =>
      if w in s.runs && s.runs[w].Draining? && s.runs[w].todo != []
      then s.(runs := s.runs[w := s.runs[w].(todo := s.runs[w].todo[1..])]) else s
    case Finish(w) =>
      if w in s.runs && !s.runs[w].Waiting? then
        var unlocked := if Live(s, w) && s.lock.Some? && s.lock.value.token == s.runs[w].token then None else s.lock;
        s.(lock := unlocked, runs := Without(s.runs, w))
      else s
    case Crash(w) => s.(runs := Without(s.runs, w))
  }

  function Run(c: Setting, s: State, steps: seq<Step>): State
    decreases |steps|
  {
    if steps == [] then s else Run(c, Apply(c, s, steps[0]), steps[1..])
  }

  function Initial(now: int, ledger: Ledger): State {
    State(now, None, 0, map[], map[], map[], ledger, [], false)
  }

  // ---------- Which runs conserve the ledger ----------

  /** The row read before still has the frozen credits there are. */
  predicate SaveAgrees(s: State, p: nat) {
    p in s.rows ==> s.rows[p].columns.credits == FrozenOf(s.ledger, s.rows[p].user)
  }

  /** A write whose columns agree, or a reduction that ReductionAgrees allows. */
  predicate Sound(s: State, step: Step) {
    match step
    case Freeze(user, units) => FreezeAgrees(ColumnsOf(s.ledger, user), units)
    case Settle(p) => SettleEnabled(s, p) ==> ReductionAgrees(s.ledger, s.found[p])
    case Unfreeze(p) => SettleEnabled(s, p) ==> ReductionAgrees(s.ledger, s.found[p])
    case Rewrite(user) => RewriteAgrees(ColumnsOf(s.ledger, user))
    case Save(p) => SaveAgrees(s, p)
    case Commit(w) => CommitEnabled(s, w) ==> ReductionAgrees(s.ledger, s.runs[w].todo[0])
    case _ => true
  }

  lemma StepConservesIff(c: Setting, s: State, step: Step)
    requires Conserved(s.ledger)
    ensures Conserved(Apply(c, s, step).ledger) <==> Sound(s, step)
  {
    match step
    case Freeze(user, units) => FreezeConservesIff(s.ledger, user, units, s.now);
    case Settle(p) =>
      if SettleEnabled(s, p) {
        ReduceConservesIff(s.ledger, s.found[p], Settled);
      }
    case Unfreeze(p) =>
      if SettleEnabled(s, p) {
        ReduceConservesIff(s.ledger, s.found[p], Released);
      }
    case Rewrite(user) => RewriteConservesIff(s.ledger, user);
    case Save(p) =>
      if p in s.rows {
        PutConservesIff(s.ledger, s.rows[p].user, s.rows[p].columns);
      }
    case Commit(w) =>
      if CommitEnabled(s, w) {
        ReduceConservesIff(s.ledger, s.runs[w].todo[0], Released);
      }
    case _ =>
  }

  predicate SoundRun(c: Setting, s: State, steps: seq<Step>)
    decreases |steps|
  {
    steps == [] || (Sound(s, steps[0]) && SoundRun(c, Apply(c, s, steps[0]), steps[1..]))
  }

  ghost predicate StaysConserved(c: Setting, s: State, steps: seq<Step>)
    decreases |steps|
  {
    Conserved(s.ledger) && (steps == [] || StaysConserved(c, Apply(c, s, steps[0]), steps[1..]))
  }

  /** A run, whatever its interleaving, keeps the ledger throughout exactly when its steps are sound. */
  lemma {:induction false} RunConservesIff(c: Setting, s: State, steps: seq<Step>)
    requires Conserved(s.ledger)
    ensures StaysConserved(c, s, steps) <==> SoundRun(c, s, steps)
    decreases |steps|
  {
    if steps != [] {
      var s' := Apply(c, s, steps[0]);
      StepConservesIff(c, s, steps[0]);
      if Conserved(s'.ledger) {
        RunConservesIff(c, s', steps[1..]);
      }
    }
  }

  // ---------- Mutual exclusion ----------

  ghost predicate LockInv(c: Setting, s: State) {
    && (forall w :: Live(s, w) ==> Covered(s, w))
    && (forall w :: w in s.runs && !s.runs[w].Waiting? ==> s.runs[w].token < s.nextToken)
    && (forall v, w :: v in s.runs && w in s.runs && v != w && !s.runs[v].Waiting? && !s.runs[w].Waiting? ==>
          s.runs[v].token != s.runs[w].token)
    && (forall w :: w in s.runs && s.runs[w].Waiting? ==> s.runs[w].deadline <= s.now + c.timeout)
  }

  /** The lock is the run's own and outlives its context. */
  ghost predicate Covered(s: State, w: nat)
    requires w in s.runs && !s.runs[w].Waiting?
  {
    s.lock.Some? && s.lock.value.token == s.runs[w].token && s.runs[w].deadline <= s.lock.value.expireAt
  }

  lemma AtMostOneLiveRun(c: Setting, s: State, v: nat, w: nat)
    requires LockInv(c, s) && Live(s, v) && Live(s, w)
    ensures v == w
  {
    assert Covered(s, v) && Covered(s, w);
  }

  lemma AcquireKeepsLockInv(c: Setting, s: State, w: nat)
    requires c.timeout <= c.ttl && LockInv(c, s)
    ensures LockInv(c, Apply(c, s, Acquire(w)))
  {
    var s' := Apply(c, s, Acquire(w));
    if LockFree(s) {
      forall v ensures !Live(s, v) {
      }
    }
    forall v | Live(s', v) ensures Covered(s', v) {
      assert Live(s, v) || (v == w && s'.runs[v].Holding?);
    }
  }

  lemma FinishKeepsLockInv(c: Setting, s: State, w: nat)
    requires LockInv(c, s)
    ensures LockInv(c, Apply(c, s, Finish(w)))
  {
    var s' := Apply(c, s, Finish(w));
    forall v | Live(s', v) ensures Covered(s', v) {
      assert Live(s, v) && Covered(s, v);
    }
  }

  predicate OfRequest(step: Step) {
    || step.Freeze? || step.Find? || step.Settle? || step.Unfreeze?
    || step.Rewrite? || step.Read? || step.Save?
  }

  /** The lock is untouched, and every run that has it had it before, with the same deadline. */
  ghost predicate LeavesLock(c: Setting, s: State, s': State) {
    && s'.lock == s.lock && s'.nextToken == s.nextToken && s.now <= s'.now
    && forall v :: v in s'.runs ==> RunLeavesLock(c, s, s', v)
  }

  predicate RunLeavesLock(c: Setting, s: State, s': State, v: nat)
    requires v in s'.runs
  {
    if s'.runs[v].Waiting? then s'.runs[v].deadline <= s.now + c.timeout
    else
      && v in s.runs && !s.runs[v].Waiting?
      && s'.runs[v].token == s.runs[v].token && s'.runs[v].deadline == s.runs[v].deadline
  }

  lemma OtherStepsLeaveLock(c: Setting, s: State, step: Step)
    requires LockInv(c, s) && !step.Acquire? && !step.Finish?
    ensures LeavesLock(c, s, Apply(c, s, step))
  {
    var s' := Apply(c, s, step);
    if OfRequest(step) {
      assert s'.runs == s.runs;
    }
  }

  lemma LeavingLockKeepsInv(c: Setting, s: State, s': State)
    requires LockInv(c, s) && LeavesLock(c, s, s')
    ensures LockInv(c, s')
  {
    forall v | Live(s', v) ensures Covered(s', v) {
      assert RunLeavesLock(c, s, s', v);
      assert Live(s, v) && Covered(s, v);
    }
    forall v | v in s'.runs && !s'.runs[v].Waiting? ensures s'.runs[v].token < s'.nextToken {
      assert RunLeavesLock(c, s, s', v);
    }
    forall v, w | v in s'.runs && w in s'.runs && v != w && !s'.runs[v].Waiting? && !s'.runs[w].Waiting?
      ensures s'.runs[v].token != s'.runs[w].token
    {
      assert RunLeavesLock(c, s, s', v) && RunLeavesLock(c, s, s', w);
    }
  }

  lemma StepKeepsLockInv(c: Setting, s: State, step: Step)
    requires c.timeout <= c.ttl && LockInv(c, s)
    ensures LockInv(c, Apply(c, s, step))
  {
    if step.Acquire? {
      AcquireKeepsLockInv(c, s, step.w);
    } else if step.Finish? {
      FinishKeepsLockInv(c, s, step.w);
    } else {
      OtherStepsLeaveLock(c, s, step);
      LeavingLockKeepsInv(c, s, Apply(c, s, step));
    }
  }

  // ---------- The scheduler's own share ----------

  /**
    What the scheduler cannot see to: freezes, recharges, deductions and adjustments whose columns
    agree, callbacks that save the frozen amount there is, and settlements of a record that is
    still FROZEN and that no live run has selected.
  */
  ghost predicate Orderly(s: State, step: Step) {
    match step
    case Freeze(user, units) => FreezeAgrees(ColumnsOf(s.ledger, user), units)
    case Settle(p) => SettleEnabled(s, p) ==> OrderlySettlement(s, s.found[p])
    case Unfreeze(p) => SettleEnabled(s, p) ==> OrderlySettlement(s, s.found[p])
    case Rewrite(user) => RewriteAgrees(ColumnsOf(s.ledger, user))
    case Save(p) => SaveAgrees(s, p)
    case _ => true
  }

  ghost predicate OrderlySettlement(s: State, i: nat)
    requires i < |s.ledger.records|
  {
    s.ledger.records[i].status == Frozen && !SelectedByLiveRun(s, i)
  }

  ghost predicate OrderlyRun(c: Setting, s: State, steps: seq<Step>)
    decreases |steps|
  {
    steps == [] || (Orderly(s, steps[0]) && OrderlyRun(c, Apply(c, s, steps[0]), steps[1..]))
  }

  ghost predicate AllFrozen(records: seq<FreezeRecord>, todo: seq<nat>) {
    && (forall k :: 0 <= k < |todo| ==> todo[k] < |records| && records[todo[k]].status == Frozen)
    && (forall j, k :: 0 <= j < k < |todo| ==> todo[j] != todo[k])
  }

  /** Whatever a live run still has to release is FROZEN. */
  ghost predicate TodoInv(s: State) {
    forall w :: Live(s, w) && s.runs[w].Draining? ==> AllFrozen(s.ledger.records, s.runs[w].todo)
  }

  ghost predicate LedgerInv(s: State) {
    && Conserved(s.ledger)
    && !s.clamped
    && (forall k :: 0 <= k < |s.commits| ==>
          s.commits[k] < |s.ledger.records| && s.ledger.records[s.commits[k]].status == Released)
    && (forall j, k :: 0 <= j < k < |s.commits| ==> s.commits[j] != s.commits[k])
  }

  ghost predicate Inv(c: Setting, s: State) {
    LockInv(c, s) && TodoInv(s) && LedgerInv(s)
  }

  lemma CommitKeepsLedgers(c: Setting, s: State, w: nat)
    requires Inv(c, s)
    ensures TodoInv(Apply(c, s, Commit(w))) && LedgerInv(Apply(c, s, Commit(w)))
  {
    var s' := Apply(c, s, Commit(w));
    if CommitEnabled(s, w) {
      assert AllFrozen(s.ledger.records, s.runs[w].todo);
      var i := s.runs[w].todo[0];
      ReduceConservesIff(s.ledger, i, Released);
      ReductionNeedsNoClamp(s.ledger, i);
      forall v | Live(s', v) && s'.runs[v].Draining? ensures AllFrozen(s'.ledger.records, s'.runs[v].todo) {
        AtMostOneLiveRun(c, s, v, w);
      }
    }
  }

  lemma SettleKeepsLedgers(c: Setting, s: State, p: nat, status: Status)
    requires Inv(c, s) && SettleEnabled(s, p) && OrderlySettlement(s, s.found[p]) && status != Frozen
    ensures TodoInv(SettleFound(s, p, status)) && LedgerInv(SettleFound(s, p, status))
  {
    var i, s' := s.found[p], SettleFound(s, p, status);
    ReduceConservesIff(s.ledger, i, status);
    ReductionNeedsNoClamp(s.ledger, i);
    forall v | Live(s', v) && s'.runs[v].Draining? ensures AllFrozen(s'.ledger.records, s'.runs[v].todo) {
      assert Live(s, v) && AllFrozen(s.ledger.records, s.runs[v].todo);
      assert i !in s.runs[v].todo;
    }
  }

  lemma FreezeKeepsLedgers(c: Setting, s: State, user: nat, units: nat)
    requires Inv(c, s) && FreezeAgrees(ColumnsOf(s.ledger, user), units)
    ensures TodoInv(Apply(c, s, Freeze(user, units))) && LedgerInv(Apply(c, s, Freeze(user, units)))
  {
    var s' := Apply(c, s, Freeze(user, units));
    FreezeConservesIff(s.ledger, user, units, s.now);
    forall v | Live(s', v) && s'.runs[v].Draining? ensures AllFrozen(s'.ledger.records, s'.runs[v].todo) {
      assert Live(s, v) && AllFrozen(s.ledger.records, s.runs[v].todo);
    }
  }

  lemma SavingKeepsLedgers(c: Setting, s: State, step: Step)
    requires Inv(c, s) && Orderly(s, step)
    requires step.Find? || step.Rewrite? || step.Read? || step.Save?
    ensures TodoInv(Apply(c, s, step)) && LedgerInv(Apply(c, s, step))
  {
    var s' := Apply(c, s, step);
    StepConservesIff(c, s, step);
    assert s'.ledger.records == s.ledger.records && s'.runs == s.runs && s'.now == s.now;
    forall v | Live(s', v) && s'.runs[v].Draining? ensures AllFrozen(s'.ledger.records, s'.runs[v].todo) {
      assert Live(s, v) && AllFrozen(s.ledger.records, s.runs[v].todo);
    }
  }

  lemma SelectKeepsLedgers(c: Setting, s: State, w: nat, cutoff: int)
    requires Inv(c, s)
    ensures TodoInv(Apply(c, s, Select(w, cutoff))) && LedgerInv(Apply(c, s, Select(w, cutoff)))
  {
    var s' := Apply(c, s, Select(w, cutoff));
    assert s'.ledger == s.ledger;
    forall v | Live(s', v) && s'.runs[v].Draining? ensures AllFrozen(s'.ledger.records, s'.runs[v].todo) {
      if s.runs[v].Draining? {
        assert Live(s, v) && AllFrozen(s.ledger.records, s.runs[v].todo);
      }
    }
  }

  // The pending lists of the other steps are those there were, or what is left of them.
  lemma OtherStepsKeepLedgers(c: Setting, s: State, step: Step)
    requires Inv(c, s) && !step.Commit? && !step.Select? && !OfRequest(step)
    ensures TodoInv(Apply(c, s, step)) && LedgerInv(Apply(c, s, step))
  {
    var s' := Apply(c, s, step);
    assert s'.ledger == s.ledger && s'.commits == s.commits && s'.clamped == s.clamped;
    forall v | Live(s', v) && s'.runs[v].Draining? ensures AllFrozen(s'.ledger.records, s'.runs[v].todo) {
      assert Live(s, v) && s.runs[v].Draining? && AllFrozen(s.ledger.records, s.runs[v].todo);
    }
  }

  lemma StepKeepsInv(c: Setting, s: State, step: Step)
    requires c.timeout <= c.ttl && Inv(c, s) && Orderly(s, step)
    ensures Inv(c, Apply(c, s, step))
  {
    StepKeepsLockInv(c, s, step);
    match step
    case Commit(w) => CommitKeepsLedgers(c, s, w);
    case Settle(p) =>
      if SettleEnabled(s, p) {
        SettleKeepsLedgers(c, s, p, Settled);
      }
    case Unfreeze(p) =>
      if SettleEnabled(s, p) {
        SettleKeepsLedgers(c, s, p, Released);
      }
    case Freeze(user, units) => FreezeKeepsLedgers(c, s, user, units);
    case Find(_, _) => SavingKeepsLedgers(c, s, step);
    case Rewrite(_) => SavingKeepsLedgers(c, s, step);
    case Read(_, _) => SavingKeepsLedgers(c, s, step);
    case Save(_) => SavingKeepsLedgers(c, s, step);
    case Select(w, cutoff) => SelectKeepsLedgers(c, s, w, cutoff);
    case _ => OtherStepsKeepLedgers(c, s, step);
  }

  lemma {:induction false} RunKeepsInv(c: Setting, s: State, steps: seq<Step>)
    requires c.timeout <= c.ttl && Inv(c, s) && OrderlyRun(c, s, steps)
    ensures Inv(c, Run(c, s, steps))
    decreases |steps|
  {
    if steps != [] {
      StepKeepsInv(c, s, steps[0]);
      RunKeepsInv(c, Apply(c, s, steps[0]), steps[1..]);
    }
  }

  /** Over every run of any number of replicas with orderly requests the ledger is conserved, the
      clamp never bites, no record is released twice, and at most one run is live. */
  lemma SchedulerConservesLedger(c: Setting, now: int, ledger: Ledger, steps: seq<Step>)
    requires c.timeout <= c.ttl && Conserved(ledger)
    requires OrderlyRun(c, Initial(now, ledger), steps)
    ensures var s := Run(c, Initial(now, ledger), steps);
      && Conserved(s.ledger)
      && !s.clamped
      && (forall j, k :: 0 <= j < k < |s.commits| ==> s.commits[j] != s.commits[k])
      && (forall v, w :: Live(s, v) && Live(s, w) ==> v == w)
  {
    RunKeepsInv(c, Initial(now, ledger), steps);
    var s := Run(c, Initial(now, ledger), steps);
    forall v, w | Live(s, v) && Live(s, w) ensures v == w {
      AtMostOneLiveRun(c, s, v, w);
    }
  }

  /** The clamp is noted exactly when a reduction takes off less than the record's amount. */
  lemma ClampIsNoted(s: State, i: nat, status: Status)
    requires i < |s.ledger.records| && !s.clamped
    ensures
      var r, s' := s.ledger.records[i], Reducing(s, i, status);
      s'.clamped <==> FrozenOf(s'.ledger, r.user) != FrozenOf(s.ledger, r.user) - r.amount
  {
  }

  /** A live run that finishes gives its lock back, so that the next can have it; a run whose lock has
      passed to another leaves that alone.  Either way it is over. */
  lemma FinishFreesTheLock(c: Setting, s: State, w: nat)
    requires LockInv(c, s) && w in s.runs && !s.runs[w].Waiting?
    ensures
      var s' := Apply(c, s, Finish(w));
      && w !in s'.runs
      && (Live(s, w) ==> LockFree(s'))
      && (s.lock.Some? && s.lock.value.token != s.runs[w].token ==> s'.lock == s.lock)
  {
  }

  /** What a step has dealt with is done: a request settles or saves once, a run attempts each record
      it has selected once, and a run that dies or does not get the lock is over. */
  lemma StepIsSpent(c: Setting, s: State, p: nat, w: nat)
    ensures SettleEnabled(s, p) ==> p !in Apply(c, s, Settle(p)).found && p !in Apply(c, s, Unfreeze(p)).found
    ensures p !in Apply(c, s, Save(p)).rows && w !in Apply(c, s, Crash(w)).runs
    ensures w in s.runs && s.runs[w].Draining? && s.runs[w].todo != [] ==>
      && Apply(c, s, Fail(w)).runs[w].todo == s.runs[w].todo[1..]
      && Apply(c, s, Fail(w)).ledger == s.ledger
      && (CommitEnabled(s, w) ==> Apply(c, s, Commit(w)).runs[w].todo == s.runs[w].todo[1..])
    ensures w in s.runs && s.runs[w].Waiting? ==>
      (w in Apply(c, s, Acquire(w)).runs <==> s.now < s.runs[w].deadline && LockFree(s))
  {
  }

  // ---------- Only old records are released ----------

  ghost predicate Aged(c: Setting, s: State, ids: seq<nat>) {
    forall k :: 0 <= k < |ids| ==>
      ids[k] < |s.ledger.records| && s.ledger.records[ids[k]].createdAt + c.grace < s.now
  }

  ghost predicate AgedInv(c: Setting, s: State) {
    Aged(c, s, s.commits) && forall w :: w in s.runs && s.runs[w].Draining? ==> Aged(c, s, s.runs[w].todo)
  }

  /** Records stay, with the time at which they were created. */
  ghost predicate KeepsTimes(s: State, s': State) {
    && s.now <= s'.now && |s.ledger.records| <= |s'.ledger.records|
    && forall i :: 0 <= i < |s.ledger.records| ==>
         s'.ledger.records[i].createdAt == s.ledger.records[i].createdAt
  }

  lemma StepKeepsTimes(c: Setting, s: State, step: Step)
    ensures KeepsTimes(s, Apply(c, s, step))
  {
  }

  lemma StaysAged(c: Setting, s: State, s': State, ids: seq<nat>, rest: seq<nat>)
    requires KeepsTimes(s, s') && Aged(c, s, ids) && forall x :: x in rest ==> x in ids
    ensures Aged(c, s', rest)
  {
    forall k: nat | k < |rest|
      ensures rest[k] < |s'.ledger.records| && s'.ledger.records[rest[k]].createdAt + c.grace < s'.now
    {
      assert rest[k] in rest;
      var j: nat :| j < |ids| && ids[j] == rest[k];
    }
  }

  lemma SelectIsAged(c: Setting, s: State, w: nat, cutoff: int)
    requires AgedInv(c, s)
    ensures AgedInv(c, Apply(c, s, Select(w, cutoff)))
  {
    var s' := Apply(c, s, Select(w, cutoff));
    forall v | v in s'.runs && s'.runs[v].Draining? ensures Aged(c, s', s'.runs[v].todo) {
      assert s'.ledger == s.ledger && s'.now == s.now;
    }
  }

  lemma StepKeepsAged(c: Setting, s: State, step: Step)
    requires AgedInv(c, s)
    ensures AgedInv(c, Apply(c, s, step))
  {
    if step.Select? {
      SelectIsAged(c, s, step.w, step.cutoff);
    } else {
      var s' := Apply(c, s, step);
      StepKeepsTimes(c, s, step);
      forall v | v in s'.runs && s'.runs[v].Draining? ensures Aged(c, s', s'.runs[v].todo) {
        assert v in s.runs && s.runs[v].Draining?;
        StaysAged(c, s, s', s.runs[v].todo, s'.runs[v].todo);
      }
      StaysAged(c, s, s', s.commits, s.commits);
      if step.Commit? && CommitEnabled(s, step.w) {
        StaysAged(c, s, s', s.runs[step.w].todo, [s.runs[step.w].todo[0]]);
      }
    }
  }

  lemma {:induction false} RunKeepsAged(c: Setting, s: State, steps: seq<Step>)
    requires AgedInv(c, s)
    ensures AgedInv(c, Run(c, s, steps))
    decreases |steps|
  {
    if steps != [] {
      StepKeepsAged(c, s, steps[0]);
      RunKeepsAged(c, Apply(c, s, steps[0]), steps[1..]);
    }
  }

  /** In no run, whatever requests do, has the scheduler released a record less than five minutes old. */
  lemma OnlyOldRecordsAreReleased(now: int, ledger: Ledger, steps: seq<Step>, k: nat)
    requires k < |Run(CODE, Initial(now, ledger), steps).commits|
    ensures
      var s := Run(CODE, Initial(now, ledger), steps);
      s.commits[k] < |s.ledger.records| && s.ledger.records[s.commits[k]].createdAt + 5 * 60 * 1000 < s.now
  {
    RunKeepsAged(CODE, Initial(now, ledger), steps);
  }

  // ---------- Runs that lose the ledger ----------

  /** What requests do during a run besides the scheduler's own steps. */
  datatype Requests = Requests(freeze: bool, settle: bool, rewrite: bool, save: bool)

  const NONE := Requests(false, false, false, false)

  predicate OfKinds(q: Requests, step: Step) {
    && (step.Freeze? ==> q.freeze) && (step.Find? ==> q.settle)
    && (step.Rewrite? ==> q.rewrite) && (step.Save? ==> q.save)
  }

  predicate Within(q: Requests, steps: seq<Step>) {
    forall k :: 0 <= k < |steps| ==> OfKinds(q, steps[k])
  }

  /** One expired and one recent record of the same user, one credit each. */
  function TwoRecords(c: Setting): Ledger {
    Ledger([FreezeRecord(0, 1, UNITS_PER_CREDIT, Frozen, -c.grace - 1),
            FreezeRecord(0, 1, UNITS_PER_CREDIT, Frozen, 0)],
           map[0 := Columns(2, 2 * UNITS_PER_CREDIT)])
  }

  lemma SumOfTwo(records: seq<FreezeRecord>, user: nat)
    requires |records| == 2
    ensures SumFrozen(records, user) == Contribution(records[0], user) + Contribution(records[1], user)
  {
    assert records[..1] == [records[0]] && [records[0]][..0] == [];
    assert SumFrozen([records[0]], user) == Contribution(records[0], user);
  }

  lemma TwoRecordsConserved(c: Setting)
    ensures Conserved(TwoRecords(c)) && ColumnsAgree(TwoRecords(c))
  {
    forall user ensures SumFrozen(TwoRecords(c).records, user) == if user == 0 then 2 else 0 {
      SumOfTwo(TwoRecords(c).records, user);
    }
  }

  lemma OldRecordIsSelected(c: Setting)
    requires 0 <= c.grace
    ensures Snapshot(TwoRecords(c).records, -c.grace, 2) == [0]
  {
    var records := TwoRecords(c).records;
    assert Snapshot(records, -c.grace, 1) == [0];
  }

  lemma RunStep(c: Setting, s: State, steps: seq<Step>, i: nat) returns (s': State)
    requires i < |steps|
    ensures s' == Apply(c, s, steps[i])
    ensures Run(c, s, steps[i..]) == Run(c, s', steps[i + 1..])
  {
    s' := Apply(c, s, steps[i]);
    assert steps[i..][1..] == steps[i + 1..];
  }

  lemma ReplicaAcquires(c: Setting, s: State, steps: seq<Step>, i: nat, w: nat) returns (s': State)
    requires i + 2 <= |steps| && 0 < c.timeout
    requires steps[i] == Begin(w) && steps[i + 1] == Acquire(w)
    requires w !in s.runs && LockFree(s)
    ensures Run(c, s, steps[i..]) == Run(c, s', steps[i + 2..])
    ensures s' == s.(lock := Some(Lease(s.nextToken, s.now + c.ttl)), nextToken := s.nextToken + 1,
                     runs := s.runs[w := Holding(s.nextToken, s.now + c.timeout)])
  {
    var s1 := RunStep(c, s, steps, i);
    s' := RunStep(c, s1, steps, i + 1);
    assert s.runs[w := Waiting(s.now + c.timeout)][w := Holding(s.nextToken, s.now + c.timeout)]
        == s.runs[w := Holding(s.nextToken, s.now + c.timeout)];
  }

  /** A free lock is taken and the old record selected, by replica w at time `now`. */
  lemma ReplicaSelects(c: Setting, s: State, steps: seq<Step>, i: nat, w: nat) returns (s': State)
    requires i + 3 <= |steps| && 0 <= c.grace && 0 < c.timeout && 0 <= s.now
    requires steps[i] == Begin(w) && steps[i + 1] == Acquire(w) && steps[i + 2] == Select(w, -c.grace)
    requires w !in s.runs && LockFree(s) && s.ledger == TwoRecords(c)
    ensures Run(c, s, steps[i..]) == Run(c, s', steps[i + 3..])
    ensures s' == s.(lock := Some(Lease(s.nextToken, s.now + c.ttl)), nextToken := s.nextToken + 1,
                     runs := s.runs[w := Draining(s.nextToken, s.now + c.timeout, [0])])
  {
    var s2 := ReplicaAcquires(c, s, steps, i, w);
    OldRecordIsSelected(c);
    s' := RunStep(c, s2, steps, i + 2);
    assert s'.runs == s.runs[w := Draining(s.nextToken, s.now + c.timeout, [0])];
  }

  lemma ReplicaCommits(c: Setting, s: State, steps: seq<Step>, i: nat, w: nat) returns (s': State)
    requires i < |steps| && steps[i] == Commit(w)
    requires Live(s, w) && s.runs[w].Draining? && s.runs[w].todo == [0] && |s.ledger.records| == 2
    ensures Run(c, s, steps[i..]) == Run(c, s', steps[i + 1..])
    ensures s'.ledger == Release(s.ledger, 0) && s'.now == s.now && s'.commits == s.commits + [0]
    ensures s'.rows == s.rows
    ensures forall v :: v != w && v in s.runs ==> v in s'.runs && s'.runs[v] == s.runs[v]
  {
    s' := RunStep(c, s, steps, i);
  }

  lemma TwiceReduced(c: Setting, first: Status)
    requires first != Frozen
    ensures !Conserved(Release(Reduce(TwoRecords(c), 0, first), 0))
  {
    var l := TwoRecords(c);
    TwoRecordsConserved(c);
    ReduceConservesIff(l, 0, first);
    ReduceConservesIff(Reduce(l, 0, first), 0, Released);
  }

  ghost predicate Loses(c: Setting, steps: seq<Step>) {
    !Conserved(Run(c, Initial(0, TwoRecords(c)), steps).ledger)
  }

  /** Replica 0 selects; its lock runs out before its context; replica 1 selects too; both commit. */
  ghost predicate Overlap(c: Setting, steps: seq<Step>) {
    && |steps| == 9
    && steps[0] == Begin(0) && steps[1] == Acquire(0) && steps[2] == Select(0, -c.grace) && steps[3] == Tick(c.ttl)
    && steps[4] == Begin(1) && steps[5] == Acquire(1) && steps[6] == Select(1, -c.grace)
    && steps[7] == Commit(0) && steps[8] == Commit(1)
  }

  lemma OverlapSteps(c: Setting) returns (steps: seq<Step>)
    ensures Overlap(c, steps) && Within(NONE, steps)
  {
    steps := [Begin(0), Acquire(0), Select(0, -c.grace), Tick(c.ttl),
              Begin(1), Acquire(1), Select(1, -c.grace), Commit(0), Commit(1)];
  }

  /** If the context may outlive the lock, two replicas release one record. */
  lemma LongerDeadlineLosesLedger(c: Setting) returns (steps: seq<Step>)
    requires 0 <= c.ttl < c.timeout && 0 <= c.grace
    ensures Within(NONE, steps) && Loses(c, steps)
    ensures Run(c, Initial(0, TwoRecords(c)), steps).commits == [0, 0]
  {
    steps := OverlapSteps(c);
    var s0 := Initial(0, TwoRecords(c));
    var s3 := ReplicaSelects(c, s0, steps, 0, 0);
    var s4 := RunStep(c, s3, steps, 3);
    var s7 := ReplicaSelects(c, s4, steps, 4, 1);
    var s8 := ReplicaCommits(c, s7, steps, 7, 0);
    var s9 := ReplicaCommits(c, s8, steps, 8, 1);
    assert steps[9..] == [] && steps[0..] == steps;
    assert Run(c, s0, steps) == s9;
    TwiceReduced(c, Released);
  }

  ghost predicate FreezeAfterRelease(c: Setting, steps: seq<Step>) {
    && |steps| == 5
    && steps[0] == Begin(0) && steps[1] == Acquire(0) && steps[2] == Select(0, -c.grace)
    && steps[3] == Commit(0) && steps[4] == Freeze(0, UNITS_PER_CREDIT)
  }

  lemma FreezeAfterReleaseSteps(c: Setting) returns (steps: seq<Step>)
    ensures FreezeAfterRelease(c, steps) && Within(NONE.(freeze := true), steps)
  {
    steps := [Begin(0), Acquire(0), Select(0, -c.grace), Commit(0), Freeze(0, UNITS_PER_CREDIT)];
  }

  /** Under any setting, the code's included, the first freeze after a release loses the ledger. */
  lemma FreezeAfterReleaseLosesLedger(c: Setting) returns (steps: seq<Step>)
    requires 0 < c.timeout && 0 <= c.grace
    ensures Within(NONE.(freeze := true), steps) && Loses(c, steps)
  {
    steps := FreezeAfterReleaseSteps(c);
    var s0 := Initial(0, TwoRecords(c));
    var s3 := ReplicaSelects(c, s0, steps, 0, 0);
    var s4 := ReplicaCommits(c, s3, steps, 3, 0);
    var s5 := RunStep(c, s4, steps, 4);
    assert steps[5..] == [] && steps[0..] == steps;
    assert Run(c, s0, steps) == s5;
    TwoRecordsConserved(c);
    ReduceConservesIff(TwoRecords(c), 0, Released);
    assert ColumnsOf(s4.ledger, 0) == Columns(1, 2 * UNITS_PER_CREDIT);
    FreezeConservesIff(s4.ledger, 0, UNITS_PER_CREDIT, s4.now);
  }

  ghost predicate RewriteAfterRelease(c: Setting, steps: seq<Step>) {
    && |steps| == 5
    && steps[0] == Begin(0) && steps[1] == Acquire(0) && steps[2] == Select(0, -c.grace)
    && steps[3] == Commit(0) && steps[4] == Rewrite(0)
  }

  lemma RewriteAfterReleaseSteps(c: Setting) returns (steps: seq<Step>)
    ensures RewriteAfterRelease(c, steps) && Within(NONE.(rewrite := true), steps)
  {
    steps := [Begin(0), Acquire(0), Select(0, -c.grace), Commit(0), Rewrite(0)];
  }

  /** So does the first recharge, deduction or adjustment. */
  lemma RewriteAfterReleaseLosesLedger(c: Setting) returns (steps: seq<Step>)
    requires 0 < c.timeout && 0 <= c.grace
    ensures Within(NONE.(rewrite := true), steps) && Loses(c, steps)
  {
    steps := RewriteAfterReleaseSteps(c);
    var s0 := Initial(0, TwoRecords(c));
    var s3 := ReplicaSelects(c, s0, steps, 0, 0);
    var s4 := ReplicaCommits(c, s3, steps, 3, 0);
    var s5 := RunStep(c, s4, steps, 4);
    assert steps[5..] == [] && steps[0..] == steps;
    assert Run(c, s0, steps) == s5;
    TwoRecordsConserved(c);
    ReduceConservesIff(TwoRecords(c), 0, Released);
    assert ColumnsOf(s4.ledger, 0) == Columns(1, 2 * UNITS_PER_CREDIT);
    RewriteConservesIff(s4.ledger, 0);
  }

  ghost predicate SaveAfterRelease(c: Setting, steps: seq<Step>) {
    && |steps| == 6
    && steps[0] == Read(1, 0)
    && steps[1] == Begin(0) && steps[2] == Acquire(0) && steps[3] == Select(0, -c.grace)
    && steps[4] == Commit(0) && steps[5] == Save(1)
  }

  lemma SaveAfterReleaseSteps(c: Setting) returns (steps: seq<Step>)
    ensures SaveAfterRelease(c, steps) && Within(NONE.(save := true), steps)
  {
    steps := [Read(1, 0), Begin(0), Acquire(0), Select(0, -c.grace), Commit(0), Save(1)];
  }

  /** So does a payment's callback that has read the row before the release. */
  lemma SaveAfterReleaseLosesLedger(c: Setting) returns (steps: seq<Step>)
    requires 0 < c.timeout && 0 <= c.grace
    ensures Within(NONE.(save := true), steps) && Loses(c, steps)
  {
    steps := SaveAfterReleaseSteps(c);
    var s0 := Initial(0, TwoRecords(c));
    var s1 := RunStep(c, s0, steps, 0);
    assert s1 == s0.(rows := map[1 := Row(0, Columns(2, 2 * UNITS_PER_CREDIT))]);
    var s4 := ReplicaSelects(c, s1, steps, 1, 0);
    var s5 := ReplicaCommits(c, s4, steps, 4, 0);
    var s6 := RunStep(c, s5, steps, 5);
    assert steps[6..] == [] && steps[0..] == steps;
    assert Run(c, s0, steps) == s6;
    TwoRecordsConserved(c);
    ReduceConservesIff(TwoRecords(c), 0, Released);
    PutConservesIff(s5.ledger, 0, Columns(2, 2 * UNITS_PER_CREDIT));
  }

  ghost predicate TwoSettlements(steps: seq<Step>) {
    && |steps| == 4
    && steps[0] == Find(0, 0) && steps[1] == Find(1, 0) && steps[2] == Settle(0) && steps[3] == Unfreeze(1)
  }

  lemma TwoSettlementsSteps() returns (steps: seq<Step>)
    ensures TwoSettlements(steps) && Within(NONE.(settle := true), steps)
  {
    steps := [Find(0, 0), Find(1, 0), Settle(0), Unfreeze(1)];
  }

  /** Two requests that both read a record as FROZEN reduce its owner's amount twice. */
  lemma TwoSettlementsLoseLedger(c: Setting) returns (steps: seq<Step>)
    ensures Within(NONE.(settle := true), steps) && Loses(c, steps)
  {
    steps := TwoSettlementsSteps();
    var s0 := Initial(0, TwoRecords(c));
    var s1 := RunStep(c, s0, steps, 0);
    var s2 := RunStep(c, s1, steps, 1);
    var s3 := RunStep(c, s2, steps, 2);
    assert s3.ledger == Reduce(TwoRecords(c), 0, Settled) && 1 in s3.found && s3.found[1] == 0;
    var s4 := RunStep(c, s3, steps, 3);
    assert s4.ledger == Release(s3.ledger, 0);
    assert steps[4..] == [] && steps[0..] == steps;
    assert Run(c, s0, steps) == s4;
    TwiceReduced(c, Settled);
  }

  ghost predicate SettledWhileSelected(c: Setting, steps: seq<Step>) {
    && |steps| == 6
    && steps[0] == Begin(0) && steps[1] == Acquire(0) && steps[2] == Select(0, -c.grace)
    && steps[3] == Find(0, 0) && steps[4] == Settle(0) && steps[5] == Commit(0)
  }

  lemma SettledWhileSelectedSteps(c: Setting) returns (steps: seq<Step>)
    ensures SettledWhileSelected(c, steps) && Within(NONE.(settle := true), steps)
  {
    steps := [Begin(0), Acquire(0), Select(0, -c.grace), Find(0, 0), Settle(0), Commit(0)];
  }

  /** A record settled between its selection and its release is taken off twice. */
  lemma SettledWhileSelectedLosesLedger(c: Setting) returns (steps: seq<Step>)
    requires 0 < c.timeout && 0 <= c.grace
    ensures Within(NONE.(settle := true), steps) && Loses(c, steps)
  {
    steps := SettledWhileSelectedSteps(c);
    var s0 := Initial(0, TwoRecords(c));
    var s3 := ReplicaSelects(c, s0, steps, 0, 0);
    var s4 := RunStep(c, s3, steps, 3);
    var s5 := RunStep(c, s4, steps, 4);
    assert s5.ledger == Reduce(TwoRecords(c), 0, Settled) && s5.runs == s3.runs && s5.now == s3.now;
    var s6 := ReplicaCommits(c, s5, steps, 5, 0);
    assert steps[6..] == [] && steps[0..] == steps;
    assert Run(c, s0, steps) == s6;
    TwiceReduced(c, Settled);
  }

  // ---------- When every run conserves the ledger ----------

  lemma {:induction false} SchedulerAloneIsOrderly(c: Setting, s: State, steps: seq<Step>)
    requires Within(NONE, steps) && s.found == map[]
    ensures OrderlyRun(c, s, steps)
    decreases |steps|
  {
    if steps != [] {
      var rest := steps[1..];
      assert forall k :: 0 <= k < |rest| ==> rest[k] == steps[k + 1];
      SchedulerAloneIsOrderly(c, Apply(c, s, steps[0]), rest);
    }
  }

  /** Every run conserves every ledger that is conserved and whose columns agree, when requests do
      no more than q says during the run. */
  ghost predicate AlwaysConserved(c: Setting, q: Requests) {
    forall now, ledger, steps :: Conserved(ledger) && ColumnsAgree(ledger) && Within(q, steps)
      ==> Conserved(Run(c, Initial(now, ledger), steps).ledger)
  }

  lemma LosesNotAlways(c: Setting, p: Requests, q: Requests, steps: seq<Step>)
    requires Within(p, steps) && Loses(c, steps)
    requires (p.freeze ==> q.freeze) && (p.settle ==> q.settle) && (p.rewrite ==> q.rewrite) && (p.save ==> q.save)
    ensures !AlwaysConserved(c, q)
  {
    TwoRecordsConserved(c);
    assert Within(q, steps);
  }

  /**
    For sensible settings every run conserves the ledger exactly when the context deadline is no
    longer than the lock's time to live and meanwhile requests do nothing that touches a balance row.
  */
  lemma AlwaysConservedIff(c: Setting, q: Requests)
    requires 0 <= c.ttl && 0 <= c.grace && 0 < c.timeout
    ensures AlwaysConserved(c, q) <==> c.timeout <= c.ttl && q == NONE
  {
    if c.timeout > c.ttl {
      var steps := LongerDeadlineLosesLedger(c);
      LosesNotAlways(c, NONE, q, steps);
    } else if q.freeze {
      var steps := FreezeAfterReleaseLosesLedger(c);
      LosesNotAlways(c, NONE.(freeze := true), q, steps);
    } else if q.settle {
      var steps := TwoSettlementsLoseLedger(c);
      LosesNotAlways(c, NONE.(settle := true), q, steps);
    } else if q.rewrite {
      var steps := RewriteAfterReleaseLosesLedger(c);
      LosesNotAlways(c, NONE.(rewrite := true), q, steps);
    } else if q.save {
      var steps := SaveAfterReleaseLosesLedger(c);
      LosesNotAlways(c, NONE.(save := true), q, steps);
    } else {
      SchedulerAloneConserves(c);
    }
  }

  lemma SchedulerAloneConserves(c: Setting)
    requires c.timeout <= c.ttl
    ensures AlwaysConserved(c, NONE)
  {
    forall now, ledger, steps | Conserved(ledger) && Within(NONE, steps)
      ensures Conserved(Run(c, Initial(now, ledger), steps).ledger)
    {
      SchedulerAloneIsOrderly(c, Initial(now, ledger), steps);
      SchedulerConservesLedger(c, now, ledger, steps);
    }
  }

  ghost predicate OrderlyConserved(c: Setting) {
    forall now, ledger, steps :: Conserved(ledger) && OrderlyRun(c, Initial(now, ledger), steps)
      ==> Conserved(Run(c, Initial(now, ledger), steps).ledger)
  }

  /** With orderly requests it is the deadline and the lock alone that decide. */
  lemma OrderlyConservedIff(c: Setting)
    requires 0 <= c.ttl && 0 <= c.grace && 0 < c.timeout
    ensures OrderlyConserved(c) <==> c.timeout <= c.ttl
  {
    if c.timeout <= c.ttl {
      forall now, ledger, steps | Conserved(ledger) && OrderlyRun(c, Initial(now, ledger), steps)
        ensures Conserved(Run(c, Initial(now, ledger), steps).ledger)
      {
        SchedulerConservesLedger(c, now, ledger, steps);
      }
    } else {
      TwoRecordsConserved(c);
      var steps := LongerDeadlineLosesLedger(c);
      SchedulerAloneIsOrderly(c, Initial(0, TwoRecords(c)), steps);
    }
  }

  /** The code's ten-minute deadline and ten-minute lock pass that test.  A freeze or a recharge after
      a release, a settlement of a selected record and a payment's callback still lose the ledger. */
  lemma CodeConservesOrderlyRuns()
      returns (freezing: seq<Step>, settling: seq<Step>, rewriting: seq<Step>, saving: seq<Step>)
    ensures CODE == Setting(10 * 60 * 1000, 10 * 60 * 1000, 5 * 60 * 1000) && OrderlyConserved(CODE)
    ensures Conserved(TwoRecords(CODE)) && ColumnsAgree(TwoRecords(CODE))
    ensures Within(NONE.(freeze := true), freezing) && Loses(CODE, freezing)
    ensures Within(NONE.(settle := true), settling) && Loses(CODE, settling)
    ensures Within(NONE.(rewrite := true), rewriting) && Loses(CODE, rewriting)
    ensures Within(NONE.(save := true), saving) && Loses(CODE, saving)
  {
    OrderlyConservedIff(CODE);
    TwoRecordsConserved(CODE);
    freezing := FreezeAfterReleaseLosesLedger(CODE);
    settling := SettledWhileSelectedLosesLedger(CODE);
    rewriting := RewriteAfterReleaseLosesLedger(CODE);
    saving := SaveAfterReleaseLosesLedger(CODE);
  }

  // ---------- What the units column does to it ----------

  /** A callback puts back the columns there are: nothing has been written to the row since it read it. */
  predicate KeepsUnits(s: State, step: Step) {
    step.Save? && step.p in s.rows ==> s.rows[step.p].columns == ColumnsOf(s.ledger, s.rows[step.p].user)
  }

  predicate UnitsKept(c: Setting, s: State, steps: seq<Step>)
    decreases |steps|
  {
    steps == [] || (KeepsUnits(s, steps[0]) && UnitsKept(c, Apply(c, s, steps[0]), steps[1..]))
  }

  lemma SavingKeepsUnits(s: State, p: nat)
    requires UnitsAccumulate(s.ledger) && KeepsUnits(s, Save(p)) && p in s.rows
    ensures UnitsAccumulate(Put(s.ledger, s.rows[p].user, s.rows[p].columns))
  {
    var l' := Put(s.ledger, s.rows[p].user, s.rows[p].columns);
    forall u ensures UnitsOfUser(l', u) {
      assert UnitsOfUser(s.ledger, u) && ColumnsOf(l', u) == ColumnsOf(s.ledger, u);
    }
  }

  lemma StepKeepsUnits(c: Setting, s: State, step: Step)
    requires UnitsAccumulate(s.ledger) && KeepsUnits(s, step)
    ensures UnitsAccumulate(Apply(c, s, step).ledger)
  {
    match step
    case Rewrite(user) => RewriteRevivesEverything(s.ledger, user);
    case Save(p) =>
      if p in s.rows {
        SavingKeepsUnits(s, p);
      }
    case Freeze(user, units) => FreezeRevivesEverything(s.ledger, user, units, s.now);
    case Settle(p) =>
      if SettleEnabled(s, p) {
        ReductionsKeepUnits(s.ledger, s.found[p], Settled);
      }
    case Unfreeze(p) =>
      if SettleEnabled(s, p) {
        ReductionsKeepUnits(s.ledger, s.found[p], Released);
      }
    case Commit(w) =>
      if CommitEnabled(s, w) {
        ReductionsKeepUnits(s.ledger, s.runs[w].todo[0], Released);
      }
    case _ =>
  }

  lemma {:induction false} RunKeepsUnits(c: Setting, s: State, steps: seq<Step>)
    requires UnitsAccumulate(s.ledger) && UnitsKept(c, s, steps)
    ensures UnitsAccumulate(Run(c, s, steps).ledger)
    decreases |steps|
  {
    if steps != [] {
      StepKeepsUnits(c, s, steps[0]);
      RunKeepsUnits(c, Apply(c, s, steps[0]), steps[1..]);
    }
  }

  /** After any run from an empty ledger in which no callback saves an outdated row, a freeze, a
      recharge, a deduction or an adjustment leaves its user with the rounded total of everything that
      user ever froze, released and settled records included. */
  lemma EveryWriteRevives(c: Setting, now: int, steps: seq<Step>, user: nat, units: nat)
    requires UnitsKept(c, Initial(now, Ledger([], map[])), steps)
    ensures
      var s := Run(c, Initial(now, Ledger([], map[])), steps);
      var frozen, rewritten := Apply(c, s, Freeze(user, units)).ledger, Apply(c, s, Rewrite(user)).ledger;
      && (units > 0 ==> FrozenOf(frozen, user) == ToCredits(SumUnits(frozen.records, user)))
      && FrozenOf(rewritten, user) == ToCredits(SumUnits(s.ledger.records, user))
  {
    var s := Run(c, Initial(now, Ledger([], map[])), steps);
    RunKeepsUnits(c, Initial(now, Ledger([], map[])), steps);
    FreezeRevivesEverything(s.ledger, user, units, s.now);
    RewriteRevivesEverything(s.ledger, user);
  }
}
