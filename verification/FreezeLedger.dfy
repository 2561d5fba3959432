/**
  Freeze records and the frozen amounts of user balances: releaseFrozenRecords of
  internal/cron/scheduler.go, and FreezeBalanceUnits, SettleBalance, ReleaseFrozen, RechargeUnits,
  DeductUnits and AdminAdjust of internal/service/balance/balance_service.go.  A record's id is
  its position in the table.

  A balance row holds the frozen amount twice, in credits and in billing units.
*/
module FreezeLedger {
  import opened Common

  const UNITS_PER_CREDIT: int := 10000

  datatype Status = Frozen | Settled | Released

  /** `amount` is in credits, `units` in billing units. */
  datatype FreezeRecord = FreezeRecord(user: nat, amount: nat, units: nat, status: Status, createdAt: int)

  datatype Columns = Columns(credits: int, units: int)

  datatype Ledger = Ledger(records: seq<FreezeRecord>, balances: map<nat, Columns>)

  function ColumnsOf(l: Ledger, user: nat): Columns {
    if user in l.balances then l.balances[user] else Columns(0, 0)
  }

  function FrozenOf(l: Ledger, user: nat): int {
    ColumnsOf(l, user).credits
  }

  function Contribution(r: FreezeRecord, user: nat): nat {
    if r.user == user && r.status == Frozen then r.amount else 0
  }

  function SumFrozen(records: seq<FreezeRecord>, user: nat): nat {
    if records == [] then 0
    else SumFrozen(records[..|records| - 1], user) + Contribution(records[|records| - 1], user)
  }

  /** Every user's frozen amount is the sum of that user's FROZEN records. */
  ghost predicate Conserved(l: Ledger) {
    forall user :: FrozenOf(l, user) == SumFrozen(l.records, user)
  }

  /** The two columns of every user say the same. */
  ghost predicate ColumnsAgree(l: Ledger) {
    forall user :: ColumnsOf(l, user).units == ColumnsOf(l, user).credits * UNITS_PER_CREDIT
  }

  // ---------- Reductions ----------

  /** GREATEST(frozen_amount - ?, 0) */
  function Reduced(frozen: int, amount: nat): int {
    if frozen - amount < 0 then 0 else frozen - amount
  }

  /**
    What the transactions of the scheduler's release, of a settlement and of a release on
    request have in common.  None of them looks at the record's status, or touches the units.
  */
  function Reduce(l: Ledger, i: nat, status: Status): Ledger
    requires i < |l.records|
  {
    var r := l.records[i];
    var c := ColumnsOf(l, r.user);
    Ledger(l.records[i := r.(status := status)], l.balances[r.user := c.(credits := Reduced(c.credits, r.amount))])
  }

  function Release(l: Ledger, i: nat): Ledger
    requires i < |l.records|
  {
    Reduce(l, i, Released)
  }

  /** The record is still FROZEN, or holds nothing, or its owner has nothing frozen any more. */
  predicate ReductionAgrees(l: Ledger, i: nat)
    requires i < |l.records|
  {
    l.records[i].status == Frozen || l.records[i].amount == 0 || FrozenOf(l, l.records[i].user) == 0
  }

  lemma {:induction false} SumAfterUpdate(records: seq<FreezeRecord>, i: nat, r: FreezeRecord, user: nat)
    requires i < |records|
    ensures SumFrozen(records[i := r], user)
         == SumFrozen(records, user) - Contribution(records[i], user) + Contribution(r, user)
  {
    var last := |records| - 1;
    if i < last {
      SumAfterUpdate(records[..last], i, r, user);
      assert records[i := r][..last] == records[..last][i := r];
    } else {
      assert records[i := r][..last] == records[..last];
    }
  }

  lemma {:induction false} SumCoversRecord(records: seq<FreezeRecord>, i: nat, user: nat)
    requires i < |records|
    ensures Contribution(records[i], user) <= SumFrozen(records, user)
  {
    if i < |records| - 1 {
      SumCoversRecord(records[..|records| - 1], i, user);
    }
  }

  /** What a reduction does to one user's two sides of the ledger. */
  lemma ReduceEffect(l: Ledger, i: nat, status: Status, user: nat)
    requires Conserved(l) && i < |l.records| && status != Frozen
    ensures SumFrozen(Reduce(l, i, status).records, user)
         == SumFrozen(l.records, user) - Contribution(l.records[i], user)
    ensures FrozenOf(Reduce(l, i, status), user)
         == if user == l.records[i].user then Reduced(SumFrozen(l.records, user), l.records[i].amount)
            else SumFrozen(l.records, user)
  {
    SumAfterUpdate(l.records, i, l.records[i].(status := status), user);
  }

  /** A release or a settlement keeps the ledger exactly under this condition. */
  lemma ReduceConservesIff(l: Ledger, i: nat, status: Status)
    requires Conserved(l) && i < |l.records| && status != Frozen
    ensures Conserved(Reduce(l, i, status)) <==> ReductionAgrees(l, i)
  {
    var r := l.records[i];
    var l' := Reduce(l, i, status);
    ReduceEffect(l, i, status, r.user);
    SumCoversRecord(l.records, i, r.user);
    if ReductionAgrees(l, i) {
      forall user ensures FrozenOf(l', user) == SumFrozen(l'.records, user) {
        ReduceEffect(l, i, status, user);
      }
    } else {
      assert FrozenOf(l', r.user) != SumFrozen(l'.records, r.user);
    }
  }

  /** On a FROZEN record the clamp at 0 never comes into play. */
  lemma ReductionNeedsNoClamp(l: Ledger, i: nat)
    requires Conserved(l) && i < |l.records| && l.records[i].status == Frozen
    ensures FrozenOf(l, l.records[i].user) >= l.records[i].amount
  {
    SumCoversRecord(l.records, i, l.records[i].user);
  }

  // ---------- Writing a balance row back ----------

  function Put(l: Ledger, user: nat, c: Columns): Ledger {
    l.(balances := l.balances[user := c])
  }

  lemma PutConservesIff(l: Ledger, user: nat, c: Columns)
    requires Conserved(l)
    ensures Conserved(Put(l, user, c)) <==> c.credits == FrozenOf(l, user)
  {
    if c.credits == FrozenOf(l, user) {
      forall u ensures FrozenOf(Put(l, user, c), u) == SumFrozen(l.records, u) {
      }
    } else {
      assert FrozenOf(Put(l, user, c), user) != SumFrozen(l.records, user);
    }
  }

  // ---------- Freezes ----------

  /** BillingUnitsToCredits: to the nearest credit, halves away from zero. */
  function ToCredits(units: int): int {
    if units >= 0 then (units + UNITS_PER_CREDIT / 2) / UNITS_PER_CREDIT
    else -((UNITS_PER_CREDIT / 2 - units) / UNITS_PER_CREDIT)
  }

  /** `credits` is the number of credits nearest to `units`, at 10000 to the credit; a tie goes outward. */
  predicate Nearest(units: int, credits: int) {
    if units >= 0 then credits * 20000 - 10000 <= 2 * units < credits * 20000 + 10000
    else credits * 20000 - 10000 < 2 * units <= credits * 20000 + 10000
  }

  /** There is one such number for all units, and no other is nearer. */
  lemma ToCreditsIsNearest(units: int, credits: int)
    ensures Nearest(units, credits) <==> credits == ToCredits(units)
    ensures Apart(units, ToCredits(units) * 10000) <= Apart(units, credits * 10000)
    ensures 2 * Apart(units, ToCredits(units) * 10000) <= 10000
    ensures Apart(units, ToCredits(units) * 10000) == Apart(units, credits * 10000) && credits != ToCredits(units)
      ==> Apart(0, ToCredits(units)) > Apart(0, credits)
  {
  }

  function Apart(a: int, b: int): int {
    if a <= b then b - a else a - b
  }

  /** The units column as a freeze sees it: filled in from the credits only when it is 0. */
  function Hydrated(c: Columns): int {
    if c.units == 0 && c.credits > 0 then c.credits * UNITS_PER_CREDIT else c.units
  }

  /** The units grow, and the credits are computed from them. */
  function FreezeUnits(c: Columns, estimatedUnits: nat): Columns {
    Columns(ToCredits(Hydrated(c) + estimatedUnits), Hydrated(c) + estimatedUnits)
  }

  /** A request is admitted and freezes its estimate; a free request freezes nothing. */
  function AddFreeze(l: Ledger, user: nat, estimatedUnits: nat, now: int): Ledger {
    if estimatedUnits == 0 then l
    else
      var amount: int := ToCredits(estimatedUnits);
      Ledger(l.records + [FreezeRecord(user, amount, estimatedUnits, Frozen, now)],
             l.balances[user := FreezeUnits(ColumnsOf(l, user), estimatedUnits)])
  }

  /** The rounded units come to the credits before the freeze plus the record's own credits. */
  predicate FreezeAgrees(c: Columns, estimatedUnits: nat) {
    estimatedUnits == 0 || ToCredits(Hydrated(c) + estimatedUnits) == c.credits + ToCredits(estimatedUnits)
  }

  /** A freeze keeps the ledger exactly under this condition. */
  lemma FreezeConservesIff(l: Ledger, user: nat, estimatedUnits: nat, now: int)
    requires Conserved(l)
    ensures Conserved(AddFreeze(l, user, estimatedUnits, now)) <==> FreezeAgrees(ColumnsOf(l, user), estimatedUnits)
  {
    var l' := AddFreeze(l, user, estimatedUnits, now);
    if estimatedUnits > 0 {
      forall u ensures SumFrozen(l'.records, u)
                    == SumFrozen(l.records, u) + if u == user then ToCredits(estimatedUnits) else 0
      {
        assert l'.records[..|l.records|] == l.records;
      }
      if FreezeAgrees(ColumnsOf(l, user), estimatedUnits) {
        assert Conserved(l');
      } else {
        assert FrozenOf(l', user) != SumFrozen(l'.records, user);
      }
    }
  }

  /**
    For a freeze of whole credits the condition says that the columns agreed before it: one
    reduction since the last freeze is enough to break them apart.
  */
  lemma WholeFreezeAgreesIff(c: Columns, estimate: nat)
    requires 0 <= c.credits && 0 <= c.units && estimate > 0
    ensures FreezeAgrees(c, estimate * UNITS_PER_CREDIT) <==> c.units == 0 || ToCredits(c.units) == c.credits
  {
    assert ToCredits(estimate * UNITS_PER_CREDIT) == estimate;
    assert ToCredits(Hydrated(c) + estimate * UNITS_PER_CREDIT) == ToCredits(Hydrated(c)) + estimate;
  }

  /** The user's units have grown by `more`, from 10000 to the credit where the column was still 0, and
      the credits are the nearest to them; the other users' columns are as they were. */
  ghost predicate Resynced(before: Ledger, after: Ledger, user: nat, more: nat) {
    && ColumnsOf(after, user).units == more + (if ColumnsOf(before, user).units == 0 && FrozenOf(before, user) > 0
                                               then FrozenOf(before, user) * 10000 else ColumnsOf(before, user).units)
    && Nearest(ColumnsOf(after, user).units, FrozenOf(after, user))
    && forall other :: other != user ==> ColumnsOf(after, other) == ColumnsOf(before, other)
  }

  // ---------- Recharges, deductions and adjustments ----------

  /** They change the balance, and save the row with the frozen credits computed from the units. */
  function Rewritten(c: Columns): Columns {
    Columns(ToCredits(Hydrated(c)), Hydrated(c))
  }

  function Rewrite(l: Ledger, user: nat): Ledger {
    Put(l, user, Rewritten(ColumnsOf(l, user)))
  }

  /** The units are still to be filled in, or round to the credits there are. */
  predicate RewriteAgrees(c: Columns) {
    (c.units == 0 && c.credits >= 0) || ToCredits(c.units) == c.credits
  }

  /** A recharge, a deduction or an adjustment keeps the ledger exactly under this condition. */
  lemma RewriteConservesIff(l: Ledger, user: nat)
    requires Conserved(l)
    ensures Conserved(Rewrite(l, user)) <==> RewriteAgrees(ColumnsOf(l, user))
  {
    var c := ColumnsOf(l, user);
    PutConservesIff(l, user, Rewritten(c));
    if c.units == 0 && c.credits > 0 {
      assert ToCredits(c.credits * UNITS_PER_CREDIT) == c.credits;
    }
  }

  /** It is the condition under which any freeze of whole credits keeps the ledger. */
  lemma RewriteAgreesIffFreezesAgree(c: Columns, estimate: nat)
    requires 0 <= c.credits && 0 <= c.units && estimate > 0
    ensures RewriteAgrees(c) <==> FreezeAgrees(c, estimate * UNITS_PER_CREDIT)
  {
    WholeFreezeAgreesIff(c, estimate);
  }

  /** A second one changes nothing. */
  lemma RewriteTwice(l: Ledger, user: nat)
    ensures Rewrite(Rewrite(l, user), user) == Rewrite(l, user)
  {
    var c := ColumnsOf(l, user);
    if c.units == 0 && c.credits > 0 {
      assert ToCredits(c.credits * UNITS_PER_CREDIT) == c.credits;
    }
    assert Rewritten(Rewritten(c)) == Rewritten(c);
    var b: map<nat, Columns> := l.balances;
    assert b[user := Rewritten(c)][user := Rewritten(c)] == b[user := Rewritten(c)];
  }

  /** A freeze after a release brings the released credits back. */
  lemma NextFreezeRevivesRelease(frozen: nat, released: nat, estimate: nat)
    requires 0 < released <= frozen
    ensures var c := Columns(frozen - released, frozen * UNITS_PER_CREDIT);
      FreezeUnits(c, estimate * UNITS_PER_CREDIT).credits == frozen + estimate
  {
  }

  function SumUnits(records: seq<FreezeRecord>, user: nat): nat {
    if records == [] then 0
    else
      var r := records[|records| - 1];
      SumUnits(records[..|records| - 1], user) + if r.user == user then r.units else 0
  }

  /** The units column of every user is the total of all that was ever frozen, whatever became of it. */
  ghost predicate UnitsAccumulate(l: Ledger) {
    forall user :: UnitsOfUser(l, user)
  }

  predicate UnitsOfUser(l: Ledger, user: nat) {
    ColumnsOf(l, user).units == SumUnits(l.records, user) && (ColumnsOf(l, user).units == 0 ==> FrozenOf(l, user) <= 0)
  }

  lemma {:induction false} SumUnitsKeeps(records: seq<FreezeRecord>, i: nat, status: Status, user: nat)
    requires i < |records|
    ensures SumUnits(records[i := records[i].(status := status)], user) == SumUnits(records, user)
  {
    var last, r := |records| - 1, records[i].(status := status);
    if i < last {
      SumUnitsKeeps(records[..last], i, status, user);
      assert records[i := r][..last] == records[..last][i := r];
    } else {
      assert records[i := r][..last] == records[..last];
    }
  }

  lemma ReductionsKeepUnits(l: Ledger, i: nat, status: Status)
    requires UnitsAccumulate(l) && i < |l.records|
    ensures UnitsAccumulate(Reduce(l, i, status))
  {
    forall user ensures UnitsOfUser(Reduce(l, i, status), user) {
      assert UnitsOfUser(l, user);
      SumUnitsKeeps(l.records, i, status, user);
    }
  }

  /** Right after a freeze the frozen credits are the rounded total of everything ever frozen. */
  lemma FreezeRevivesEverything(l: Ledger, user: nat, estimatedUnits: nat, now: int)
    requires UnitsAccumulate(l)
    ensures UnitsAccumulate(AddFreeze(l, user, estimatedUnits, now))
    ensures estimatedUnits > 0 ==>
      var l' := AddFreeze(l, user, estimatedUnits, now);
      FrozenOf(l', user) == ToCredits(SumUnits(l'.records, user))
  {
    var l' := AddFreeze(l, user, estimatedUnits, now);
    if estimatedUnits > 0 {
      assert UnitsOfUser(l, user);
      assert l'.records[..|l.records|] == l.records;
      forall u ensures UnitsOfUser(l', u) {
        assert UnitsOfUser(l, u);
      }
    }
  }

  /** So they are right after a recharge, a deduction or an adjustment. */
  lemma RewriteRevivesEverything(l: Ledger, user: nat)
    requires UnitsAccumulate(l)
    ensures UnitsAccumulate(Rewrite(l, user))
    ensures FrozenOf(Rewrite(l, user), user) == ToCredits(SumUnits(l.records, user))
  {
    assert UnitsOfUser(l, user);
    forall u ensures UnitsOfUser(Rewrite(l, user), u) {
      assert UnitsOfUser(l, u);
    }
  }

  // ---------- One run of the task without interference ----------

  /** A record frozen at `now` is selected by exactly the runs whose cutoff lies later. */
  lemma FreshFreezeIsSpared(l: Ledger, user: nat, estimatedUnits: nat, now: int, cutoff: int)
    requires estimatedUnits > 0
    ensures var records := AddFreeze(l, user, estimatedUnits, now).records;
      |l.records| in Snapshot(records, cutoff, |records|) <==> now < cutoff
  {
  }

  predicate Expired(r: FreezeRecord, cutoff: int) {
    r.status == Frozen && r.createdAt < cutoff
  }

  /** Positions below n of the records the task selects. */
  function Snapshot(records: seq<FreezeRecord>, cutoff: int, n: nat): (todo: seq<nat>)
    requires n <= |records|
    ensures forall k :: 0 <= k < |todo| ==> todo[k] < n && Expired(records[todo[k]], cutoff)
    ensures forall j, k :: 0 <= j < k < |todo| ==> todo[j] < todo[k]
    ensures forall i :: 0 <= i < n && Expired(records[i], cutoff) ==> i in todo
  {
    if n == 0 then []
    else Snapshot(records, cutoff, n - 1) + if Expired(records[n - 1], cutoff) then [n - 1] else []
  }

  /** The ledger after the transactions of the first n selected records. */
  function ReleaseAll(l: Ledger, todo: seq<nat>, failing: set<nat>, n: nat): (l': Ledger)
    requires n <= |todo| && forall k :: 0 <= k < |todo| ==> todo[k] < |l.records|
    ensures |l'.records| == |l.records|
  {
    if n == 0 then l
    else
      var before := ReleaseAll(l, todo, failing, n - 1);
      if todo[n - 1] in failing then before else Release(before, todo[n - 1])
  }

  /** Positions whose release was committed by the first n transactions. */
  function Committed(todo: seq<nat>, failing: set<nat>, n: nat): set<nat>
    requires n <= |todo|
  {
    if n == 0 then {}
    else Committed(todo, failing, n - 1) + if todo[n - 1] in failing then {} else {todo[n - 1]}
  }

  lemma {:induction false} CommittedAre(todo: seq<nat>, failing: set<nat>, n: nat, i: nat)
    requires n <= |todo|
    ensures i in Committed(todo, failing, n) <==> i !in failing && i in todo[..n]
  {
    if n > 0 {
      CommittedAre(todo, failing, n - 1, i);
      assert todo[..n] == todo[..n - 1] + [todo[n - 1]];
    }
  }

  lemma {:induction false} ReleaseAllRecords(l: Ledger, todo: seq<nat>, failing: set<nat>, n: nat, i: nat)
    requires n <= |todo| && (forall k :: 0 <= k < |todo| ==> todo[k] < |l.records|) && i < |l.records|
    ensures ReleaseAll(l, todo, failing, n).records[i]
         == if i in Committed(todo, failing, n) then l.records[i].(status := Released) else l.records[i]
  {
    if n > 0 {
      ReleaseAllRecords(l, todo, failing, n - 1, i);
    }
  }

  lemma {:induction false} ReleaseAllConserves(l: Ledger, todo: seq<nat>, failing: set<nat>, n: nat)
    requires Conserved(l) && n <= |todo|
    requires forall k :: 0 <= k < |todo| ==> todo[k] < |l.records| && l.records[todo[k]].status == Frozen
    requires forall j, k :: 0 <= j < k < |todo| ==> todo[j] != todo[k]
    ensures Conserved(ReleaseAll(l, todo, failing, n))
  {
    if n > 0 {
      ReleaseAllConserves(l, todo, failing, n - 1);
      var i := todo[n - 1];
      CommittedAre(todo, failing, n - 1, i);
      ReleaseAllRecords(l, todo, failing, n - 1, i);
      ReduceConservesIff(ReleaseAll(l, todo, failing, n - 1), i, Released);
    }
  }

  /** The records a run releases: expired ones whose transaction does not fail. */
  function ToRelease(records: seq<FreezeRecord>, cutoff: int, failing: set<nat>): set<nat> {
    set i: nat | i < |records| && Expired(records[i], cutoff) && i !in failing
  }

  ghost predicate ReleasedExactly(before: seq<FreezeRecord>, after: seq<FreezeRecord>, cutoff: int, failing: set<nat>) {
    && |after| == |before|
    && forall i :: 0 <= i < |after| ==>
         after[i] == if i in ToRelease(before, cutoff, failing) then before[i].(status := Released) else before[i]
  }

  lemma SnapshotCommits(records: seq<FreezeRecord>, cutoff: int, failing: set<nat>)
    ensures var todo := Snapshot(records, cutoff, |records|);
      Committed(todo, failing, |todo|) == ToRelease(records, cutoff, failing)
  {
    var todo := Snapshot(records, cutoff, |records|);
    forall i: nat ensures i in Committed(todo, failing, |todo|) <==> i in ToRelease(records, cutoff, failing) {
      CommittedAre(todo, failing, |todo|, i);
      assert todo[..|todo|] == todo;
    }
  }

  lemma SnapshotReleases(l: Ledger, cutoff: int, failing: set<nat>)
    requires Conserved(l)
    ensures var todo := Snapshot(l.records, cutoff, |l.records|);
      && Conserved(ReleaseAll(l, todo, failing, |todo|))
      && ReleasedExactly(l.records, ReleaseAll(l, todo, failing, |todo|).records, cutoff, failing)
      && Committed(todo, failing, |todo|) == ToRelease(l.records, cutoff, failing)
  {
    var todo := Snapshot(l.records, cutoff, |l.records|);
    var l' := ReleaseAll(l, todo, failing, |todo|);
    ReleaseAllConserves(l, todo, failing, |todo|);
    SnapshotCommits(l.records, cutoff, failing);
    forall i: nat | i < |l.records|
      ensures l'.records[i] == if i in ToRelease(l.records, cutoff, failing)
                               then l.records[i].(status := Released) else l.records[i]
    {
      ReleaseAllRecords(l, todo, failing, |todo|, i);
    }
  }

  class Database {
    var records: seq<FreezeRecord>
    var balances: map<nat, Columns>

    constructor (records: seq<FreezeRecord>, balances: map<nat, Columns>)
      ensures this.records == records && this.balances == balances
    {
      this.records, this.balances := records, balances;
    }

    ghost function View(): Ledger
      reads this
    {
      Ledger(records, balances)
    }

    /** FreezeBalanceUnits once the available balance has been found sufficient. */
    method FreezeBalanceUnits(user: nat, estimatedUnits: nat, now: int)
      modifies this
      ensures View() == AddFreeze(old(View()), user, estimatedUnits, now)
      ensures estimatedUnits == 0 ==> View() == old(View())
      ensures estimatedUnits > 0 ==>
        && |records| == |old(records)| + 1 && records[..|old(records)|] == old(records)
        && var r := records[|old(records)|];
           r.user == user && r.units == estimatedUnits && r.status == Frozen && r.createdAt == now
           && Nearest(estimatedUnits, r.amount)
      ensures estimatedUnits > 0 ==> Resynced(old(View()), View(), user, estimatedUnits)
    {
      ToCreditsIsNearest(estimatedUnits, ToCredits(estimatedUnits));
      ToCreditsIsNearest(Hydrated(ColumnsOf(View(), user)) + estimatedUnits,
                         ToCredits(Hydrated(ColumnsOf(View(), user)) + estimatedUnits));
      if estimatedUnits <= 0 {
        return;
      }
      var c := if user in balances then balances[user] else Columns(0, 0);
      var units := c.units;
      if units == 0 && c.credits > 0 {
        units := c.credits * UNITS_PER_CREDIT;
      }
      units := units + estimatedUnits;
      balances := balances[user := Columns(ToCredits(units), units)];
      records := records + [FreezeRecord(user, ToCredits(estimatedUnits), estimatedUnits, Frozen, now)];
    }

    /** What the transactions of RechargeUnits, DeductUnits and AdminAdjust do to the frozen columns. */
    method RewriteBalance(user: nat)
      modifies this
      ensures View() == Rewrite(old(View()), user)
      ensures records == old(records) && Resynced(old(View()), View(), user, 0)
    {
      ToCreditsIsNearest(Hydrated(ColumnsOf(View(), user)), ToCredits(Hydrated(ColumnsOf(View(), user))));
      var c := if user in balances then balances[user] else Columns(0, 0);
      var units := c.units;
      if units == 0 && c.credits > 0 {
        units := c.credits * UNITS_PER_CREDIT;
      }
      balances := balances[user := Columns(ToCredits(units), units)];
    }

    /** The transaction of SettleBalance or ReleaseFrozen, for a record read as FROZEN before. */
    method Unfreeze(i: nat, status: Status)
      requires i < |records|
      modifies this
      ensures View() == Reduce(old(View()), i, status)
    {
      var r := records[i];
      var c := if r.user in balances then balances[r.user] else Columns(0, 0);
      var credits := c.credits - r.amount;
      if credits < 0 {
        credits := 0;
      }
      balances := balances[r.user := c.(credits := credits)];
      records := records[i := r.(status := status)];
    }

    /** One transaction: both updates, or neither when it fails. */
    method ReleaseOne(i: nat, fails: bool) returns (ok: bool)
      requires i < |records|
      modifies this
      ensures ok == !fails
      ensures View() == if fails then old(View()) else Release(old(View()), i)
    {
      if fails {
        return false;
      }
      var r := records[i];
      var c := if r.user in balances then balances[r.user] else Columns(0, 0);
      balances := balances[r.user := c.(credits := if c.credits - r.amount < 0 then 0 else c.credits - r.amount)];
      records := records[i := r.(status := Released)];
      return true;
    }

    /** The loop over the selected records: a failed transaction is skipped. */
    method ReleaseEach(todo: seq<nat>, failing: set<nat>) returns (releasedCount: nat)
      requires forall k :: 0 <= k < |todo| ==> todo[k] < |records|
      requires forall j, k :: 0 <= j < k < |todo| ==> todo[j] != todo[k]
      modifies this
      ensures View() == ReleaseAll(old(View()), todo, failing, |todo|)
      ensures releasedCount == |Committed(todo, failing, |todo|)|
    {
      releasedCount := 0;
      for n := 0 to |todo|
        invariant View() == ReleaseAll(old(View()), todo, failing, n)
        invariant releasedCount == |Committed(todo, failing, n)|
      {
        var ok := ReleaseOne(todo[n], todo[n] in failing);
        if ok {
          CommittedAre(todo, failing, n, todo[n]);
          releasedCount := releasedCount + 1;
        }
      }
    }

    /** Releases every expired record except those whose transaction fails. */
    method ReleaseFrozenRecords(cutoff: int, failing: set<nat>) returns (releasedCount: nat)
      requires Conserved(View())
      modifies this
      ensures Conserved(View())
      ensures ReleasedExactly(old(records), records, cutoff, failing)
      ensures forall i :: 0 <= i < |records| ==>
        (records[i] != old(records)[i]
         <==> old(records)[i].status == Frozen && old(records)[i].createdAt < cutoff && i !in failing)
      ensures releasedCount == |ToRelease(old(records), cutoff, failing)|
    {
      var todo := Snapshot(records, cutoff, |records|);
      if |todo| == 0 {
        SnapshotReleases(View(), cutoff, failing);
        return 0;
      }
      SnapshotReleases(View(), cutoff, failing);
      releasedCount := ReleaseEach(todo, failing);
    }
  }
}
