/**
  runMonthly of internal/cron/scheduler.go: three tasks on the first of every month, at 00:00,
  02:00 and 09:00 Shanghai time, run by a loop that reads the clock, sleeps and reads it again.

  Time is Shanghai local time in milliseconds since the start of month 0 (January 1970); the
  zone has no daylight saving.  time.Date normalises month 13 to January of the next year, so
  "the next month" of month m is month m + 1.
*/
module MonthlyLoop {

  const HOUR: int := 3600000
  const DAY: int := 24 * HOUR

  // ---------- Calendar ----------

  predicate IsLeap(year: int) { year % 4 == 0 && (year % 100 != 0 || year % 400 == 0) }

  function DaysIn(month: nat): (days: int)
    ensures 28 <= days <= 31
  {
    var inYear := month % 12;
    if inYear == 1 then (if IsLeap(1970 + month / 12) then 29 else 28)
    else if inYear == 3 || inYear == 5 || inYear == 8 || inYear == 10 then 30
    else 31
  }

  function Start(month: nat): int {
    if month == 0 then 0 else Start(month - 1) + DaysIn(month - 1) * DAY
  }

  lemma {:induction false} StartGrows(a: nat, b: nat)
    requires a <= b
    ensures Start(a) <= Start(b)
    ensures a < b ==> Start(a) + 28 * DAY <= Start(b)
    decreases b
  {
    if a < b {
      StartGrows(a, b - 1);
      MonthHasFourWeeks(b - 1);
    }
  }

  lemma MonthHasFourWeeks(m: nat)
    ensures Start(m) + 28 * DAY <= Start(m + 1)
  {
  }

  /** The month that contains t, searching upwards from `from`. */
  function MonthFrom(from: nat, t: int): nat
    requires Start(from) <= t
    decreases t - Start(from)
  {
    MonthHasFourWeeks(from);
    if t < Start(from + 1) then from else MonthFrom(from + 1, t)
  }

  lemma {:induction false} MonthFromFinds(from: nat, m: nat, t: int)
    requires from <= m && Start(m) <= t < Start(m + 1)
    ensures Start(from) <= t && MonthFrom(from, t) == m
    decreases m - from
  {
    StartGrows(from, m);
    if from < m {
      StartGrows(from + 1, m);
      MonthFromFinds(from + 1, m, t);
    }
  }

  function MonthOf(t: int): nat
    requires 0 <= t
  {
    MonthFrom(0, t)
  }

  function DayOf(t: int): int
    requires 0 <= t
  {
    (t - Start(MonthOf(t))) / DAY + 1
  }

  function HourOf(t: int): int
    requires 0 <= t
  {
    (t - Start(MonthOf(t))) % DAY / HOUR
  }

  // ---------- Tasks ----------

  const LAST: nat := 2

  function TaskHour(i: nat): int { if i == 0 then 0 else if i == 1 then 2 else 9 }

  /** Task i of a month. */
  datatype Slot = Slot(month: nat, i: nat)

  function Due(n: Slot): int { Start(n.month) + TaskHour(n.i) * HOUR }

  function Next(n: Slot): Slot {
    if n.i < LAST then Slot(n.month, n.i + 1) else Slot(n.month + 1, 0)
  }

  /** The slot j places after n. */
  function Nth(n: Slot, j: nat): Slot {
    if j == 0 then n else Next(Nth(n, j - 1))
  }

  lemma DueGrows(n: Slot)
    ensures Due(n) + 2 * HOUR <= Due(Next(n))
  {
    MonthHasFourWeeks(n.month);
  }

  lemma {:induction false} DueOrdered(n: Slot, j: nat, k: nat)
    requires j <= k
    ensures Due(Nth(n, j)) <= Due(Nth(n, k))
    ensures j < k ==> Due(Nth(n, j)) < Due(Nth(n, k))
    decreases k
  {
    if j < k {
      DueOrdered(n, j, k - 1);
      DueGrows(Nth(n, k - 1));
    }
  }

  /** Every task of every later month occurs in the enumeration. */
  lemma {:induction false} EverySlotIsReached(n: Slot, q: Slot) returns (j: nat)
    requires n.i <= LAST && q.i <= LAST
    requires n.month < q.month || (n.month == q.month && n.i <= q.i)
    ensures Nth(n, j) == q
    decreases q.month, q.i
  {
    if n == q {
      j := 0;
    } else if q.i > 0 {
      var before := EverySlotIsReached(n, Slot(q.month, q.i - 1));
      j := before + 1;
    } else {
      var before := EverySlotIsReached(n, Slot(q.month - 1, LAST));
      j := before + 1;
    }
  }

  // ---------- The loop ----------

  datatype Phase =
    | Top                  // start of a pass
    | Scan(n: Slot)        // about to read the clock for a task
    | Sleeping(n: Slot)    // waiting for it to become due
    | Executing(n: Slot)

  datatype Invocation = Invocation(task: Slot, at: int)

  datatype State = State(clock: int, phase: Phase, log: seq<Invocation>)

  /** Each step carries the clock reading at which it happens. */
  datatype Step = Look(t: int) | Wake(t: int) | Return(t: int)

  /** The month a pass started at t works on. */
  function Target(t: int): nat
    requires 0 <= t
  {
    if DayOf(t) == 1 && HourOf(t) <= TaskHour(LAST) then MonthOf(t) else MonthOf(t) + 1
  }

  function NextPhase(n: Slot): Phase {
    if n.i < LAST then Scan(Slot(n.month, n.i + 1)) else Top
  }

  /** A reading that goes back in time, or a wake-up before the due time, does not happen. */
  function Apply(s: State, step: Step): State {
    if step.t < s.clock || step.t < 0 then s
    else
      match (s.phase, step)
      case (Top, Look(t)) => State(t, Scan(Slot(Target(t), 0)), s.log)
      case (Scan(n), Look(t)) => State(t, if t > Due(n) then NextPhase(n) else Sleeping(n), s.log)
      case (Sleeping(n), Wake(t)) =>
        if t < Due(n) then s else State(t, Executing(n), s.log + [Invocation(n, t)])
      case (Executing(n), Return(t)) => State(t, NextPhase(n), s.log)
      case _ => s
  }

  function Run(s: State, steps: seq<Step>): State
    decreases |steps|
  {
    if steps == [] then s else Run(Apply(s, steps[0]), steps[1..])
  }

  /** Outside sleep and tasks the loop never stalls for longer than `lag`; a task takes some
      time, and is over, late wake-up included, 5 * lag before the next task is due. */
  predicate Calm(lag: int, s: State, step: Step) {
    match (s.phase, step)
    case (Top, Look(t)) => t <= s.clock + lag
    case (Scan(n), Look(t)) => t <= s.clock + lag
    case (Sleeping(n), Wake(t)) => t + 5 * lag <= Due(Next(n))
    case (Executing(n), Return(t)) => s.clock < t && t + 5 * lag <= Due(Next(n))
    case _ => true
  }

  predicate CalmRun(lag: int, s: State, steps: seq<Step>)
    decreases |steps|
  {
    steps == [] || (Calm(lag, s, steps[0]) && CalmRun(lag, Apply(s, steps[0]), steps[1..]))
  }

  // ---------- Passes ----------

  lemma WithinMonth(m: nat, t: int)
    requires Start(m) <= t < Start(m + 1)
    ensures 0 <= t && MonthOf(t) == m
  {
    StartGrows(0, m);
    MonthFromFinds(0, m, t);
  }

  lemma TargetSwitchesAtTen(m: nat, t: int)
    requires Start(m) <= t < Start(m + 1)
    ensures 0 <= t && Target(t) == if t < Start(m) + 10 * HOUR then m else m + 1
  {
    WithinMonth(m, t);
    DayAndHour(t - Start(m));
  }

  lemma DayAndHour(d: int)
    requires 0 <= d
    ensures (d / DAY + 1 == 1 && d % DAY / HOUR <= 9) <==> d < 10 * HOUR
  {
  }

  // ---------- The calendar by dates ----------

  /** How many years from 1970 on and before `year` are divisible by n. */
  function Multiples(n: nat, year: nat): int
    requires n > 0
  {
    (year - 1) / n - 1969 / n
  }

  function MultiplesSet(n: nat, year: nat): set<nat>
    requires n > 0
  {
    set z: nat | 1970 <= z < year && z % n == 0
  }

  lemma {:induction false} MultiplesCount(n: nat, year: nat)
    requires n > 0 && year >= 1970
    ensures Multiples(n, year) == |MultiplesSet(n, year)|
    decreases year
  {
    if year == 1970 {
      assert MultiplesSet(n, year) == {};
    } else {
      MultiplesCount(n, year - 1);
      QuotientSteps(n, year - 1);
      assert MultiplesSet(n, year)
          == MultiplesSet(n, year - 1) + if (year - 1) % n == 0 then {(year - 1) as nat} else {};
    }
  }

  lemma QuotientSteps(n: nat, x: nat)
    requires n > 0 && x > 0
    ensures x / n == (x - 1) / n + if x % n == 0 then 1 else 0
  {
    var q, r := x / n, x % n;
    assert x == n * q + r;
    if r == 0 {
      assert q > 0;
      assert x - 1 == n * (q - 1) + (n - 1);
      Quotient(x - 1, n, q - 1, n - 1);
    } else {
      Quotient(x - 1, n, q, r - 1);
    }
  }

  lemma Times(n: nat, k: int)
    ensures k >= 1 ==> n * k >= n
    ensures k <= -1 ==> n * k + n <= 0
  {
  }

  lemma Quotient(x: nat, n: nat, q: int, r: nat)
    requires n > 0 && x == n * q + r && r < n
    ensures x / n == q
  {
    var q', r' := x / n, x % n;
    assert n * q' + r' == n * q + r;
    assert n * (q' - q) == n * q' - n * q;
    Times(n, q' - q);
  }

  /** The 29ths of February from 1970 on and before `year`, by the Gregorian rule. */
  function LeapDays(year: nat): int {
    Multiples(4, year) - Multiples(100, year) + Multiples(400, year)
  }

  /** Days from 1 January to the first of each month of a common year. */
  const MONTHS_BEFORE: seq<int> := [0, 31, 59, 90, 120, 151, 181, 212, 243, 273, 304, 334, 365]

  /** Days of the year before the first of month k + 1, counted from January. */
  function DaysBefore(year: nat, k: nat): int
    requires k <= 12
  {
    MONTHS_BEFORE[k] + if k > 1 then LeapDays(year + 1) - LeapDays(year) else 0
  }

  /** Midnight before the given day, from 1 January 1970 on; months and days count from 1. */
  function Midnight(year: nat, month: nat, day: nat): int
    requires 1 <= month <= 12
  {
    DAY * (365 * (year - 1970) + LeapDays(year) + DaysBefore(year, month - 1) + day - 1)
  }

  function MonthIndex(year: nat, month: nat): nat
    requires year >= 1970 && 1 <= month
  {
    12 * (year - 1970) + month - 1
  }

  lemma MultiplesStep(n: nat, year: nat)
    requires n > 0 && year >= 1970
    ensures Multiples(n, year + 1) == Multiples(n, year) + if year % n == 0 then 1 else 0
  {
    QuotientSteps(n, year);
  }

  lemma Divides(x: nat, n: nat, k: nat)
    requires n > 0 && k > 0 && x % (n * k) == 0
    ensures x % n == 0
  {
    var q := x / (n * k);
    assert x == n * k * q == n * (k * q);
    Quotient(x, n, k * q, 0);
  }

  lemma LeapYearHasALeapDay(year: nat)
    requires year >= 1970
    ensures LeapDays(year + 1) - LeapDays(year) == if IsLeap(year) then 1 else 0
  {
    MultiplesStep(4, year);
    MultiplesStep(100, year);
    MultiplesStep(400, year);
    if year % 400 == 0 {
      Divides(year, 100, 4);
    }
    if year % 100 == 0 {
      Divides(year, 4, 25);
    }
  }

  lemma LengthInTable(year: nat, month: nat)
    requires year >= 1970 && 1 <= month <= 12
    ensures DaysIn(MonthIndex(year, month)) == DaysBefore(year, month) - DaysBefore(year, month - 1)
  {
    LeapYearHasALeapDay(year);
  }

  lemma NextMonth(year: nat, month: nat)
    requires year >= 1970 && 1 <= month < 12
    ensures Midnight(year, month + 1, 1) == Midnight(year, month, 1) + DAY * DaysIn(MonthIndex(year, month))
  {
    LengthInTable(year, month);
  }

  lemma NextYear(year: nat)
    requires year >= 1970
    ensures Midnight(year + 1, 1, 1) == Midnight(year, 12, 1) + DAY * DaysIn(MonthIndex(year, 12))
  {
    LengthInTable(year, 12);
  }

  lemma StartOfNext(m: nat)
    ensures Start(m + 1) == Start(m) + DAY * DaysIn(m)
  {
  }

  /** The month counted from January 1970 starts at midnight before its first, leap years included. */
  lemma {:induction false} StartIsMidnight(year: nat, month: nat)
    requires year >= 1970 && 1 <= month <= 12
    ensures Start(MonthIndex(year, month)) == Midnight(year, month, 1)
    decreases year, month
  {
    if month > 1 {
      StartIsMidnight(year, month - 1);
      StartOfNext(MonthIndex(year, month - 1));
      NextMonth(year, month - 1);
    } else if year > 1970 {
      StartIsMidnight(year - 1, 12);
      StartOfNext(MonthIndex(year - 1, 12));
      NextYear(year - 1);
    } else {
      assert Start(0) == Midnight(1970, 1, 1);
    }
  }

  /** Every year has 365 days, and one more if divisible by 4, but by 100 only if by 400. */
  lemma StartOfYear(y: nat)
    ensures Start(12 * y) == 86400000 * (365 * y + |MultiplesSet(4, 1970 + y)| - |MultiplesSet(100, 1970 + y)|
                                         + |MultiplesSet(400, 1970 + y)|)
  {
    StartIsMidnight(1970 + y, 1);
    MultiplesCount(4, 1970 + y);
    MultiplesCount(100, 1970 + y);
    MultiplesCount(400, 1970 + y);
  }

  /** Reading a date and a time of day off the clock gives them back. */
  lemma ReadingsAreDates(year: nat, month: nat, day: nat, hour: nat, rest: nat)
    requires year >= 1970 && 1 <= month <= 12 && hour < 24 && rest < 3600000
    requires 1 <= day <= DaysBefore(year, month) - DaysBefore(year, month - 1)
    ensures
      var t := Midnight(year, month, day) + 3600000 * hour + rest;
      0 <= t && MonthOf(t) == MonthIndex(year, month) && DayOf(t) == day && HourOf(t) == hour
  {
    var m, t := MonthIndex(year, month), Midnight(year, month, day) + HOUR * hour + rest;
    StartIsMidnight(year, month);
    LengthInTable(year, month);
    assert t - Start(m) == DAY * (day - 1) + HOUR * hour + rest;
    WithinMonth(m, t);
    DayTime(day - 1, hour, rest);
  }

  lemma DayTime(days: nat, hour: nat, rest: nat)
    requires hour < 24 && rest < HOUR
    ensures (DAY * days + HOUR * hour + rest) / DAY == days
    ensures (DAY * days + HOUR * hour + rest) % DAY / HOUR == hour
  {
    var x := DAY * days + HOUR * hour + rest;
    Quotient(x, DAY, days, HOUR * hour + rest);
    assert x % DAY == HOUR * hour + rest;
    Quotient(HOUR * hour + rest, HOUR, hour, rest);
  }

  /** The month a pass works on, told by the date at which it starts: this one on the 1st before
      10:00, else the next. */
  lemma TargetByDate(year: nat, month: nat, day: nat, hour: nat, rest: nat)
    requires year >= 1970 && 1 <= month <= 12 && hour < 24 && rest < 3600000
    requires 1 <= day <= DaysBefore(year, month) - DaysBefore(year, month - 1)
    ensures
      var t := Midnight(year, month, day) + 3600000 * hour + rest;
      0 <= t && Target(t) == MonthIndex(year, month) + if day == 1 && hour < 10 then 0 else 1
  {
    ReadingsAreDates(year, month, day, hour, rest);
  }

  /** The tasks of a month are due on its 1st at 00:00, 02:00 and 09:00. */
  lemma DueByDate(year: nat, month: nat)
    requires year >= 1970 && 1 <= month <= 12
    ensures Due(Slot(MonthIndex(year, month), 0)) == Midnight(year, month, 1)
    ensures Due(Slot(MonthIndex(year, month), 1)) == Midnight(year, month, 1) + 2 * 3600000
    ensures Due(Slot(MonthIndex(year, month), 2)) == Midnight(year, month, 1) + 9 * 3600000
    ensures LAST == 2 && HOUR == 3600000 && DAY == 86400000
  {
    StartIsMidnight(year, month);
  }

  // ---------- Exactly when every task is done once ----------

  function Initial(start: int): State {
    State(start, Top, [])
  }

  /** The first task due at or after t. */
  function FirstSlot(t: int): (n: Slot)
    requires 0 <= t
    ensures n.i <= LAST
  {
    var m := MonthOf(t);
    if t <= Start(m) then Slot(m, 0)
    else if t <= Start(m) + 2 * HOUR then Slot(m, 1)
    else if t <= Start(m) + 9 * HOUR then Slot(m, 2)
    else Slot(m + 1, 0)
  }

  /** The log lists the tasks from n on, none left out and none repeated. */
  predicate Enumerates(log: seq<Invocation>, n: Slot) {
    forall j :: 0 <= j < |log| ==> log[j].task == Nth(n, j)
  }

  predicate Logged(s: State, n: Slot) {
    exists j :: 0 <= j < |s.log| && s.log[j].task == n
  }

  predicate Missing(s: State, start: int, n: Slot) {
    n.i <= LAST && start <= Due(n) && !Logged(s, n)
  }

  /**
    A reading that finds a task past that has not been done, that finds a task still due that has,
    or that starts a pass on a later month than a task that has not been done.
  */
  ghost predicate Bad(s: State, start: int, step: Step) {
    && s.clock <= step.t && 0 <= step.t && step.Look?
    && match s.phase
       case Top => exists n :: Missing(s, start, n) && n.month < Target(step.t)
       case Scan(n) => if step.t > Due(n) then Missing(s, start, n) else Logged(s, n)
       case _ => false
  }

  /** No invocation comes after a bad reading. */
  ghost predicate Clean(s: State, start: int, steps: seq<Step>)
    decreases |steps|
  {
    steps == []
    || ((Bad(s, start, steps[0]) ==> Run(s, steps).log == s.log) && Clean(Apply(s, steps[0]), start, steps[1..]))
  }

  predicate AtOrBefore(a: Slot, b: Slot) {
    a.month < b.month || (a.month == b.month && a.i <= b.i)
  }

  lemma DueOrders(a: Slot, b: Slot)
    requires a.i <= LAST && b.i <= LAST
    ensures AtOrBefore(a, b) <==> Due(a) <= Due(b)
  {
    if a.month < b.month {
      StartGrows(a.month, b.month);
    } else if b.month < a.month {
      StartGrows(b.month, a.month);
    }
  }

  lemma FirstSlotIsFirst(t: int, n: Slot)
    requires 0 <= t && n.i <= LAST
    ensures t <= Due(n) <==> AtOrBefore(FirstSlot(t), n)
  {
    var m := MonthOf(t);
    MonthContains(0, t);
    MonthHasFourWeeks(m);
    DueOrders(FirstSlot(t), n);
    if n.month < m {
      StartGrows(n.month + 1, m);
      MonthHasFourWeeks(n.month);
    } else if m < n.month {
      StartGrows(m + 1, n.month);
    }
  }

  lemma {:induction false} MonthContains(from: nat, t: int)
    requires Start(from) <= t
    ensures var m := MonthFrom(from, t); Start(m) <= t < Start(m + 1)
    decreases t - Start(from)
  {
    MonthHasFourWeeks(from);
    if t >= Start(from + 1) {
      MonthContains(from + 1, t);
    }
  }

  lemma {:induction false} NthIsSlot(n: Slot, j: nat)
    requires n.i <= LAST
    ensures Nth(n, j).i <= LAST && AtOrBefore(n, Nth(n, j))
  {
    if j > 0 {
      NthIsSlot(n, j - 1);
    }
  }

  /** The next task to come after an enumeration, and what has been logged before it. */
  lemma LoggedIff(s: State, first: Slot, n: Slot)
    requires first.i <= LAST && n.i <= LAST && Enumerates(s.log, first) && AtOrBefore(first, n)
    ensures Logged(s, n) <==> Due(n) < Due(Nth(first, |s.log|))
  {
    var j := EverySlotIsReached(first, n);
    if j < |s.log| {
      assert s.log[j].task == n;
      DueOrdered(first, j, |s.log|);
    } else {
      DueOrdered(first, |s.log|, j);
      forall k | 0 <= k < |s.log| ensures s.log[k].task != n {
        DueOrdered(first, k, j);
      }
    }
  }

  /** The loop has come as far as the task that is next in the enumeration. */
  ghost predicate OnTrack(s: State, start: int) {
    && 0 <= start <= s.clock && Enumerates(s.log, FirstSlot(start))
    && var next := Nth(FirstSlot(start), |s.log|);
       match s.phase
       case Top => true
       case Scan(n) => n.i <= LAST && AtOrBefore(n, next)
       case Sleeping(n) => n == next
       case Executing(n) => n.i <= LAST && next == Next(n)
  }

  lemma MissingIff(s: State, start: int, n: Slot)
    requires OnTrack(s, start) && n.i <= LAST
    ensures Missing(s, start, n) <==> AtOrBefore(Nth(FirstSlot(start), |s.log|), n)
  {
    var first := FirstSlot(start);
    FirstSlotIsFirst(start, n);
    NthIsSlot(first, |s.log|);
    DueOrders(Nth(first, |s.log|), n);
    DueOrders(first, n);
    if AtOrBefore(first, n) {
      LoggedIff(s, first, n);
    }
  }

  lemma LookStaysOnTrack(s: State, start: int, t: int)
    requires OnTrack(s, start) && s.clock <= t && !Bad(s, start, Look(t))
    ensures OnTrack(Apply(s, Look(t)), start)
  {
    var next := Nth(FirstSlot(start), |s.log|);
    NthIsSlot(FirstSlot(start), |s.log|);
    match s.phase
    case Top =>
      MissingIff(s, start, next);
    case Scan(n) =>
      MissingIff(s, start, n);
      FirstSlotIsFirst(start, n);
    case _ =>
  }

  lemma StepStaysOnTrack(s: State, start: int, step: Step)
    requires OnTrack(s, start) && !Bad(s, start, step)
    ensures OnTrack(Apply(s, step), start)
  {
    if s.clock <= step.t && step.Look? {
      LookStaysOnTrack(s, start, step.t);
    }
  }

  /** Task n can no longer be the next one invoked. */
  predicate Lost(s: State, n: Slot) {
    if s.phase.Sleeping? then s.phase.n != n else s.clock > Due(n)
  }

  lemma LaterPassIsLate(n: Slot, t: int)
    requires 0 <= t && n.i <= LAST && n.month < Target(t)
    ensures t > Due(n)
  {
    var m := MonthOf(t);
    MonthContains(0, t);
    TargetSwitchesAtTen(m, t);
    StartGrows(n.month, m);
    if n.month < m {
      MonthHasFourWeeks(n.month);
      StartGrows(n.month + 1, m);
    }
  }

  lemma BadLosesTheNext(s: State, start: int, step: Step)
    requires OnTrack(s, start) && Bad(s, start, step)
    ensures Lost(Apply(s, step), Nth(FirstSlot(start), |s.log|)) && Apply(s, step).log == s.log
  {
    var next := Nth(FirstSlot(start), |s.log|);
    NthIsSlot(FirstSlot(start), |s.log|);
    match s.phase
    case Top =>
      var n :| Missing(s, start, n) && n.month < Target(step.t);
      MissingIff(s, start, n);
      LaterPassIsLate(next, step.t);
    case Scan(n) =>
      MissingIff(s, start, n);
      MissingIff(s, start, next);
    case _ =>
  }

  /** Once lost, whatever is invoked next is another task. */
  lemma {:induction false} LostIsNotNext(s: State, n: Slot, steps: seq<Step>)
    requires Lost(s, n)
    ensures var log := Run(s, steps).log;
      |s.log| <= |log| && log[..|s.log|] == s.log && (log == s.log || log[|s.log|].task != n)
    decreases |steps|
  {
    if steps != [] {
      var s' := Apply(s, steps[0]);
      if s'.log == s.log {
        LostIsNotNext(s', n, steps[1..]);
      } else {
        LogGrows(s', steps[1..]);
      }
    }
  }

  lemma {:induction false} LogGrows(s: State, steps: seq<Step>)
    ensures |s.log| <= |Run(s, steps).log| && Run(s, steps).log[..|s.log|] == s.log
    decreases |steps|
  {
    if steps != [] {
      LogGrows(Apply(s, steps[0]), steps[1..]);
    }
  }

  lemma {:induction false} QuietIsClean(s: State, start: int, steps: seq<Step>)
    requires Run(s, steps).log == s.log
    ensures Clean(s, start, steps)
    decreases |steps|
  {
    if steps != [] {
      var s' := Apply(s, steps[0]);
      LogGrows(s', steps[1..]);
      assert s'.log == s.log;
      QuietIsClean(s', start, steps[1..]);
    }
  }

  lemma {:induction false} OnTrackEnumeratesIff(s: State, start: int, steps: seq<Step>)
    requires OnTrack(s, start)
    ensures Enumerates(Run(s, steps).log, FirstSlot(start)) <==> Clean(s, start, steps)
    decreases |steps|
  {
    if steps != [] {
      var s' := Apply(s, steps[0]);
      if Bad(s, start, steps[0]) {
        BadLosesTheNext(s, start, steps[0]);
        LostIsNotNext(s', Nth(FirstSlot(start), |s.log|), steps[1..]);
        if Run(s, steps).log == s.log {
          QuietIsClean(s, start, steps);
        }
      } else {
        StepStaysOnTrack(s, start, steps[0]);
        OnTrackEnumeratesIff(s', start, steps[1..]);
      }
    }
  }

  /** For every run: the log lists the tasks due from the start on, each once, in order and without
      gaps, if and only if no invocation comes after a bad reading. */
  lemma EnumeratesIff(start: int, steps: seq<Step>)
    requires 0 <= start
    ensures Enumerates(Run(Initial(start), steps).log, FirstSlot(start)) <==> Clean(Initial(start), start, steps)
  {
    OnTrackEnumeratesIff(Initial(start), start, steps);
  }

  ghost predicate NeverBad(s: State, start: int, steps: seq<Step>)
    decreases |steps|
  {
    steps == [] || (!Bad(s, start, steps[0]) && NeverBad(Apply(s, steps[0]), start, steps[1..]))
  }

  lemma {:induction false} NeverBadStaysOnTrack(s: State, start: int, steps: seq<Step>)
    requires OnTrack(s, start) && NeverBad(s, start, steps)
    ensures OnTrack(Run(s, steps), start) && Clean(s, start, steps)
    decreases |steps|
  {
    if steps != [] {
      StepStaysOnTrack(s, start, steps[0]);
      NeverBadStaysOnTrack(Apply(s, steps[0]), start, steps[1..]);
    }
  }

  /** And without a bad reading, nothing due before the task the loop waits for is missing. */
  lemma NothingLeftBehind(start: int, steps: seq<Step>, n: Slot, q: Slot)
    requires 0 <= start && NeverBad(Initial(start), start, steps)
    requires Run(Initial(start), steps).phase == Sleeping(n) && q.i <= LAST
    ensures Missing(Run(Initial(start), steps), start, q) <==> Due(n) <= Due(q)
  {
    NeverBadStaysOnTrack(Initial(start), start, steps);
    MissingIff(Run(Initial(start), steps), start, q);
    NthIsSlot(FirstSlot(start), |Run(Initial(start), steps).log|);
    DueOrders(n, q);
  }

  /** After a bad reading the next invocation breaks the enumeration, whatever it is. */
  lemma BadRunsFail(s: State, start: int, step: Step, steps: seq<Step>)
    requires OnTrack(s, start) && Bad(s, start, step) && Run(Apply(s, step), steps).log != s.log
    ensures !Enumerates(Run(Apply(s, step), steps).log, FirstSlot(start))
  {
    BadLosesTheNext(s, start, step);
    LostIsNotNext(Apply(s, step), Nth(FirstSlot(start), |s.log|), steps);
  }

  // ---------- Calm runs ----------

  /** Readings a pass may still need before it sleeps for its month's remaining tasks. */
  function Room(lag: int, i: nat): int { if i == 0 then 3 * lag else if i == 1 then 2 * lag else lag }

  /** `prev` and n are neighbours in the enumeration and the clock stands between them. */
  ghost predicate Between(s: State, prev: Slot, n: Slot) {
    n == Next(prev) && prev.i <= LAST && Due(prev) < s.clock <= Due(n)
  }

  ghost predicate PhaseInv(lag: int, s: State, prev: Slot, n: Slot) {
    match s.phase
    case Top => Between(s, prev, n) && s.clock + 5 * lag <= Due(n)
    case Scan(k) =>
      && k.i <= LAST && Between(s, prev, n)
      && if n.month == k.month then k.i <= n.i && s.clock + Room(lag, k.i) <= Due(n)
         else n == Slot(k.month + 1, 0) && s.clock + Room(lag, k.i) <= Start(k.month) + 10 * HOUR + 3 * lag
    case Sleeping(k) => k == n && Between(s, prev, n)
    case Executing(k) => k == prev && n == Next(prev) && k.i <= LAST && Due(prev) <= s.clock <= Due(n)
  }

  lemma TopKeepsInv(lag: int, s: State, prev: Slot, n: Slot, t: int)
    requires s.phase == Top && PhaseInv(lag, s, prev, n) && 0 < lag && 6 * lag <= HOUR
    requires s.clock <= t <= s.clock + lag
    ensures PhaseInv(lag, Apply(s, Look(t)), prev, n)
  {
    MonthHasFourWeeks(prev.month);
    TargetSwitchesAtTen(prev.month, t);
  }

  // A task already past is skipped, so the due time ahead is a later one.
  lemma SkipKeepsInv(lag: int, s: State, prev: Slot, n: Slot, t: int)
    requires s.phase.Scan? && PhaseInv(lag, s, prev, n) && 0 < lag && 6 * lag <= HOUR
    requires 0 <= s.clock <= t <= s.clock + lag && t > Due(s.phase.n)
    ensures PhaseInv(lag, Apply(s, Look(t)), prev, n)
  {
    MonthHasFourWeeks(s.phase.n.month);
  }

  lemma SleepKeepsInv(lag: int, s: State, prev: Slot, n: Slot, t: int)
    requires s.phase.Scan? && PhaseInv(lag, s, prev, n) && 0 < lag && 6 * lag <= HOUR
    requires 0 <= s.clock <= t <= s.clock + lag && t <= Due(s.phase.n)
    ensures PhaseInv(lag, Apply(s, Look(t)), prev, n)
  {
    MonthHasFourWeeks(s.phase.n.month);
  }

  lemma ScanKeepsInv(lag: int, s: State, prev: Slot, n: Slot, t: int)
    requires s.phase.Scan? && PhaseInv(lag, s, prev, n) && 0 < lag && 6 * lag <= HOUR
    requires 0 <= s.clock <= t <= s.clock + lag
    ensures PhaseInv(lag, Apply(s, Look(t)), prev, n)
  {
    if t > Due(s.phase.n) {
      SkipKeepsInv(lag, s, prev, n, t);
    } else {
      SleepKeepsInv(lag, s, prev, n, t);
    }
  }

  predicate NeverEarly(log: seq<Invocation>) {
    forall j :: 0 <= j < |log| ==> Due(log[j].task) <= log[j].at
  }

  ghost predicate Inv(lag: int, s: State, prev: Slot) {
    0 <= s.clock && PhaseInv(lag, s, Nth(prev, |s.log|), Nth(prev, |s.log| + 1)) && NeverEarly(s.log)
  }

  lemma {:induction false} NthOfNext(n: Slot, j: nat)
    ensures Nth(Next(n), j) == Nth(n, j + 1)
  {
    if j > 0 {
      NthOfNext(n, j - 1);
    }
  }

  lemma WakeKeepsInv(lag: int, s: State, prev: Slot, t: int)
    requires Inv(lag, s, prev) && s.phase.Sleeping? && Calm(lag, s, Wake(t)) && 0 < lag
    ensures Inv(lag, Apply(s, Wake(t)), prev)
  {
    NthOfNext(prev, |s.log|);
  }

  lemma ReturnKeepsInv(lag: int, s: State, prev: Slot, n: Slot, t: int)
    requires PhaseInv(lag, s, prev, n) && s.phase.Executing? && 0 < lag
    requires s.clock <= t && Calm(lag, s, Return(t)) && 0 <= s.clock
    ensures PhaseInv(lag, Apply(s, Return(t)), prev, n)
  {
  }

  lemma StepKeepsInv(lag: int, s: State, prev: Slot, step: Step)
    requires 0 < lag && 6 * lag <= HOUR
    requires Inv(lag, s, prev) && Calm(lag, s, step)
    ensures Inv(lag, Apply(s, step), prev)
  {
    if s.clock <= step.t && Apply(s, step) != s {
      var n, n' := Nth(prev, |s.log|), Nth(prev, |s.log| + 1);
      match s.phase
      case Top => TopKeepsInv(lag, s, n, n', step.t);
      case Scan(k) => ScanKeepsInv(lag, s, n, n', step.t);
      case Sleeping(k) => WakeKeepsInv(lag, s, prev, step.t);
      case Executing(k) => ReturnKeepsInv(lag, s, n, n', step.t);
    }
  }

  lemma NextIsFirst(start: int, prev: Slot)
    requires 0 <= start && prev.i <= LAST && Due(prev) < start <= Due(Next(prev))
    ensures FirstSlot(start) == Next(prev)
  {
    FirstSlotIsFirst(start, prev);
    FirstSlotIsFirst(start, Next(prev));
  }

  lemma CalmLookIsGood(lag: int, s: State, start: int, prev: Slot, t: int)
    requires 0 < lag && s.phase.Scan? && s.clock <= t && Inv(lag, s, prev) && OnTrack(s, start)
    requires FirstSlot(start) == Next(prev) && Calm(lag, s, Look(t))
    ensures !Bad(s, start, Look(t))
  {
    var n, next := s.phase.n, Nth(prev, |s.log| + 1);
    NthOfNext(prev, |s.log|);
    MissingIff(s, start, n);
    DueOrders(n, Nth(prev, |s.log|));
  }

  lemma CalmIsGood(lag: int, s: State, start: int, prev: Slot, step: Step)
    requires 0 < lag && Inv(lag, s, prev) && OnTrack(s, start) && FirstSlot(start) == Next(prev) && Calm(lag, s, step)
    ensures !Bad(s, start, step)
  {
    if s.clock <= step.t && step.Look? {
      if s.phase.Scan? {
        CalmLookIsGood(lag, s, start, prev, step.t);
      } else if n :| s.phase.Top? && Missing(s, start, n) && n.month < Target(step.t) {
        MissingIff(s, start, n);
        NthOfNext(prev, |s.log|);
        NthIsSlot(FirstSlot(start), |s.log|);
        DueOrders(Nth(FirstSlot(start), |s.log|), n);
        LaterPassIsLate(n, step.t);
        assert false;
      }
    }
  }

  lemma {:induction false} CalmRunIsGood(lag: int, s: State, start: int, prev: Slot, steps: seq<Step>)
    requires 0 < lag && 6 * lag <= HOUR && 0 <= start && FirstSlot(start) == Next(prev)
    requires Inv(lag, s, prev) && OnTrack(s, start) && CalmRun(lag, s, steps)
    ensures Inv(lag, Run(s, steps), prev) && NeverBad(s, start, steps)
    decreases |steps|
  {
    if steps != [] {
      CalmIsGood(lag, s, start, prev, steps[0]);
      StepStaysOnTrack(s, start, steps[0]);
      StepKeepsInv(lag, s, prev, steps[0]);
      CalmRunIsGood(lag, Apply(s, steps[0]), start, prev, steps[1..]);
    }
  }

  /** Calm runs have no bad reading.  So, started between two due times, the loop invokes every later
      task exactly once, in order, never early and without gaps: whatever was due before the current
      clock reading has been invoked, and nothing still to come has. */
  lemma EveryTaskOnceInOrder(lag: int, start: int, prev: Slot, steps: seq<Step>)
    requires 0 < lag && 6 * lag <= HOUR
    requires 0 <= start && prev.i <= LAST && Due(prev) < start && start + 5 * lag <= Due(Next(prev))
    requires CalmRun(lag, Initial(start), steps)
    ensures NeverBad(Initial(start), start, steps)
    ensures var s := Run(Initial(start), steps);
      && Enumerates(s.log, Next(prev))
      && NeverEarly(s.log)
      && (forall j: nat :: Due(Nth(Next(prev), j)) < s.clock ==> j < |s.log|)
      && (forall j: nat :: s.clock < Due(Nth(Next(prev), j)) ==> j >= |s.log|)
  {
    NextIsFirst(start, prev);
    CalmRunIsGood(lag, Initial(start), start, prev, steps);
    NeverBadStaysOnTrack(Initial(start), start, steps);
    EnumeratesIff(start, steps);
    LogIsComplete(lag, Run(Initial(start), steps), prev);
  }

  lemma LogIsComplete(lag: int, s: State, prev: Slot)
    requires Inv(lag, s, prev)
    ensures forall j: nat :: Due(Nth(Next(prev), j)) < s.clock ==> j < |s.log|
    ensures forall j: nat :: s.clock < Due(Nth(Next(prev), j)) ==> j >= |s.log|
  {
    forall j: nat | Due(Nth(Next(prev), j)) < s.clock ensures j < |s.log| {
      DueAgainstClock(lag, s, prev, j);
    }
    forall j: nat | s.clock < Due(Nth(Next(prev), j)) ensures j >= |s.log| {
      DueAgainstClock(lag, s, prev, j);
    }
  }

  lemma ClockIsBetween(lag: int, s: State, prev: Slot)
    requires Inv(lag, s, prev)
    ensures Due(Nth(prev, |s.log|)) <= s.clock <= Due(Nth(prev, |s.log| + 1))
  {
  }

  lemma DueAround(prev: Slot, n: nat, clock: int, j: nat)
    requires Due(Nth(prev, n)) <= clock <= Due(Nth(prev, n + 1))
    ensures j < n ==> Due(Nth(Next(prev), j)) <= clock
    ensures n <= j ==> clock <= Due(Nth(Next(prev), j))
  {
    NthOfNext(prev, j);
    if j < n {
      DueOrdered(prev, j + 1, n);
    } else {
      DueOrdered(prev, n + 1, j + 1);
    }
  }

  lemma DueAgainstClock(lag: int, s: State, prev: Slot, j: nat)
    requires Inv(lag, s, prev)
    ensures j < |s.log| ==> Due(Nth(Next(prev), j)) <= s.clock
    ensures |s.log| <= j ==> s.clock <= Due(Nth(Next(prev), j))
  {
    ClockIsBetween(lag, s, prev);
    DueAround(prev, |s.log|, s.clock, j);
  }

  // ---------- Runs with a bad reading ----------

  lemma RunTwo(s: State, a: Step, b: Step, rest: seq<Step>)
    ensures Run(s, [a, b] + rest) == Run(Apply(Apply(s, a), b), rest)
  {
    assert ([a, b] + rest)[1..] == [b] + rest;
    assert ([b] + rest)[1..] == rest;
  }

  /** When the 09:00 task takes no time at all, the next pass finds it due again and repeats it. */
  lemma InstantTaskRunsTwice(start: int, m: nat, log: seq<Invocation>) returns (steps: seq<Step>)
    requires OnTrack(State(Due(Slot(m, LAST)), Executing(Slot(m, LAST)), log), start)
    ensures var s := State(Due(Slot(m, LAST)), Executing(Slot(m, LAST)), log);
      && Run(s, steps).log == log + [Invocation(Slot(m, LAST), Due(Slot(m, LAST)))]
      && !Clean(s, start, steps) && !Enumerates(Run(s, steps).log, FirstSlot(start))
  {
    var t := Due(Slot(m, LAST));
    MonthHasFourWeeks(m);
    TargetSwitchesAtTen(m, t);
    var s0 := State(t, Executing(Slot(m, LAST)), log);
    var s2 := Apply(Apply(s0, Return(t)), Look(t));
    assert s2 == State(t, Scan(Slot(m, 0)), log);
    var s4 := Apply(Apply(s2, Look(t)), Look(t));
    assert s4 == State(t, Scan(Slot(m, LAST)), log);
    RunTwo(s4, Look(t), Wake(t), []);
    RunTwo(s2, Look(t), Look(t), [Look(t), Wake(t)] + []);
    RunTwo(s0, Return(t), Look(t), [Look(t), Look(t)] + ([Look(t), Wake(t)] + []));
    steps := [Return(t), Look(t)] + ([Look(t), Look(t)] + ([Look(t), Wake(t)] + []));
    RepeatBreaksEnumeration(s0, start, m, Run(s0, steps).log);
    OnTrackEnumeratesIff(s0, start, steps);
  }

  lemma RepeatBreaksEnumeration(s: State, start: int, m: nat, log: seq<Invocation>)
    requires OnTrack(s, start) && s.phase == Executing(Slot(m, LAST))
    requires |log| == |s.log| + 1 && log[|s.log|].task == Slot(m, LAST)
    ensures !Enumerates(log, FirstSlot(start))
  {
    assert Nth(FirstSlot(start), |s.log|) == Next(Slot(m, LAST));
  }

  /** If the two clock readings of a pass straddle the month's start, its first task is skipped, and
      what is invoked next is out of order. */
  lemma StraddlingReadingsSkipTask(start: int, s: State, m: nat, early: int, late: int, steps: seq<Step>)
    requires OnTrack(s, start) && s.phase == Top && Nth(FirstSlot(start), |s.log|) == Slot(m + 1, 0)
    requires s.clock <= early && Start(m) + 10 * HOUR <= early < Start(m + 1) < late
    ensures var s' := Apply(Apply(s, Look(early)), Look(late));
      && s' == State(late, Scan(Slot(m + 1, 1)), s.log)
      && (Run(s', steps).log != s.log ==> !Enumerates(Run(s', steps).log, FirstSlot(start)))
  {
    TargetSwitchesAtTen(m, early);
    var before := Apply(s, Look(early));
    assert before == State(early, Scan(Slot(m + 1, 0)), s.log);
    assert Due(Slot(m + 1, 0)) == Start(m + 1);
    MissingIff(s, start, Slot(m + 1, 0));
    assert !Bad(s, start, Look(early)) by {
      if n :| Missing(s, start, n) && n.month < m + 1 {
        MissingIff(s, start, n);
        assert false;
      }
    }
    StepStaysOnTrack(s, start, Look(early));
    assert Missing(before, start, Slot(m + 1, 0));
    if Run(Apply(before, Look(late)), steps).log != s.log {
      BadRunsFail(before, start, Look(late), steps);
    }
  }

  /** If the 09:00 task is still running at 10:00 on the next first, all of that month is skipped. */
  lemma LongTaskSkipsMonth(start: int, s: State, m: nat, t: int, steps: seq<Step>)
    requires OnTrack(s, start) && s.phase == Executing(Slot(m, LAST))
    requires s.clock <= t && Start(m + 1) + 10 * HOUR <= t < Start(m + 2)
    ensures var s' := Apply(Apply(s, Return(t)), Look(t));
      && s' == State(t, Scan(Slot(m + 2, 0)), s.log)
      && (Run(s', steps).log != s.log ==> !Enumerates(Run(s', steps).log, FirstSlot(start)))
  {
    TargetSwitchesAtTen(m + 1, t);
    StepStaysOnTrack(s, start, Return(t));
    var before := Apply(s, Return(t));
    MissingIff(before, start, Slot(m + 1, 0));
    assert Missing(before, start, Slot(m + 1, 0));
    if Run(Apply(before, Look(t)), steps).log != s.log {
      BadRunsFail(before, start, Look(t), steps);
    }
  }
}
