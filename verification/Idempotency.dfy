/**
  The Idempotent middleware for one Idempotency-Key: SETNX "processing" before the handler,
  SET "done" after a success, DEL after a failure (internal/middleware/idempotent.go).

  Requests interleave freely.  A handler may panic, which skips the final command, and the
  final command itself may be lost.  SETNX is assumed not to fail.
*/
module Idempotency {
  import opened Common

  const TTL: int := 86400000

  datatype Entry = Entry(done: bool, expireAt: int)

  datatype Event =
    | Started(id: nat, at: int)
    | Succeeded(id: nat, at: int, landed: bool)  // whether SET reached Redis
    | Failed(id: nat, at: int, landed: bool)     // whether DEL reached Redis
    | Panicked(id: nat, at: int)

  /** Clock, Redis key, start times of the handlers in flight, and the history. */
  datatype State = State(now: int, key: Option<Entry>, inFlight: map<nat, int>, log: seq<Event>)

  datatype Step =
    | Tick(to: int)
    | Arrive(id: nat)
    | Succeed(id: nat, landed: bool)
    | Fail(id: nat, landed: bool)
    | Panic(id: nat)

  predicate Exists(s: State) {
    s.key.Some? && s.now < s.key.value.expireAt
  }

  function Leave(s: State, id: nat, key: Option<Entry>, e: Event): State {
    State(s.now, key, map x | x in s.inFlight && x != id :: s.inFlight[x], s.log + [e])
  }

  function Apply(s: State, step: Step): State {
    match step
    case Tick(to) => if s.now <= to then s.(now := to) else s
    case Arrive(id) =>
      if Exists(s) || id in s.inFlight then s
      else State(s.now, Some(Entry(false, s.now + TTL)), s.inFlight[id := s.now], s.log + [Started(id, s.now)])
    case Succeed(id, landed) =>
      if id in s.inFlight
      then Leave(s, id, if landed then Some(Entry(true, s.now + TTL)) else s.key, Succeeded(id, s.now, landed))
      else s
    case Fail(id, landed) =>
      if id in s.inFlight then Leave(s, id, if landed then None else s.key, Failed(id, s.now, landed)) else s
    case Panic(id) =>
      if id in s.inFlight then Leave(s, id, s.key, Panicked(id, s.now)) else s
  }

  function Run(s: State, steps: seq<Step>): State
    decreases |steps|
  {
    if steps == [] then s else Run(Apply(s, steps[0]), steps[1..])
  }

  /** Every handler, its final command included, is over within 24 h of its start. */
  ghost predicate Prompt(s: State, step: Step) {
    step.Tick? ==> forall id :: id in s.inFlight ==> step.to < s.inFlight[id] + TTL
  }

  ghost predicate PromptRun(s: State, steps: seq<Step>)
    decreases |steps|
  {
    steps == [] || (Prompt(s, steps[0]) && PromptRun(Apply(s, steps[0]), steps[1..]))
  }

  function Initial(now: int): State { State(now, None, map[], []) }

  // ---------- When a key admits again ----------

  const DAY: int := 24 * 60 * 60 * 1000

  /** The time from which the next request is admitted, read off the history alone. */
  function FreeAt(log: seq<Event>, start: int): int {
    if log == [] then start
    else
      var before := FreeAt(log[..|log| - 1], start);
      match log[|log| - 1]
      case Started(_, at) => at + DAY
      case Succeeded(_, at, landed) => if landed then at + DAY else before
      case Failed(_, at, landed) => if landed then at else before
      case Panicked(_, _) => before
  }

  /** End of the latest 24 h that follow a success whose SET landed. */
  function QuietUntil(log: seq<Event>, start: int): int {
    if log == [] then start
    else
      var before := QuietUntil(log[..|log| - 1], start);
      var e := log[|log| - 1];
      if e.Succeeded? && e.landed && before < e.at + DAY then e.at + DAY else before
  }

  ghost predicate StartsWhenFree(log: seq<Event>, j: nat, start: int)
    requires j < |log|
  {
    log[j].Started? ==> FreeAt(log[..j], start) <= log[j].at && QuietUntil(log[..j], start) <= log[j].at
  }

  ghost predicate LogInv(s: State, start: int) {
    && (forall i, j :: 0 <= i <= j < |s.log| ==> s.log[i].at <= s.log[j].at)
    && (forall i :: 0 <= i < |s.log| ==> start <= s.log[i].at <= s.now)
    && (forall j :: 0 <= j < |s.log| ==> StartsWhenFree(s.log, j, start))
  }

  ghost predicate KeyInv(s: State, start: int) {
    && start <= s.now
    && (Exists(s) <==> s.now < FreeAt(s.log, start))
    && (Exists(s) ==> s.key.value.expireAt == FreeAt(s.log, start))
    && (QuietUntil(s.log, start) <= FreeAt(s.log, start) || QuietUntil(s.log, start) <= s.now)
  }

  ghost predicate FlightInv(s: State, start: int) {
    && (forall a, b :: a in s.inFlight && b in s.inFlight ==> a == b)
    && (forall a :: a in s.inFlight ==>
          Exists(s) && s.key.value == Entry(false, s.inFlight[a] + TTL) && QuietUntil(s.log, start) <= s.now)
  }

  ghost predicate Inv(s: State, start: int) {
    LogInv(s, start) && KeyInv(s, start) && FlightInv(s, start)
  }

  lemma Appended(log: seq<Event>, e: Event)
    ensures (log + [e])[..|log|] == log
    ensures forall j :: 0 <= j <= |log| ==> (log + [e])[..j] == log[..j]
  {
  }

  lemma AppendedStarts(log: seq<Event>, e: Event, start: int)
    requires forall j :: 0 <= j < |log| ==> StartsWhenFree(log, j, start)
    requires e.Started? ==> FreeAt(log, start) <= e.at && QuietUntil(log, start) <= e.at
    ensures forall j :: 0 <= j < |log + [e]| ==> StartsWhenFree(log + [e], j, start)
  {
    forall j | 0 <= j < |log + [e]| ensures StartsWhenFree(log + [e], j, start) {
      Appended(log, e);
      assert j < |log| ==> StartsWhenFree(log, j, start);
    }
  }

  lemma StepKeepsLog(s: State, start: int, step: Step)
    requires Inv(s, start)
    ensures LogInv(Apply(s, step), start)
  {
    var s' := Apply(s, step);
    if s'.log != s.log {
      AppendedStarts(s.log, s'.log[|s.log|], start);
    }
  }

  lemma TickKeepsKey(s: State, start: int, to: int)
    requires Inv(s, start) && Prompt(s, Tick(to))
    ensures KeyInv(Apply(s, Tick(to)), start) && FlightInv(Apply(s, Tick(to)), start)
  {
  }

  lemma ArriveKeepsKey(s: State, start: int, id: nat)
    requires Inv(s, start)
    ensures KeyInv(Apply(s, Arrive(id)), start) && FlightInv(Apply(s, Arrive(id)), start)
  {
    if !Exists(s) {
      Appended(s.log, Started(id, s.now));
    }
  }

  lemma LeaveKeepsKey(s: State, start: int, step: Step)
    requires Inv(s, start) && !step.Tick? && !step.Arrive?
    ensures KeyInv(Apply(s, step), start) && FlightInv(Apply(s, step), start)
  {
    var s' := Apply(s, step);
    if s' != s {
      Appended(s.log, s'.log[|s.log|]);
    }
  }

  lemma StepKeepsKey(s: State, start: int, step: Step)
    requires Inv(s, start) && Prompt(s, step)
    ensures KeyInv(Apply(s, step), start) && FlightInv(Apply(s, step), start)
  {
    match step
    case Tick(to) => TickKeepsKey(s, start, to);
    case Arrive(id) => ArriveKeepsKey(s, start, id);
    case _ => LeaveKeepsKey(s, start, step);
  }

  lemma {:induction false} RunKeepsInv(s: State, start: int, steps: seq<Step>)
    requires Inv(s, start) && PromptRun(s, steps)
    ensures Inv(Run(s, steps), start)
    decreases |steps|
  {
    if steps != [] {
      StepKeepsLog(s, start, steps[0]);
      StepKeepsKey(s, start, steps[0]);
      RunKeepsInv(Apply(s, steps[0]), start, steps[1..]);
    }
  }

  lemma {:induction false} QuietCovers(log: seq<Event>, start: int, i: nat)
    requires i < |log| && log[i].Succeeded? && log[i].landed
    ensures log[i].at + TTL <= QuietUntil(log, start)
  {
    if i < |log| - 1 {
      QuietCovers(log[..|log| - 1], start, i);
    }
  }

  /** In every interleaving at most one handler is in flight, and a request that arrives now is
      admitted exactly when the history says the key is free. */
  lemma AtMostOneHandler(start: int, steps: seq<Step>, id: nat)
    requires PromptRun(Initial(start), steps)
    ensures var s := Run(Initial(start), steps);
      && (forall a, b :: a in s.inFlight && b in s.inFlight ==> a == b)
      && (Apply(s, Arrive(id)) != s <==> FreeAt(s.log, start) <= s.now)
  {
    RunKeepsInv(Initial(start), start, steps);
    var s := Run(Initial(start), steps);
    assert id in s.inFlight ==> Exists(s);
    assert |Apply(s, Arrive(id)).log| == |s.log| ==> Apply(s, Arrive(id)) == s;
  }

  /** No handler starts within 24 h after a success whose SET landed. */
  lemma NoRepeatWithinADay(start: int, steps: seq<Step>, i: nat, j: nat)
    requires PromptRun(Initial(start), steps)
    requires var log := Run(Initial(start), steps).log;
      i < j < |log| && log[i].Succeeded? && log[i].landed && log[j].Started?
    ensures var log := Run(Initial(start), steps).log; log[i].at + DAY <= log[j].at
  {
    RunKeepsInv(Initial(start), start, steps);
    var log := Run(Initial(start), steps).log;
    QuietCovers(log[..j], start, i);
    assert StartsWhenFree(log, j, start);
  }

  lemma {:induction false} FreeAtAfterStart(log: seq<Event>, start: int, i: nat)
    requires i < |log| && log[i].Started?
    requires forall k, l :: 0 <= k <= l < |log| ==> log[k].at <= log[l].at
    requires forall k :: i < k < |log| ==> !(log[k].Failed? && log[k].landed)
    ensures log[i].at + TTL <= FreeAt(log, start)
  {
    if i < |log| - 1 {
      FreeAtAfterStart(log[..|log| - 1], start, i);
    }
  }

  /** Even if a handler panics or its final command is lost, two starts are 24 h apart unless a
      failure in between deleted the key. */
  lemma StartsAreADayApart(start: int, steps: seq<Step>, i: nat, j: nat)
    requires PromptRun(Initial(start), steps)
    requires var log := Run(Initial(start), steps).log;
      && i < j < |log| && log[i].Started? && log[j].Started?
      && (forall k :: i < k < j ==> !(log[k].Failed? && log[k].landed))
    ensures var log := Run(Initial(start), steps).log; log[i].at + DAY <= log[j].at
  {
    RunKeepsInv(Initial(start), start, steps);
    var log := Run(Initial(start), steps).log;
    FreeAtAfterStart(log[..j], start, i);
    assert StartsWhenFree(log, j, start);
  }

  /** A failed handler whose DEL lands frees the key: the very next request is admitted. */
  lemma FailureFreesTheKey(start: int, steps: seq<Step>, id: nat, other: nat)
    requires PromptRun(Initial(start), steps) && id in Run(Initial(start), steps).inFlight
    ensures var s := Apply(Run(Initial(start), steps), Fail(id, true));
      other in Apply(s, Arrive(other)).inFlight
  {
    RunKeepsInv(Initial(start), start, steps);
  }

  // ---------- Limits of the guarantee ----------

  /** A handler runs for d ms and succeeds, and the next one starts within 24 h of that success. */
  ghost predicate Repeats(log: seq<Event>, h: nat, d: nat, landed: bool) {
    && h + 2 < |log| && log[h].Started? && log[h + 1].Succeeded? && log[h + 2].Started?
    && log[h + 1].at == log[h].at + d && log[h + 1].landed == landed
    && log[h + 2].at < log[h + 1].at + TTL
  }

  ghost predicate CanRepeat(d: nat, landed: bool) {
    exists start: int, steps: seq<Step>, h: nat ::
      PromptRun(Initial(start), steps) && Repeats(Run(Initial(start), steps).log, h, d, landed)
  }

  lemma RunFive(s: State, a: Step, b: Step, c: Step, d: Step, e: Step) returns (s': State)
    requires Prompt(s, a) && Prompt(Apply(s, a), b) && Prompt(Apply(Apply(s, a), b), c)
    requires Prompt(Apply(Apply(Apply(s, a), b), c), d) && Prompt(Apply(Apply(Apply(Apply(s, a), b), c), d), e)
    ensures s' == Apply(Apply(Apply(Apply(Apply(s, a), b), c), d), e)
    ensures s' == Run(s, [a, b, c, d, e]) && PromptRun(s, [a, b, c, d, e])
  {
    var steps := [a, b, c, d, e];
    assert steps[1..] == [b, c, d, e] && [b, c, d, e][1..] == [c, d, e] && [c, d, e][1..] == [d, e];
    assert [d, e][1..] == [e] && [e][1..] == [];
    var s4 := Apply(Apply(Apply(Apply(s, a), b), c), d);
    s' := Apply(s4, e);
    assert Run(s4, [e]) == s' && PromptRun(s4, [e]);
    var s2 := Apply(Apply(s, a), b);
    assert Run(s2, [c, d, e]) == s' && PromptRun(s2, [c, d, e]);
  }

  /** When the final SET is lost, the day counts from the start of the handler, not from its
      success: after a handler of d ms the next may start d ms too early. */
  lemma LostWriteShortensTheDay(d: nat)
    requires 0 < d < TTL
    ensures CanRepeat(d, false)
  {
    var s1 := Apply(Initial(0), Arrive(0));
    var s3 := Apply(Apply(s1, Tick(d)), Succeed(0, false));
    assert s3.inFlight == map[];
    var s := RunFive(Initial(0), Arrive(0), Tick(d), Succeed(0, false), Tick(TTL), Arrive(1));
    assert s.log == [Started(0, 0), Succeeded(0, d, false), Started(1, TTL)];
    assert Repeats(s.log, 0, d, false);
  }

  /** For handlers shorter than a day: a second start within 24 h of a success happens in some run
      exactly when the SET of that success was lost, and its handler took any time at all. */
  lemma CanRepeatIff(d: nat, landed: bool)
    requires d < TTL
    ensures CanRepeat(d, landed) <==> !landed && d > 0
  {
    if !landed && d > 0 {
      LostWriteShortensTheDay(d);
    } else if CanRepeat(d, landed) {
      var start: int, steps: seq<Step>, h: nat :|
        PromptRun(Initial(start), steps) && Repeats(Run(Initial(start), steps).log, h, d, landed);
      NoRepeat(start, steps, h, d, landed);
      assert false;
    }
  }

  lemma NoRepeat(start: int, steps: seq<Step>, h: nat, d: nat, landed: bool)
    requires PromptRun(Initial(start), steps) && (landed || d == 0)
    ensures !Repeats(Run(Initial(start), steps).log, h, d, landed)
  {
    if Repeats(Run(Initial(start), steps).log, h, d, landed) {
      if landed {
        NoRepeatWithinADay(start, steps, h + 1, h + 2);
      } else {
        StartsAreADayApart(start, steps, h, h + 2);
      }
    }
  }

  /** Every handler is over within `longest` ms of its start. */
  ghost predicate Within(longest: nat, s: State, steps: seq<Step>)
    decreases |steps|
  {
    steps == [] || (
      && (steps[0].Tick? ==> forall id :: id in s.inFlight ==> steps[0].to <= s.inFlight[id] + longest)
      && Within(longest, Apply(s, steps[0]), steps[1..]))
  }

  ghost predicate NeverTwoAtOnce(longest: nat) {
    forall start: int, steps: seq<Step>, a, b ::
      (Within(longest, Initial(start), steps)
       && a in Run(Initial(start), steps).inFlight && b in Run(Initial(start), steps).inFlight)
      ==> a == b
  }

  lemma {:induction false} WithinIsPrompt(longest: nat, s: State, steps: seq<Step>)
    requires longest < TTL && Within(longest, s, steps)
    ensures PromptRun(s, steps)
    decreases |steps|
  {
    if steps != [] {
      WithinIsPrompt(longest, Apply(s, steps[0]), steps[1..]);
    }
  }

  /** A handler that outlives the key shares it with a second one. */
  lemma SlowHandlerIsJoined(longest: nat) returns (steps: seq<Step>)
    requires TTL <= longest
    ensures Within(longest, Initial(0), steps)
    ensures 0 in Run(Initial(0), steps).inFlight && 1 in Run(Initial(0), steps).inFlight
  {
    steps := [Arrive(0), Tick(TTL), Arrive(1)];
    assert steps[1..] == [Tick(TTL), Arrive(1)] && steps[1..][1..] == [Arrive(1)] && [Arrive(1)][1..] == [];
    var s1 := Apply(Initial(0), Arrive(0));
    var s2 := Apply(s1, Tick(TTL));
    assert Run(s2, [Arrive(1)]) == Apply(s2, Arrive(1)) && Within(longest, s2, [Arrive(1)]);
    assert Run(s1, steps[1..]) == Apply(s2, Arrive(1)) && Within(longest, s1, steps[1..]);
  }

  /** No two handlers are ever in flight exactly when none may run as long as the key lives. */
  lemma NeverTwoAtOnceIff(longest: nat)
    ensures NeverTwoAtOnce(longest) <==> longest < TTL
  {
    if longest < TTL {
      forall start: int, steps: seq<Step>, a, b | Within(longest, Initial(start), steps)
        && a in Run(Initial(start), steps).inFlight && b in Run(Initial(start), steps).inFlight
        ensures a == b
      {
        WithinIsPrompt(longest, Initial(start), steps);
        RunKeepsInv(Initial(start), start, steps);
      }
    } else {
      var steps := SlowHandlerIsJoined(longest);
    }
  }

  // ---------- One request alone ----------

  datatype Outcome = Good | Bad | Panicking

  /** The request arrives, the handler runs until `end`, and the final command is sent. */
  function Alone(end: int, outcome: Outcome, landed: bool): seq<Step> {
    [Arrive(0), Tick(end),
     match outcome case Good => Succeed(0, landed) case Bad => Fail(0, landed) case Panicking => Panic(0)]
  }

  lemma RunAlone(s: State, end: int, outcome: Outcome, landed: bool)
    ensures Run(s, Alone(end, outcome, landed))
         == Apply(Apply(Apply(s, Arrive(0)), Tick(end)), Alone(end, outcome, landed)[2])
  {
    var steps := Alone(end, outcome, landed);
    assert steps[1..] == [Tick(end), steps[2]] && steps[1..][1..] == [steps[2]] && [steps[2]][1..] == [];
    var s2 := Apply(Apply(s, Arrive(0)), Tick(end));
    assert Run(s2, [steps[2]]) == Apply(s2, steps[2]);
  }

  class RedisKey {
    var key: Option<Entry>

    constructor ()
      ensures key == None
    {
      key := None;
    }

    method SetNX(now: int) returns (ok: bool)
      modifies this
      ensures ok <==> key != old(key)
      ensures ok <==> old(key) == None || old(key).value.expireAt <= now
      ensures ok ==> key == Some(Entry(false, now + TTL))
    {
      if key.Some? && now < key.value.expireAt {
        return false;
      }
      key := Some(Entry(false, now + TTL));
      return true;
    }

    /** The middleware around one request; without interference it takes the steps of a run. */
    method Idempotent(now: int, end: int, outcome: Outcome, landed: bool) returns (handled: bool)
      requires now <= end
      modifies this
      ensures var s := Run(State(now, old(key), map[], []), Alone(end, outcome, landed));
        key == s.key && (handled <==> s.log != [])
    {
      RunAlone(State(now, key, map[], []), end, outcome, landed);
      var ok := SetNX(now);
      if !ok {
        return false;
      }
      handled := true;
      match outcome
      case Good =>
        if landed {
          key := Some(Entry(true, end + TTL));
        }
      case Bad =>
        if landed {
          key := None;
        }
      case Panicking =>
    }
  }
}
