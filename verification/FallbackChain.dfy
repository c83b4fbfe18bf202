/** swarm/enterprise/core/fallback_chain.py: trying the levels of a fallback chain, with retries, behind the
    circuit breaker and the rate limiter. */
module FallbackExecution {
  import opened Prelude
  import opened RateLimiting
  import opened CircuitBreaking

  datatype Chain = Chain(primary: Model, fallback1: Model, fallback2: Option<Model>, maxRetries: int) {
    function Levels(): seq<Model> {
      [primary, fallback1] + if fallback2.Some? && fallback2.value != "" then [fallback2.value] else []
    }
  }

  /** How one attempt ended. `RateLimited(Granted)` is the trace entry "rate_limit:None": the second acquire after
      the rpm wait took a slot, and the code still moves on to the next level without releasing it. */
  datatype Outcome = CircuitOpen(queued: bool) | RateLimited(reason: Verdict) | Failure | Success

  datatype Entry = Entry(level: nat, retry: nat, model: Model, outcome: Outcome)

  /** Where an execution stands: the attempts of the levels it has abandoned, one block per level, and those of the
      current level. */
  datatype Progress = Progress(closed: seq<seq<Entry>>, current: seq<Entry>, slept: real, done: bool) {
    function Level(): nat { |closed| }

    function Trace(): seq<Entry> { Flatten(closed) + current }
  }

  const SLOTS := 10
  const RPM_WAIT := 0.5

  /** Without retries every level is passed over. */
  function Start(levels: seq<Model>, maxRetries: int): Progress {
    Progress(if maxRetries > 0 then [] else seq(|levels|, i => []), [], 0.0, false)
  }

  predicate Over(levels: seq<Model>, p: Progress) {
    p.done || p.Level() >= |levels|
  }

  function NextEntry(levels: seq<Model>, p: Progress, o: Outcome): Entry
    requires p.Level() < |levels|
  {
    Entry(p.Level() + 1, |p.current| + 1, levels[p.Level()], o)
  }

  /** One attempt: record it, then stay on the level, leave it, or return. */
  function Advance(levels: seq<Model>, maxRetries: int, p: Progress, o: Outcome, waited: bool): Progress
    requires p.Level() < |levels|
  {
    var block := p.current + [NextEntry(levels, p, o)];
    var slept := if waited then p.slept + RPM_WAIT else p.slept;
    if o == Success then Progress(p.closed, block, slept, true)
    else if o == Failure && |block| < maxRetries then
      Progress(p.closed, block, slept + Pow2(|p.current|), false)
    else Progress(p.closed + [block], [], slept, false)
  }

  lemma AdvanceTrace(levels: seq<Model>, maxRetries: int, p: Progress, o: Outcome, waited: bool)
    requires p.Level() < |levels|
    ensures Advance(levels, maxRetries, p, o, waited).Trace() == p.Trace() + [NextEntry(levels, p, o)]
  {
    var block := p.current + [NextEntry(levels, p, o)];
    assert (p.closed + [block])[..|p.closed|] == p.closed;
  }

  /** The wait belongs to the rate limiter's branch. */
  predicate Possible(o: Outcome, waited: bool) {
    waited ==> o.RateLimited?
  }

  function LeakCount(trace: seq<Entry>, m: Model): nat {
    if trace == [] then 0
    else LeakCount(trace[..|trace| - 1], m)
         + if trace[|trace| - 1].outcome == RateLimited(Granted) && trace[|trace| - 1].model == m then 1 else 0
  }

  lemma LeakCountAppend(trace: seq<Entry>, e: Entry, m: Model)
    ensures LeakCount(trace + [e], m)
            == LeakCount(trace, m) + if e.outcome == RateLimited(Granted) && e.model == m then 1 else 0
  {
    assert (trace + [e])[..|trace|] == trace;
  }

  /** Where an attempt leads, and what it sleeps. */
  lemma AdvancePosition(levels: seq<Model>, maxRetries: int, p: Progress, o: Outcome, waited: bool)
    requires p.Level() < |levels| && !p.done
    ensures var q := Advance(levels, maxRetries, p, o, waited);
            var stays := o == Success || (o == Failure && |p.current| + 1 < maxRetries);
            && q.done == (o == Success)
            && q.Level() == (if stays then p.Level() else p.Level() + 1)
            && |q.current| == (if stays then |p.current| + 1 else 0)
            && q.slept == p.slept + (if waited then RPM_WAIT else 0.0)
                          + (if o == Failure && stays then Pow2(|p.current|) else 0.0)
  {
  }

  // ---- the shape of a trace ----------------------------------------------------------------------

  /** Consecutive attempts at one level. */
  ghost predicate OfLevel(b: seq<Entry>, levels: seq<Model>, level: nat)
    requires level < |levels|
  {
    forall i :: 0 <= i < |b| ==> b[i].level == level + 1 && b[i].retry == i + 1 && b[i].model == levels[level]
  }

  ghost predicate AllFailures(b: seq<Entry>) {
    forall i :: 0 <= i < |b| ==> b[i].outcome == Failure
  }

  predicate IsSkip(o: Outcome) {
    o.CircuitOpen? || o.RateLimited?
  }

  /** What an abandoned level leaves: exactly `maxRetries` errors, or fewer errors and then one skip. */
  ghost predicate Abandoned(b: seq<Entry>, levels: seq<Model>, maxRetries: int, level: nat)
    requires level < |levels|
  {
    && OfLevel(b, levels, level)
    && (|| (|b| == Max(0, maxRetries) && AllFailures(b))
        || (1 <= |b| <= maxRetries && AllFailures(b[..|b| - 1]) && IsSkip(b[|b| - 1].outcome)))
  }

  /** Every abandoned level has its block, and the current one only errors, or errors and then the success. */
  ghost predicate Shape(levels: seq<Model>, maxRetries: int, p: Progress) {
    && p.Level() <= |levels|
    && (forall l :: 0 <= l < p.Level() ==> Abandoned(p.closed[l], levels, maxRetries, l))
    && (if p.Level() == |levels| then p.current == [] && !p.done
        else
          && maxRetries > 0
          && OfLevel(p.current, levels, p.Level())
          && (if p.done then
                && 1 <= |p.current| <= maxRetries
                && AllFailures(p.current[..|p.current| - 1]) && p.current[|p.current| - 1].outcome == Success
              else |p.current| < maxRetries && AllFailures(p.current)))
  }

  lemma AdvanceKeepsShape(levels: seq<Model>, maxRetries: int, p: Progress, o: Outcome, waited: bool)
    requires Shape(levels, maxRetries, p) && !Over(levels, p)
    ensures Shape(levels, maxRetries, Advance(levels, maxRetries, p, o, waited))
  {
    var block := p.current + [NextEntry(levels, p, o)];
    GrowBlock(levels, maxRetries, p, o);
    hide OfLevel, AllFailures, NextEntry, Pow2;
    if o == Success || (o == Failure && |block| < maxRetries) {
    } else {
      assert Abandoned(block, levels, maxRetries, p.Level());
    }
  }

  lemma GrowBlock(levels: seq<Model>, maxRetries: int, p: Progress, o: Outcome)
    requires Shape(levels, maxRetries, p) && !Over(levels, p)
    ensures var block := p.current + [NextEntry(levels, p, o)];
            && OfLevel(block, levels, p.Level()) && |block| <= maxRetries
            && AllFailures(block[..|block| - 1]) && block[|block| - 1].outcome == o
            && (o == Failure ==> AllFailures(block))
  {
    var block := p.current + [NextEntry(levels, p, o)];
    assert block[..|block| - 1] == p.current;
  }

  // ---- consequences ------------------------------------------------------------------------------

  ghost predicate NoSuccess(b: seq<Entry>) {
    forall i :: 0 <= i < |b| ==> b[i].outcome != Success
  }

  lemma AbandonedHasNoSuccess(b: seq<Entry>, levels: seq<Model>, maxRetries: int, level: nat)
    requires level < |levels| && Abandoned(b, levels, maxRetries, level)
    ensures NoSuccess(b) && |b| <= Max(0, maxRetries)
  {
    assert forall i :: 0 <= i < |b| - 1 ==> b[i] == b[..|b| - 1][i];
  }

  /** n * width, by repeated addition. */
  function Rows(n: nat, width: nat): nat {
    if n == 0 then 0 else Rows(n - 1, width) + width
  }

  lemma {:induction false} RowsBound(n: nat, m: nat, width: nat)
    requires n <= m
    ensures Rows(n, width) <= Rows(m, width) == m * width
    decreases m
  {
    if m > 0 {
      RowsBound(if n < m then n else n - 1, m - 1, width);
      assert m * width == (m - 1) * width + width;
    }
  }

  lemma {:induction false} BlocksLength(blocks: seq<seq<Entry>>, levels: seq<Model>, maxRetries: int)
    requires |blocks| <= |levels|
    requires forall l :: 0 <= l < |blocks| ==> Abandoned(blocks[l], levels, maxRetries, l)
    ensures |Flatten(blocks)| <= Rows(|blocks|, Max(0, maxRetries)) && NoSuccess(Flatten(blocks))
  {
    if blocks != [] {
      var front, last := blocks[..|blocks| - 1], |blocks| - 1;
      forall l | 0 <= l < last ensures Abandoned(front[l], levels, maxRetries, l) {
        assert front[l] == blocks[l];
      }
      BlocksLength(front, levels, maxRetries);
      AbandonedHasNoSuccess(blocks[last], levels, maxRetries, last);
    }
  }

  /** Attempts are bounded by levels times retries; a success is the last entry and the only one of its kind, made
      by the model of the level that `execute` reports. */
  lemma ShapeBounds(levels: seq<Model>, maxRetries: int, p: Progress)
    requires Shape(levels, maxRetries, p)
    ensures |p.Trace()| <= |levels| * Max(0, maxRetries)
    ensures forall i :: 0 <= i < |p.Trace()| ==>
              (p.Trace()[i].outcome == Success <==> p.done && i == |p.Trace()| - 1)
    ensures p.done ==> p.Trace() != [] && p.Level() < |levels|
                       && p.Trace()[|p.Trace()| - 1].model == levels[p.Level()]
  {
    BlocksLength(p.closed, levels, maxRetries);
    var last := |p.current| - 1;
    assert p.done ==> forall i :: 0 <= i < last ==> p.current[i] == p.current[..last][i];
    RowsBound(if p.Level() < |levels| then p.Level() + 1 else p.Level(), |levels|, Max(0, maxRetries));
  }

  /** The longest sleep one level can cause: all the back-offs but the last, and one rpm wait. */
  function LevelSleep(maxRetries: int): real
    requires maxRetries > 0
  {
    Pow2(maxRetries - 1) - 1.0 + RPM_WAIT
  }

  /** n times the sleep of one level. */
  function LevelSleeps(n: nat, maxRetries: int): real
    requires maxRetries > 0
  {
    if n == 0 then 0.0 else LevelSleeps(n - 1, maxRetries) + LevelSleep(maxRetries)
  }

  /** The errors of the current level so far; each was followed by its back-off. */
  function Errors(p: Progress): nat {
    if p.done && p.current != [] then |p.current| - 1 else |p.current|
  }

  ghost predicate SleepBounded(maxRetries: int, p: Progress) {
    && p.slept >= 0.0
    && (maxRetries <= 0 ==> p.slept == 0.0)
    && (maxRetries > 0 ==> p.slept <= LevelSleeps(p.Level(), maxRetries) + (Pow2(Errors(p)) - 1.0))
  }

  lemma {:induction false} Pow2Monotone(a: nat, b: nat)
    requires a <= b
    ensures Pow2(a) <= Pow2(b)
    decreases b - a
  {
    if a < b {
      Pow2Monotone(a, b - 1);
    }
  }

  lemma AdvanceKeepsSleep(levels: seq<Model>, maxRetries: int, p: Progress, o: Outcome, waited: bool)
    requires SleepBounded(maxRetries, p) && Shape(levels, maxRetries, p) && !Over(levels, p) && Possible(o, waited)
    ensures SleepBounded(maxRetries, Advance(levels, maxRetries, p, o, waited))
  {
    Pow2Monotone(|p.current|, maxRetries - 1);
  }

  lemma {:induction false} SleepsProduct(n: nat, m: nat, maxRetries: int)
    requires n <= m && maxRetries > 0
    ensures LevelSleeps(n, maxRetries) <= LevelSleeps(m, maxRetries) == m as real * LevelSleep(maxRetries)
    decreases m
  {
    if m > 0 {
      SleepsProduct(if n < m then n else n - 1, m - 1, maxRetries);
      var c, k := LevelSleep(maxRetries), (m - 1) as real;
      assert (k + 1.0) * c == k * c + c;
      assert m as real == k + 1.0;
    }
  }

  /** In total an execution sleeps at most levels * (2^(maxRetries-1) - 1 + 0.5) seconds. */
  lemma TotalSleep(levels: seq<Model>, maxRetries: int, p: Progress)
    requires SleepBounded(maxRetries, p) && Shape(levels, maxRetries, p) && maxRetries > 0
    ensures p.slept <= |levels| as real * LevelSleep(maxRetries)
  {
    SleepsProduct(|levels|, |levels|, maxRetries);
    SleepWithinLevels(levels, maxRetries, p);
  }

  lemma SleepWithinLevels(levels: seq<Model>, maxRetries: int, p: Progress)
    requires SleepBounded(maxRetries, p) && Shape(levels, maxRetries, p) && maxRetries > 0
    ensures p.slept <= LevelSleeps(|levels|, maxRetries)
  {
    if p.Level() < |levels| {
      Pow2Monotone(Errors(p), maxRetries - 1);
      SleepsProduct(p.Level() + 1, |levels|, maxRetries);
    }
  }

  // ---- the slot that is never released -----------------------------------------------------------

  /** An attempt leaks a slot exactly when the first acquire meets a full minute window, and half a second later the
      window, the quota and the slots all have room. */
  lemma LeakExactly(s: Limits, m: Model, now: real, later: real)
    requires now <= later
    ensures (Judge(s, m, SLOTS, now) == DeniedRpm
             && Judge(Acquired(s, m, SLOTS, now), m, SLOTS, later) == Granted)
            <==> (&& s.UsedOn(m, UtcDay(now)) < s.Limit(m)
                  && |Prune(s.Window(m), now)| >= s.Rpm(m)
                  && |Prune(s.Window(m), later)| < s.Rpm(m)
                  && CheckReset(s, UtcDay(now)).UsedOn(m, UtcDay(later)) < s.Limit(m)
                  && s.InFlight(m) < SLOTS)
  {
    PruneTwice(s.Window(m), now, later);
  }

  lemma {:induction false} PruneTwice(w: seq<real>, now: real, later: real)
    requires now <= later
    ensures Prune(Prune(w, now), later) == Prune(w, later)
  {
    if w != [] && now - w[0] >= 60.0 {
      PruneTwice(w[1..], now, later);
    }
  }

  // ---- one attempt and a whole execution, as functions -------------------------------------------

  /** The breaker, with the limiter it reads when that is not the executor's own. */
  datatype Gate = Gate(own: Option<Limits>, breaker: Breaker)

  datatype Attempted = Attempted(limits: Limits, gate: Gate, outcome: Outcome, waited: bool, tick: nat)

  datatype Passage = Passage(limits: Limits, gate: Gate, allowed: bool)

  /** What the breaker says about a request, from the limiter it reads. */
  function GateOf(l: Limits, g: Gate, m: Model, now: real): Passage {
    var today := UtcDay(now);
    var seen := if g.own.Some? then g.own.value else l;
    var b := Evaluated(g.breaker, m, seen.UsedOn(m, today), seen.Limit(m), today);
    Passage(
      if g.own.Some? then l else CheckReset(l, today),
      Gate(if g.own.Some? then Some(CheckReset(seen, today)) else None,
           if b.CircuitOf(m) == HalfOpen then Probed(b, m) else b),
      b.CircuitOf(m) == Closed || (b.CircuitOf(m) == HalfOpen && ProbeAllowed(b, m)))
  }

  /** From the first acquire to the trace entry. */
  function AdmitOf(l: Limits, g: Gate, m: Model, clock: nat -> real, tick: nat, call: bool): Attempted {
    var l1 := Acquired(l, m, SLOTS, clock(tick));
    match Judge(l, m, SLOTS, clock(tick))
    case Granted => Attempted(Released(l1, m), g, if call then Success else Failure, false, tick + 1)
    case DeniedDaily => Attempted(Penalized(l1, m), g, RateLimited(DeniedDaily), false, tick + 1)
    case DeniedConcurrent => Attempted(l1, g, RateLimited(DeniedConcurrent), false, tick + 1)
    case DeniedRpm =>
      var l2 := Acquired(l1, m, SLOTS, clock(tick + 1));
      var v := Judge(l1, m, SLOTS, clock(tick + 1));
      Attempted(if v == DeniedDaily then Penalized(l2, m) else l2, g, RateLimited(v), true, tick + 2)
  }

  /** One attempt at m, up to its trace entry, when nothing else runs. `clock` gives the readings of the clock in order,
      `call` says whether the call to the model succeeds. */
  function AttemptOf(l: Limits, g: Gate, m: Model, request: Request, clock: nat -> real, tick: nat, call: bool):
    Attempted
  {
    var p := GateOf(l, g, m, clock(tick));
    var b := p.gate.breaker;
    if p.allowed then AdmitOf(p.limits, p.gate, m, clock, tick + 1, call)
    else
      var queued := Enqueued(b, m, request, clock(tick + 1));
      Attempted(p.limits, p.gate.(breaker := queued), CircuitOpen(HasRoom(b, m)), false, tick + 2)
  }

  datatype Ended = Ended(limits: Limits, gate: Gate, progress: Progress)

  /** An execution from progress p to its end. The k-th attempt's call behaves as `calls(k)` says. */
  function RunOf(levels: seq<Model>, maxRetries: int, request: Request, clock: nat -> real, calls: nat -> bool,
                 l: Limits, g: Gate, p: Progress, tick: nat): Ended
    decreases |levels| - p.Level(), Max(0, maxRetries - |p.current|), !p.done
  {
    if Over(levels, p) then Ended(l, g, p) else
      var a := AttemptOf(l, g, levels[p.Level()], request, clock, tick, calls(|p.Trace()| + 1));
      RunOf(levels, maxRetries, request, clock, calls, a.limits, a.gate,
            Advance(levels, maxRetries, p, a.outcome, a.waited), a.tick)
  }

  /** What holds after every attempt, whatever the gates and the calls do. */
  ghost predicate Sane(levels: seq<Model>, maxRetries: int, p: Progress) {
    Shape(levels, maxRetries, p) && SleepBounded(maxRetries, p)
  }

  lemma {:induction false} EmptyBlocks(blocks: seq<seq<Entry>>)
    requires forall i :: 0 <= i < |blocks| ==> blocks[i] == []
    ensures Flatten(blocks) == []
  {
    if blocks != [] {
      EmptyBlocks(blocks[..|blocks| - 1]);
    }
  }

  lemma StartSane(levels: seq<Model>, maxRetries: int)
    ensures Sane(levels, maxRetries, Start(levels, maxRetries)) && Start(levels, maxRetries).Trace() == []
  {
    EmptyBlocks(Start(levels, maxRetries).closed);
  }

  lemma AdvanceSane(levels: seq<Model>, maxRetries: int, p: Progress, o: Outcome, waited: bool)
    requires Sane(levels, maxRetries, p) && !Over(levels, p) && Possible(o, waited)
    ensures Sane(levels, maxRetries, Advance(levels, maxRetries, p, o, waited))
  {
    AdvanceKeepsShape(levels, maxRetries, p, o, waited);
    AdvanceKeepsSleep(levels, maxRetries, p, o, waited);
  }

  /** Every execution ends with a trace of the right shape and a bounded sleep. */
  lemma {:induction false} RunIsSane(levels: seq<Model>, maxRetries: int, request: Request, clock: nat -> real,
                                     calls: nat -> bool, l: Limits, g: Gate, p: Progress, tick: nat)
    requires Sane(levels, maxRetries, p)
    ensures var r := RunOf(levels, maxRetries, request, clock, calls, l, g, p, tick);
            Sane(levels, maxRetries, r.progress) && Over(levels, r.progress)
    decreases |levels| - p.Level(), Max(0, maxRetries - |p.current|), !p.done
  {
    hide Sane, AttemptOf, Progress.Trace;
    if !Over(levels, p) {
      var a := AttemptOf(l, g, levels[p.Level()], request, clock, tick, calls(|p.Trace()| + 1));
      AttemptPossible(l, g, levels[p.Level()], request, clock, tick, calls(|p.Trace()| + 1));
      AdvanceSane(levels, maxRetries, p, a.outcome, a.waited);
      RunIsSane(levels, maxRetries, request, clock, calls, a.limits, a.gate,
                Advance(levels, maxRetries, p, a.outcome, a.waited), a.tick);
    }
  }

  lemma AttemptPossible(l: Limits, g: Gate, m: Model, request: Request, clock: nat -> real, tick: nat, call: bool)
    ensures var a := AttemptOf(l, g, m, request, clock, tick, call);
            Possible(a.outcome, a.waited)
  {
    hide Judge, Acquired, Released, Penalized, GateOf, Enqueued;
  }

  ghost predicate NoNegativeSlots(s: Limits) {
    forall m :: s.InFlight(m) >= 0
  }

  lemma AttemptShifts(l: Limits, g: Gate, m: Model, request: Request, clock: nat -> real, tick: nat, call: bool)
    requires NoNegativeSlots(l)
    ensures var a := AttemptOf(l, g, m, request, clock, tick, call);
            Shifted(l, a.limits, m, if a.outcome == RateLimited(Granted) then 1 else 0)
  {
    hide AdmitOf, GateOf, Enqueued;
    var p := GateOf(l, g, m, clock(tick));
    GateShifts(l, g, m, clock(tick));
    assert l.InFlight(m) >= 0;
    if p.allowed {
      AdmitShifts(p.limits, p.gate, m, clock, tick + 1, call);
    }
  }

  lemma GateShifts(l: Limits, g: Gate, m: Model, now: real)
    ensures Shifted(l, GateOf(l, g, m, now).limits, m, 0)
  {
    hide Evaluated, Probed;
  }

  lemma AdmitShifts(l: Limits, g: Gate, m: Model, clock: nat -> real, tick: nat, call: bool)
    requires l.InFlight(m) >= 0
    ensures var a := AdmitOf(l, g, m, clock, tick, call);
            Shifted(l, a.limits, m, if a.outcome == RateLimited(Granted) then 1 else 0)
  {
    hide Judge, Acquired;
    AcquiredShifts(l, m, SLOTS, clock(tick));
    var l1 := Acquired(l, m, SLOTS, clock(tick));
    AcquiredShifts(l1, m, SLOTS, clock(tick + 1));
    if l1.InFlight(m) > 0 {
      ReleasedShifts(l1, m);
    }
  }

  lemma ShiftedUp(before: Limits, after: Limits, m: Model, n: nat)
    requires NoNegativeSlots(before) && Shifted(before, after, m, n)
    ensures NoNegativeSlots(after)
  {
    forall k ensures after.InFlight(k) >= 0 {
      assert before.InFlight(k) >= 0;
    }
  }

  /** A finished execution has changed the in-flight counter of m by exactly its "rate_limit:None" entries for m. */
  lemma {:induction false} RunLeaks(levels: seq<Model>, maxRetries: int, request: Request, clock: nat -> real,
                                    calls: nat -> bool, l: Limits, g: Gate, p: Progress, tick: nat, m: Model)
    requires NoNegativeSlots(l)
    ensures var r := RunOf(levels, maxRetries, request, clock, calls, l, g, p, tick);
            r.limits.InFlight(m) - l.InFlight(m) == LeakCount(r.progress.Trace(), m) - LeakCount(p.Trace(), m)
    decreases |levels| - p.Level(), Max(0, maxRetries - |p.current|), !p.done
  {
    hide AttemptOf, NoNegativeSlots, LeakCount, Progress.Trace;
    if !Over(levels, p) {
      var target := levels[p.Level()];
      var a := AttemptOf(l, g, target, request, clock, tick, calls(|p.Trace()| + 1));
      var q := Advance(levels, maxRetries, p, a.outcome, a.waited);
      AttemptShifts(l, g, target, request, clock, tick, calls(|p.Trace()| + 1));
      AdvanceTrace(levels, maxRetries, p, a.outcome, a.waited);
      ShiftedUp(l, a.limits, target, if a.outcome == RateLimited(Granted) then 1 else 0);
      LeakCountAppend(p.Trace(), NextEntry(levels, p, a.outcome), m);
      RunLeaks(levels, maxRetries, request, clock, calls, a.limits, a.gate, q, a.tick, m);
    }
  }

  // ---- the method --------------------------------------------------------------------------------

  datatype FallbackResult = FallbackResult(
    role: string, chosenModel: Option<Model>, levelUsed: nat, success: bool, attempts: nat, trace: seq<Entry>,
    error: Option<string>)

  function ResultOf(role: string, levels: seq<Model>, p: Progress): FallbackResult {
    if p.done && p.Level() < |levels| then
      FallbackResult(role, Some(levels[p.Level()]), p.Level() + 1, true, |p.Trace()|, p.Trace(), None)
    else
      FallbackResult(role, None, 0, false, |p.Trace()|, p.Trace(), Some("all_fallback_levels_failed"))
  }

  /** What `execute` returns, whatever gates and calls do: attempts and sleep are bounded, and it reports success
      exactly if the last entry is a success, which is then the only one and made by the model it names. */
  lemma ResultBounds(role: string, levels: seq<Model>, maxRetries: int, request: Request, clock: nat -> real,
                     calls: nat -> bool, l: Limits, g: Gate)
    ensures var p := RunOf(levels, maxRetries, request, clock, calls, l, g, Start(levels, maxRetries), 0).progress;
            var r := ResultOf(role, levels, p);
            && r.attempts == |r.trace| <= |levels| * Max(0, maxRetries)
            && (forall i :: 0 <= i < |r.trace| - 1 ==> r.trace[i].outcome != Success)
            && (r.success <==> r.trace != [] && Last(r.trace).outcome == Success)
            && (r.success ==> 1 <= r.levelUsed <= |levels| && r.chosenModel == Some(levels[r.levelUsed - 1])
                              && Last(r.trace).model == levels[r.levelUsed - 1])
            && (if maxRetries > 0 then p.slept <= |levels| as real * LevelSleep(maxRetries) else p.slept == 0.0)
  {
    hide RunOf, Shape, Start, Flatten, LevelSleep;
    StartSane(levels, maxRetries);
    RunIsSane(levels, maxRetries, request, clock, calls, l, g, Start(levels, maxRetries), 0);
    var p := RunOf(levels, maxRetries, request, clock, calls, l, g, Start(levels, maxRetries), 0).progress;
    ShapeBounds(levels, maxRetries, p);
    if maxRetries > 0 {
      TotalSleep(levels, maxRetries, p);
    }
  }

  // ---- the result in the terms of the chain ----------------------------------------------------------

  /** The entry tried the model that the chain names for its level. */
  predicate Names(c: Chain, e: Entry) {
    || (e.level == 1 && e.model == c.primary)
    || (e.level == 2 && e.model == c.fallback1)
    || (e.level == 3 && c.fallback2 == Some(e.model) && e.model != "")
  }

  /** An error with retries left. */
  predicate TriedAgain(c: Chain, e: Entry) {
    e.outcome == Failure && e.retry < c.maxRetries
  }

  /** After an error with retries left the same level is tried again, after any other but a success the next one. */
  predicate Follows(c: Chain, a: Entry, b: Entry) {
    if TriedAgain(c, a) then b.level == a.level && b.retry == a.retry + 1
    else a.outcome != Success && b.level == a.level + 1 && b.retry == 1
  }

  predicate IsLastLevel(c: Chain, level: nat) {
    if c.fallback2.Some? && c.fallback2.value != "" then level == 3 else level == 2
  }

  ghost predicate Linked(c: Chain, trace: seq<Entry>) {
    && (trace != [] ==> trace[0].level == 1 && trace[0].retry == 1)
    && (forall i :: 0 <= i < |trace| ==> Names(c, trace[i]))
    && forall i :: 0 <= i < |trace| - 1 ==> Follows(c, trace[i], trace[i + 1])
  }

  /** The whole trace: from the primary on, level by level, until a success or the end of the chain. */
  ghost predicate Tells(c: Chain, trace: seq<Entry>) {
    && Linked(c, trace)
    && (trace == [] <==> c.maxRetries <= 0)
    && (trace != [] && Last(trace).outcome != Success ==>
          !TriedAgain(c, Last(trace)) && IsLastLevel(c, Last(trace).level))
  }

  /** What `execute` answers for a trace. */
  predicate Answers(role: string, trace: seq<Entry>, r: FallbackResult) {
    r == if trace != [] && Last(trace).outcome == Success then
           FallbackResult(role, Some(Last(trace).model), Last(trace).level, true, |trace|, trace, None)
         else FallbackResult(role, None, 0, false, |trace|, trace, Some("all_fallback_levels_failed"))
  }

  /** Where an execution stands after its last entry. */
  ghost predicate Stands(c: Chain, p: Progress) {
    var trace := p.Trace();
    if trace == [] then
      p.current == [] && !p.done && p.Level() == (if c.maxRetries > 0 then 0 else |c.Levels()|)
    else
      && c.maxRetries > 0 && (p.done <==> Last(trace).outcome == Success)
      && (if p.done || TriedAgain(c, Last(trace)) then
            p.Level() + 1 == Last(trace).level && |p.current| == Last(trace).retry
          else p.Level() == Last(trace).level && p.current == [])
  }

  lemma AdvanceLinks(c: Chain, p: Progress, o: Outcome, waited: bool)
    requires !Over(c.Levels(), p) && Linked(c, p.Trace()) && Stands(c, p)
    ensures var q := Advance(c.Levels(), c.maxRetries, p, o, waited);
            Linked(c, q.Trace()) && Stands(c, q)
  {
    AdvanceTrace(c.Levels(), c.maxRetries, p, o, waited);
    AdvanceStands(c, p, o, waited);
    LevelNames(c, p, o);
    NextFollows(c, p, o);
    hide Names, Follows, Advance, Over, NextEntry, Progress.Trace, Linked, Stands, Chain.Levels;
    LinkedMore(c, p.Trace(), NextEntry(c.Levels(), p, o));
  }

  lemma NextFollows(c: Chain, p: Progress, o: Outcome)
    requires !Over(c.Levels(), p) && Stands(c, p)
    ensures var trace, e := p.Trace(), NextEntry(c.Levels(), p, o);
            if trace == [] then e.level == 1 && e.retry == 1 else Follows(c, Last(trace), e)
  {
    hide Progress.Trace, Chain.Levels;
  }

  lemma LevelNames(c: Chain, p: Progress, o: Outcome)
    requires !Over(c.Levels(), p)
    ensures Names(c, NextEntry(c.Levels(), p, o))
  {
  }

  lemma AdvanceStands(c: Chain, p: Progress, o: Outcome, waited: bool)
    requires !Over(c.Levels(), p) && Stands(c, p)
    ensures Stands(c, Advance(c.Levels(), c.maxRetries, p, o, waited))
  {
    AdvanceTrace(c.Levels(), c.maxRetries, p, o, waited);
    AdvancePosition(c.Levels(), c.maxRetries, p, o, waited);
    hide Advance, Progress.Trace, Chain.Levels;
  }

  lemma LinkedMore(c: Chain, trace: seq<Entry>, e: Entry)
    requires Linked(c, trace) && Names(c, e)
    requires if trace == [] then e.level == 1 && e.retry == 1 else Follows(c, Last(trace), e)
    ensures Linked(c, trace + [e])
  {
    hide Names, Follows;
  }

  lemma {:induction false} RunLinks(c: Chain, request: Request, clock: nat -> real, calls: nat -> bool, l: Limits,
                                    g: Gate, p: Progress, tick: nat)
    requires Linked(c, p.Trace()) && Stands(c, p)
    ensures var q := RunOf(c.Levels(), c.maxRetries, request, clock, calls, l, g, p, tick).progress;
            Linked(c, q.Trace()) && Stands(c, q) && Over(c.Levels(), q)
    decreases |c.Levels()| - p.Level(), Max(0, c.maxRetries - |p.current|), !p.done
  {
    hide Linked, Stands, AttemptOf, Progress.Trace, Chain.Levels;
    var levels := c.Levels();
    if !Over(levels, p) {
      var a := AttemptOf(l, g, levels[p.Level()], request, clock, tick, calls(|p.Trace()| + 1));
      AdvanceLinks(c, p, a.outcome, a.waited);
      RunLinks(c, request, clock, calls, a.limits, a.gate, Advance(levels, c.maxRetries, p, a.outcome, a.waited),
               a.tick);
    }
  }

  /** An execution tries the primary first, then the first fallback, then the second if the chain has one; each as
      often as errors and retries allow; and it answers with the model and the level of its last entry. */
  lemma ExecutionTells(c: Chain, role: string, request: Request, clock: nat -> real, calls: nat -> bool, l: Limits,
                       g: Gate)
    ensures var p := RunOf(c.Levels(), c.maxRetries, request, clock, calls, l, g, Start(c.Levels(), c.maxRetries), 0)
                     .progress;
            Tells(c, p.Trace()) && Answers(role, p.Trace(), ResultOf(role, c.Levels(), p))
  {
    var p0 := Start(c.Levels(), c.maxRetries);
    StartSane(c.Levels(), c.maxRetries);
    RunLinks(c, request, clock, calls, l, g, p0, 0);
    var p := RunOf(c.Levels(), c.maxRetries, request, clock, calls, l, g, p0, 0).progress;
    var trace := p.Trace();
    hide RunOf, Start, Progress.Trace;
    assert trace != [] ==> Names(c, Last(trace));
  }

  /** When the first gate and the first acquire let it through and the call succeeds, the primary answers. */
  lemma PrimaryAnswers(c: Chain, role: string, request: Request, clock: nat -> real, calls: nat -> bool, l: Limits,
                       g: Gate)
    requires c.maxRetries > 0 && calls(1)
    requires var first := GateOf(l, g, c.primary, clock(0));
             first.allowed && Judge(first.limits, c.primary, 10, clock(1)) == Granted
    ensures var p := RunOf(c.Levels(), c.maxRetries, request, clock, calls, l, g, Start(c.Levels(), c.maxRetries), 0)
                     .progress;
            && ResultOf(role, c.Levels(), p) ==
                 FallbackResult(role, Some(c.primary), 1, true, 1, [Entry(1, 1, c.primary, Success)], None)
            && p.slept == 0.0
  {
    FirstAttempt(l, g, c.primary, request, clock, 0);
    FirstAdvance(c);
    hide AttemptOf, GateOf, Judge, RunOf, Progress.Trace, Start, Advance, Chain.Levels;
    SuccessEnds(c.Levels(), c.maxRetries, request, clock, calls, l, g, Start(c.Levels(), c.maxRetries), 0);
  }

  lemma SuccessEnds(levels: seq<Model>, maxRetries: int, request: Request, clock: nat -> real, calls: nat -> bool,
                    l: Limits, g: Gate, p: Progress, tick: nat)
    requires !Over(levels, p)
    requires var a := AttemptOf(l, g, levels[p.Level()], request, clock, tick, calls(|p.Trace()| + 1));
             a.outcome == Success && !a.waited
    ensures RunOf(levels, maxRetries, request, clock, calls, l, g, p, tick).progress
            == Advance(levels, maxRetries, p, Success, false)
  {
    RunAttempt(levels, maxRetries, request, clock, calls, l, g, p, tick);
    var a := AttemptOf(l, g, levels[p.Level()], request, clock, tick, calls(|p.Trace()| + 1));
    var q := Advance(levels, maxRetries, p, Success, false);
    assert q.done;
    hide AttemptOf, RunOf, Progress.Trace, Advance;
    RunEnds(levels, maxRetries, request, clock, calls, a.limits, a.gate, q, a.tick);
  }

  /** One success on the first attempt. */
  lemma FirstAdvance(c: Chain)
    requires c.maxRetries > 0
    ensures |c.Levels()| > 1 && c.Levels()[0] == c.primary
    ensures var p0 := Start(c.Levels(), c.maxRetries);
      && p0.Level() == 0 && !p0.done && p0.Trace() == []
      && var q := Advance(c.Levels(), c.maxRetries, p0, Success, false);
         q.done && q.Level() == 0 && q.slept == 0.0 && q.Trace() == [Entry(1, 1, c.primary, Success)]
  {
    var p0 := Start(c.Levels(), c.maxRetries);
    StartSane(c.Levels(), c.maxRetries);
    AdvanceTrace(c.Levels(), c.maxRetries, p0, Success, false);
    assert [] + [NextEntry(c.Levels(), p0, Success)] == [Entry(1, 1, c.primary, Success)];
    hide Progress.Trace, Sane;
  }

  lemma FirstAttempt(l: Limits, g: Gate, m: Model, request: Request, clock: nat -> real, tick: nat)
    requires var first := GateOf(l, g, m, clock(tick));
             first.allowed && Judge(first.limits, m, 10, clock(tick + 1)) == Granted
    ensures var a := AttemptOf(l, g, m, request, clock, tick, true);
            a.outcome == Success && !a.waited
  {
    hide Judge, GateOf, Acquired, Released, Penalized, Enqueued;
  }

  lemma RunAttempt(levels: seq<Model>, maxRetries: int, request: Request, clock: nat -> real, calls: nat -> bool,
                   l: Limits, g: Gate, p: Progress, tick: nat)
    requires !Over(levels, p)
    ensures var a := AttemptOf(l, g, levels[p.Level()], request, clock, tick, calls(|p.Trace()| + 1));
            RunOf(levels, maxRetries, request, clock, calls, l, g, p, tick)
            == RunOf(levels, maxRetries, request, clock, calls, a.limits, a.gate,
                     Advance(levels, maxRetries, p, a.outcome, a.waited), a.tick)
  {
    hide AttemptOf, Advance;
  }

  lemma RunEnds(levels: seq<Model>, maxRetries: int, request: Request, clock: nat -> real, calls: nat -> bool,
                l: Limits, g: Gate, p: Progress, tick: nat)
    requires Over(levels, p)
    ensures RunOf(levels, maxRetries, request, clock, calls, l, g, p, tick) == Ended(l, g, p)
  {
  }

  // ---- what one attempt leaves behind --------------------------------------------------------------------

  /** Within a day, an attempt uses up one call of the quota when it called the model, leaked a slot or met a spent
      quota, and none otherwise; a spent quota counts as two 429s. */
  lemma AttemptCounts(l: Limits, g: Gate, m: Model, request: Request, clock: nat -> real, tick: nat, call: bool,
                     k: Model)
    requires l.resetDay.Some?
    requires forall i :: tick <= i <= tick + 2 ==> l.resetDay == Some(UtcDay(clock(i)))
    ensures var a := AttemptOf(l, g, m, request, clock, tick, call);
      && a.limits.resetDay == l.resetDay
      && a.limits.Used(k) == l.Used(k) +
           (if k == m && a.outcome in {Success, Failure, RateLimited(Granted), RateLimited(DeniedDaily)} then 1 else 0)
      && a.limits.total429s == l.total429s + (if a.outcome == RateLimited(DeniedDaily) then 2 else 0)
  {
    var p := GateOf(l, g, m, clock(tick));
    assert p.limits == l by {
      hide Evaluated, Probed;
      assert l.resetDay == Some(UtcDay(clock(tick)));
    }
    hide GateOf, Enqueued;
    if p.allowed {
      AdmitCounts(l, p.gate, m, clock, tick + 1, call, k);
    }
  }

  lemma AdmitCounts(l: Limits, g: Gate, m: Model, clock: nat -> real, tick: nat, call: bool, k: Model)
    requires l.resetDay == Some(UtcDay(clock(tick))) == Some(UtcDay(clock(tick + 1)))
    ensures var a := AdmitOf(l, g, m, clock, tick, call);
      && a.limits.resetDay == l.resetDay && !a.outcome.CircuitOpen?
      && a.limits.Used(k) == l.Used(k) +
           (if k == m && a.outcome in {Success, Failure, RateLimited(Granted), RateLimited(DeniedDaily)} then 1 else 0)
      && a.limits.total429s == l.total429s + (if a.outcome == RateLimited(DeniedDaily) then 2 else 0)
  {
    AcquireCounts(l, m, clock(tick), k);
    AcquireCounts(Acquired(l, m, SLOTS, clock(tick)), m, clock(tick + 1), k);
    hide Acquired, Judge;
  }

  lemma AcquireCounts(l: Limits, m: Model, now: real, k: Model)
    requires l.resetDay == Some(UtcDay(now))
    ensures var a, v := Acquired(l, m, SLOTS, now), Judge(l, m, SLOTS, now);
      && a.resetDay == l.resetDay
      && a.Used(k) == l.Used(k) + (if k == m && v == Granted then 1 else 0)
      && a.total429s == l.total429s + (if v == DeniedDaily then 1 else 0)
  {
    hide Judge;
  }

  /** An attempt leaves its request in the queue of its model exactly if the circuit refused it and fewer than 100
      requests wait there; no other queue changes. */
  lemma AttemptQueues(l: Limits, g: Gate, m: Model, request: Request, clock: nat -> real, tick: nat, call: bool,
                     k: Model)
    ensures var a := AttemptOf(l, g, m, request, clock, tick, call);
      && (a.outcome.CircuitOpen? ==> (a.outcome.queued <==> |g.breaker.Queue(m)| < 100))
      && a.gate.breaker.Queue(k) == g.breaker.Queue(k) +
           (if k == m && a.outcome == CircuitOpen(true) then [Queued(clock(tick + 1), request)] else [])
  {
    GateQueues(l, g, m, clock(tick));
    var b := GateOf(l, g, m, clock(tick)).gate.breaker;
    EnqueuedQueue(b, m, request, clock(tick + 1), k);
    hide GateOf, Judge, Acquired, Released, Penalized, Enqueued, HasRoom, Breaker.Queue;
  }

  lemma GateQueues(l: Limits, g: Gate, m: Model, now: real)
    ensures forall k :: GateOf(l, g, m, now).gate.breaker.Queue(k) == g.breaker.Queue(k)
  {
    hide Pct, ProbeAllowed, Breaker.CircuitOf, Breaker.ProbesUsed, UtcDay, CheckReset;
  }

  lemma EnqueuedQueue(b: Breaker, m: Model, r: Request, now: real, k: Model)
    ensures HasRoom(b, m) <==> |b.Queue(m)| < 100
    ensures Enqueued(b, m, r, now).Queue(k) ==
      b.Queue(k) + (if k == m && |b.Queue(m)| < 100 then [Queued(now, r)] else [])
  {
  }

  // ---- how long it sleeps -----------------------------------------------------------------------------

  /** After the k-th error on a level comes a pause of 2^(k-1) seconds, unless it was the last attempt there. */
  function BackOffs(trace: seq<Entry>, maxRetries: int): real {
    if trace == [] then 0.0 else
      var e := Last(trace);
      BackOffs(Front(trace), maxRetries)
      + if e.outcome == Failure && 1 <= e.retry < maxRetries then Pow2(e.retry - 1) else 0.0
  }

  /** The entries made after an rpm wait, and those that may have been. */
  function Waited(trace: seq<Entry>): nat {
    if trace == [] then 0 else
      Waited(Front(trace))
      + if Last(trace).outcome == RateLimited(Granted) || Last(trace).outcome == RateLimited(DeniedRpm) then 1 else 0
  }

  function MayHaveWaited(trace: seq<Entry>): nat {
    if trace == [] then 0 else MayHaveWaited(Front(trace)) + if Last(trace).outcome.RateLimited? then 1 else 0
  }

  /** The pauses are the back-offs that the trace tells of, and half a second for each rpm wait. */
  ghost predicate Sleeps(trace: seq<Entry>, maxRetries: int, slept: real) {
    exists n: nat :: Waited(trace) <= n <= MayHaveWaited(trace) && SleptFor(trace, maxRetries, slept, n)
  }

  predicate SleptFor(trace: seq<Entry>, maxRetries: int, slept: real, waits: nat) {
    slept == BackOffs(trace, maxRetries) + 0.5 * waits as real
  }

  lemma WaitTells(l: Limits, g: Gate, m: Model, request: Request, clock: nat -> real, tick: nat, call: bool)
    ensures var a := AttemptOf(l, g, m, request, clock, tick, call);
      && (a.waited ==> a.outcome.RateLimited?)
      && (a.outcome == RateLimited(Granted) || a.outcome == RateLimited(DeniedRpm) ==> a.waited)
  {
    hide Judge, Acquired, Released, Penalized, GateOf, Enqueued;
  }

  lemma AdvanceSleeps(levels: seq<Model>, maxRetries: int, p: Progress, o: Outcome, waited: bool)
    requires !Over(levels, p) && Sleeps(p.Trace(), maxRetries, p.slept)
    requires (waited ==> o.RateLimited?) && (o == RateLimited(Granted) || o == RateLimited(DeniedRpm) ==> waited)
    ensures var q := Advance(levels, maxRetries, p, o, waited);
            Sleeps(q.Trace(), maxRetries, q.slept)
  {
    AdvanceTrace(levels, maxRetries, p, o, waited);
    AdvancePosition(levels, maxRetries, p, o, waited);
    var q, e, trace := Advance(levels, maxRetries, p, o, waited), NextEntry(levels, p, o), p.Trace();
    SleepsMore(trace, maxRetries, e);
    var n: nat :| Waited(trace) <= n <= MayHaveWaited(trace) && SleptFor(trace, maxRetries, p.slept, n);
    hide Progress.Trace, Advance, Waited, MayHaveWaited, BackOffs;
    assert SleptFor(trace + [e], maxRetries, q.slept, if waited then n + 1 else n);
  }

  lemma SleepsMore(trace: seq<Entry>, maxRetries: int, e: Entry)
    ensures BackOffs(trace + [e], maxRetries) == BackOffs(trace, maxRetries)
      + if e.outcome == Failure && 1 <= e.retry < maxRetries then Pow2(e.retry - 1) else 0.0
    ensures Waited(trace + [e]) ==
      Waited(trace) + if e.outcome == RateLimited(Granted) || e.outcome == RateLimited(DeniedRpm) then 1 else 0
    ensures MayHaveWaited(trace + [e]) == MayHaveWaited(trace) + if e.outcome.RateLimited? then 1 else 0
  {
    assert Front(trace + [e]) == trace && Last(trace + [e]) == e;
    hide Pow2;
  }

  /** The exact sleep of an execution. */
  lemma {:induction false} RunSleeps(levels: seq<Model>, maxRetries: int, request: Request, clock: nat -> real,
                                     calls: nat -> bool, l: Limits, g: Gate, p: Progress, tick: nat)
    requires Sleeps(p.Trace(), maxRetries, p.slept)
    ensures var q := RunOf(levels, maxRetries, request, clock, calls, l, g, p, tick).progress;
            Sleeps(q.Trace(), maxRetries, q.slept)
    decreases |levels| - p.Level(), Max(0, maxRetries - |p.current|), !p.done
  {
    hide Sleeps, AttemptOf, Progress.Trace;
    if !Over(levels, p) {
      var a := AttemptOf(l, g, levels[p.Level()], request, clock, tick, calls(|p.Trace()| + 1));
      WaitTells(l, g, levels[p.Level()], request, clock, tick, calls(|p.Trace()| + 1));
      AdvanceSleeps(levels, maxRetries, p, a.outcome, a.waited);
      RunSleeps(levels, maxRetries, request, clock, calls, a.limits, a.gate,
                Advance(levels, maxRetries, p, a.outcome, a.waited), a.tick);
    }
  }

  lemma NoSleepYet(maxRetries: int)
    ensures Sleeps([], maxRetries, 0.0)
  {
    assert SleptFor([], maxRetries, 0.0, 0);
  }

  /** What a caller of `execute` gets, without reference to how it runs. */
  lemma ExecutionMeaning(c: Chain, role: string, request: Request, clock: nat -> real, calls: nat -> bool, l: Limits,
                         g: Gate)
    ensures var p := RunOf(c.Levels(), c.maxRetries, request, clock, calls, l, g, Start(c.Levels(), c.maxRetries), 0)
                     .progress;
            && Tells(c, p.Trace()) && Answers(role, p.Trace(), ResultOf(role, c.Levels(), p))
            && Sleeps(p.Trace(), c.maxRetries, p.slept)
  {
    hide Tells, Answers, Sleeps, RunOf, Progress.Trace;
    ExecutionTells(c, role, request, clock, calls, l, g);
    StartSane(c.Levels(), c.maxRetries);
    NoSleepYet(c.maxRetries);
    RunSleeps(c.Levels(), c.maxRetries, request, clock, calls, l, g, Start(c.Levels(), c.maxRetries), 0);
  }

  /** The variables that `execute` updates, with the number of clock readings so far. */
  datatype Locals = Locals(attempts: nat, trace: seq<Entry>, slept: real, tick: nat)

  ghost predicate Tracks(local: Locals, p: Progress) {
    local.trace == p.Trace() && local.attempts == |local.trace| && local.slept == p.slept
  }

  class FallbackChainExecutor {
    const rl: RateLimiterV2
    const cb: CircuitBreaker

    constructor (rl: RateLimiterV2, cb: CircuitBreaker)
      ensures this.rl == rl && this.cb == cb
    {
      this.rl, this.cb := rl, cb;
    }

    /** The breaker as an execution meets it; usually it reads the same limiter. */
    function GateState(): Gate
      reads cb, cb.rl
    {
      Gate(if cb.rl == rl then None else Some(cb.rl.State()), cb.State())
    }

    method Allow(m: Model, now: real) returns (ok: bool)
      modifies cb, rl, cb.rl
      ensures Passage(rl.State(), GateState(), ok) == GateOf(old(rl.State()), old(GateState()), m, now)
    {
      hide Evaluated, Probed, ProbeAllowed, UtcDay;
      ok := cb.AllowRequest(m, now);
    }

    method Attempt(m: Model, request: Request, clock: nat -> real, tick: nat, call: bool)
      returns (o: Outcome, waited: bool, tick': nat)
      modifies cb, rl, cb.rl
      ensures Attempted(rl.State(), GateState(), o, waited, tick')
              == AttemptOf(old(rl.State()), old(GateState()), m, request, clock, tick, call)
    {
      hide GateOf, Acquired, Judge, Enqueued, Released, Penalized, HasRoom;
      tick' := tick + 1;
      waited := false;
      var allowed := Allow(m, clock(tick));
      if !allowed {
        var queued := cb.Enqueue(m, request, clock(tick'));
        return CircuitOpen(queued), waited, tick' + 1;
      }
      var verdict := rl.AcquireEx(m, SLOTS, clock(tick'));
      tick' := tick' + 1;
      if verdict != Granted {
        if verdict == DeniedRpm {
          waited := true;
          verdict := rl.AcquireEx(m, SLOTS, clock(tick'));
          tick' := tick' + 1;
        }
        if verdict == DeniedDaily {
          rl.Record429(m);
        }
        return RateLimited(verdict), waited, tick';
      }
      rl.Release(m);
      return if call then Success else Failure, waited, tick';
    }

    /** The retry loop of one level. The locals of `execute` come in and go out; `p` tells where they stand. */
    method TryLevel(levels: seq<Model>, maxRetries: int, level: nat, request: Request,
                    clock: nat -> real, calls: nat -> bool, local: Locals, ghost p: Progress)
      returns (local': Locals, done: bool, ghost p': Progress)
      requires !p.done && Tracks(local, p) && maxRetries > 0
      requires level == p.Level() < |levels| && p.current == []
      modifies cb, rl, cb.rl
      ensures Tracks(local', p') && p'.done == done
      ensures p'.Level() == (if done then level else level + 1) && (!done ==> p'.current == [])
      ensures RunOf(levels, maxRetries, request, clock, calls, rl.State(), GateState(), p', local'.tick)
              == old(RunOf(levels, maxRetries, request, clock, calls, rl.State(), GateState(), p, local.tick))
    {
      hide AttemptOf, Advance, Progress.Trace, Pow2;
      local', done, p' := local, false, p;
      var retry := 0;
      while retry < maxRetries
        invariant Tracks(local', p') && !p'.done && !done
        invariant 0 <= retry <= maxRetries
        invariant if retry < maxRetries then p'.Level() == level && |p'.current| == retry
                  else p'.Level() == level + 1 && p'.current == []
        invariant RunOf(levels, maxRetries, request, clock, calls, rl.State(), GateState(), p', local'.tick)
                  == old(RunOf(levels, maxRetries, request, clock, calls, rl.State(), GateState(), p, local.tick))
      {
        var attempts := local'.attempts + 1;
        var o, waited, tick := Attempt(levels[level], request, clock, local'.tick, calls(attempts));
        var entry := Entry(level + 1, retry + 1, levels[level], o);
        var slept := if waited then local'.slept + RPM_WAIT else local'.slept;
        if o == Failure && retry < maxRetries - 1 {
          slept := slept + Pow2(retry);
        }
        AdvanceTrace(levels, maxRetries, p', o, waited);
        AdvancePosition(levels, maxRetries, p', o, waited);
        p' := Advance(levels, maxRetries, p', o, waited);
        local' := Locals(attempts, local'.trace + [entry], slept, tick);
        if o != Failure {
          done := o == Success;
          return;
        }
        retry := retry + 1;
      }
    }

    method Execute(role: string, prompt: string, chain: Option<Chain>, clock: nat -> real, calls: nat -> bool)
      returns (r: FallbackResult, slept: real)
      modifies cb, rl, cb.rl
      ensures chain.None? ==> r == FallbackResult(role, None, 0, false, 0, [], Some("unknown role: " + role))
                              && rl.State() == old(rl.State()) && GateState() == old(GateState())
      ensures chain.Some? ==>
                var levels, maxRetries := chain.value.Levels(), chain.value.maxRetries;
                var end := old(RunOf(levels, maxRetries, Request(role, prompt), clock, calls, rl.State(), GateState(),
                                     Start(levels, maxRetries), 0));
                && rl.State() == end.limits && GateState() == end.gate
                && r == ResultOf(role, levels, end.progress) && slept == end.progress.slept
      ensures chain.Some? ==> Tells(chain.value, r.trace) && Answers(role, r.trace, r)
                              && Sleeps(r.trace, chain.value.maxRetries, slept)
    {
      hide AttemptOf, Sane, Flatten, Advance, Tells, Answers, Sleeps;
      if chain.None? {
        return FallbackResult(role, None, 0, false, 0, [], Some("unknown role: " + role)), 0.0;
      }
      var levels, maxRetries, request := chain.value.Levels(), chain.value.maxRetries, Request(role, prompt);
      var local := Locals(0, [], 0.0, 0);
      ghost var p := Start(levels, maxRetries);
      StartSane(levels, maxRetries);
      ExecutionMeaning(chain.value, role, request, clock, calls, rl.State(), GateState());
      for level := 0 to |levels|
        invariant Tracks(local, p) && !p.done && (maxRetries <= 0 ==> p.Level() == |levels|)
        invariant maxRetries > 0 ==> p.Level() == level && p.current == []
        invariant RunOf(levels, maxRetries, request, clock, calls, rl.State(), GateState(), p, local.tick)
                  == old(RunOf(levels, maxRetries, request, clock, calls, rl.State(), GateState(),
                               Start(levels, maxRetries), 0))
      {
        if maxRetries > 0 {   // otherwise range(max_retries) is empty
          var done;
          local, done, p := TryLevel(levels, maxRetries, level, request, clock, calls, local, p);
          if done {
            return FallbackResult(role, Some(levels[level]), level + 1, true, local.attempts, local.trace, None),
                   local.slept;
          }
        }
      }
      return FallbackResult(role, None, 0, false, local.attempts, local.trace, Some("all_fallback_levels_failed")),
             local.slept;
    }
  }
}
