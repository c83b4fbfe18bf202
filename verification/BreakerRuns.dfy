/** Whole runs of the limiter and the breaker together. Every locked region is one event; that any interleaving of
    executions is such a run is proved in AdmissionRuns. */
module BreakerRuns {
  import opened Prelude
  import opened RateLimiting
  import opened CircuitBreaking
  import Runs = RateLimiterRuns

  datatype Action =
    | Limiter(call: Runs.Call)
    | Check(m: Model)      // check_and_update
    | Probe(m: Model)      // the second region of allow_request
    | DailyReset           // reset_daily
    | Enqueue(m: Model, request: Request)
    | Dequeue(m: Model)
    | Drain(m: Model)

  datatype Event = Event(action: Action, now: real)

  datatype System = System(limits: Limits, breaker: Breaker)

  function Step(s: System, e: Event): System {
    match e.action
    case Limiter(call) => System(Runs.Step(s.limits, Runs.Event(call, e.now)), s.breaker)
    case Check(m) => Checked(s, m, e.now)
    case Probe(m) => System(s.limits, Probed(s.breaker, m))
    case DailyReset => System(s.limits, ResetDailyOf(s.breaker))
    case Enqueue(m, request) => System(s.limits, Enqueued(s.breaker, m, request, e.now))
    case Dequeue(m) => System(s.limits, Queueing(s.breaker, m, Dequeued(s.breaker.Queue(m), e.now).1))
    case Drain(m) => System(s.limits, Queueing(s.breaker, m, []))
  }

  function Queueing(b: Breaker, m: Model, q: seq<Queued>): Breaker {
    b.(queues := b.queues[m := q])
  }

  function Checked(s: System, m: Model, now: real): System {
    var today := UtcDay(now);
    System(CheckReset(s.limits, today),
           Evaluated(s.breaker, m, s.limits.UsedOn(m, today), s.limits.Limit(m), today))
  }

  function After(s0: System, es: seq<Event>): System {
    if es == [] then s0 else Step(After(s0, Front(es)), Last(es))
  }

  /** The limiter is new, the breaker was built at time `start`. */
  ghost predicate Initial(s: System, start: real) {
    && Runs.Fresh(s.limits)
    && s.breaker == Breaker(map[], map[], UtcDay(start), map[])
  }

  ghost predicate ClockRuns(start: real, es: seq<Event>) {
    && (es != [] ==> start <= es[0].now)
    && forall i, j :: 0 <= i <= j < |es| ==> es[i].now <= es[j].now
  }

  predicate IsLimiterReset(e: Event) {
    e.action.Limiter? && e.action.call.Reset?
  }

  ghost predicate NoLimiterReset(es: seq<Event>) {
    forall i :: 0 <= i < |es| ==> !IsLimiterReset(es[i])
  }

  // ---- without `RateLimiterV2.reset` --------------------------------------------------------------

  /** The circuit of m is not half open, and if it is open on the day the limiter counts, the quota is spent. */
  ghost predicate OpenMeansSpent(s: System, m: Model) {
    && s.breaker.CircuitOf(m) != HalfOpen
    && (s.breaker.CircuitOf(m) == Open ==>
          && s.limits.resetDay.Some?
          && s.breaker.lastSeenDay <= s.limits.resetDay.value
          && (s.breaker.lastSeenDay == s.limits.resetDay.value ==> Exhausted(s.limits.Used(m), s.limits.Limit(m))))
  }

  ghost predicate Consistent(s: System, today: int) {
    && s.breaker.lastSeenDay <= today
    && (s.limits.resetDay.Some? ==> s.limits.resetDay.value <= today)
    && forall m :: OpenMeansSpent(s, m)
  }

  /** What an evaluation does to the circuit of any model. */
  lemma EvaluatedCircuit(b: Breaker, m: Model, used: int, limit: int, today: int, k: Model)
    requires b.CircuitOf(k) != HalfOpen
    ensures var r := if b.lastSeenDay == today then b.CircuitOf(k) else Closed;
            Evaluated(b, m, used, limit, today).CircuitOf(k)
            == if k != m then r else if Exhausted(used, limit) then Open else if r == Open then HalfOpen else Closed
  {
    PctMeaning(used, limit);
  }

  lemma CheckKeeps(s: System, m: Model, now: real)
    requires Consistent(s, UtcDay(now))
    ensures Consistent(Checked(s, m, now), UtcDay(now))
    ensures Checked(s, m, now).breaker.CircuitOf(m)
            == if Exhausted(s.limits.UsedOn(m, UtcDay(now)), s.limits.Limit(m)) then Open else Closed
  {
    var today := UtcDay(now);
    assert OpenMeansSpent(s, m);
    EvaluatedCircuit(s.breaker, m, s.limits.UsedOn(m, today), s.limits.Limit(m), today, m);
    forall k ensures OpenMeansSpent(Checked(s, m, now), k) {
      assert OpenMeansSpent(s, k);
      EvaluatedCircuit(s.breaker, m, s.limits.UsedOn(m, today), s.limits.Limit(m), today, k);
    }
  }

  lemma LimiterKeeps(s: System, e: Event, m: Model)
    requires e.action.Limiter? && !IsLimiterReset(e)
    requires s.limits.resetDay.Some? ==> s.limits.resetDay.value <= UtcDay(e.now)
    requires OpenMeansSpent(s, m)
    ensures OpenMeansSpent(Step(s, e), m)
    ensures Step(s, e).limits.resetDay.Some? ==> Step(s, e).limits.resetDay.value <= UtcDay(e.now)
  {
    Runs.StepUsed(s.limits, Runs.Event(e.action.call, e.now), m);
    Runs.StepConfig(s.limits, Runs.Event(e.action.call, e.now));
  }

  lemma StepKeeps(s: System, e: Event)
    requires Consistent(s, UtcDay(e.now)) && !IsLimiterReset(e)
    ensures Consistent(Step(s, e), UtcDay(e.now))
  {
    match e.action
    case Limiter(call) =>
      LimiterKeeps(s, e, "");
      forall m ensures OpenMeansSpent(Step(s, e), m) {
        LimiterKeeps(s, e, m);
      }
    case Check(m) => CheckKeeps(s, m, e.now);
    case _ =>
      forall m ensures OpenMeansSpent(Step(s, e), m) {
        assert OpenMeansSpent(s, m);
      }
  }

  lemma {:induction false} RunKeeps(s0: System, start: real, es: seq<Event>)
    requires Initial(s0, start) && ClockRuns(start, es) && NoLimiterReset(es)
    ensures Consistent(After(s0, es), UtcDay(if es == [] then start else Last(es).now))
  {
    if es != [] {
      RunKeeps(s0, start, Front(es));
      var before := if Front(es) == [] then start else Last(Front(es)).now;
      assert before <= Last(es).now;
      UtcDayMonotone(before, Last(es).now);
      StepKeeps(After(s0, Front(es)), Last(es));
    }
  }

  /** In any run without `reset`, over any number of days, HALF_OPEN is never entered. */
  lemma NeverHalfOpen(s0: System, start: real, es: seq<Event>, m: Model)
    requires Initial(s0, start) && ClockRuns(start, es) && NoLimiterReset(es)
    ensures After(s0, es).breaker.CircuitOf(m) != HalfOpen
  {
    RunKeeps(s0, start, es);
    assert OpenMeansSpent(After(s0, es), m);
  }

  /** Without `reset` the breaker remembers nothing: a check opens the circuit if today's quota is spent and closes
      it otherwise, whatever happened before. */
  lemma CheckIsMemoryless(s0: System, start: real, es: seq<Event>, m: Model, now: real)
    requires Initial(s0, start) && NoLimiterReset(es) && ClockRuns(start, es + [Event(Check(m), now)])
    ensures var s := After(s0, es);
            Checked(s, m, now).breaker.CircuitOf(m)
            == if Exhausted(s.limits.UsedOn(m, UtcDay(now)), s.limits.Limit(m)) then Open else Closed
  {
    var all := es + [Event(Check(m), now)];
    assert ClockRuns(start, es) by {
      forall i, j | 0 <= i <= j < |es| ensures es[i].now <= es[j].now {
        assert all[i].now <= all[j].now;
      }
      assert es != [] ==> es[0] == all[0];
    }
    RunKeeps(s0, start, es);
    var before := if es == [] then start else Last(es).now;
    assert before <= now by {
      if es != [] {
        assert all[|es| - 1].now <= all[|es|].now;
      }
    }
    UtcDayMonotone(before, now);
    CheckKeeps(After(s0, es), m, now);
  }

  /** Once the breaker lets a request through, the acquire that follows at the same moment is not refused for
      "daily", unless the model's limit is not positive. */
  lemma GateSavesQuota(s: System, m: Model, slots: int, now: real)
    requires Consistent(s, UtcDay(now))
    requires Checked(s, m, now).breaker.CircuitOf(m) != Open
    ensures Judge(Checked(s, m, now).limits, m, slots, now) == DeniedDaily ==> s.limits.Limit(m) <= 0
  {
    CheckKeeps(s, m, now);
  }

  /** Within one day the counter of m never falls. */
  lemma UsedNeverFalls(s: System, e: Event, m: Model)
    requires !IsLimiterReset(e) && s.limits.resetDay == Some(UtcDay(e.now))
    ensures Step(s, e).limits.resetDay == Some(UtcDay(e.now))
    ensures Step(s, e).limits.Used(m) >= s.limits.Used(m)
    ensures Step(s, e).limits.config == s.limits.config
  {
    match e.action
    case Limiter(call) =>
      Runs.StepUsed(s.limits, Runs.Event(call, e.now), m);
      Runs.StepConfig(s.limits, Runs.Event(call, e.now));
    case Check(k) =>
    case _ =>
  }

  /** A spent quota stays spent for the rest of the UTC day. */
  lemma {:induction false} SpentStaysSpent(s: System, es: seq<Event>, day: int, m: Model)
    requires s.limits.resetDay == Some(day) && Exhausted(s.limits.Used(m), s.limits.Limit(m))
    requires NoLimiterReset(es) && forall i :: 0 <= i < |es| ==> UtcDay(es[i].now) == day
    ensures var t := After(s, es).limits;
            t.resetDay == Some(day) && t.config == s.limits.config && Exhausted(t.Used(m), t.Limit(m))
  {
    if es != [] {
      SpentStaysSpent(s, Front(es), day, m);
      UsedNeverFalls(After(s, Front(es)), Last(es), m);
    }
  }

  /** A circuit that a check found OPEN admits nothing more that day: every later check finds it OPEN again. */
  lemma OpenUntilRollover(s0: System, start: real, es: seq<Event>, m: Model, tripped: real, later: seq<Event>,
                          now: real)
    requires Initial(s0, start)
    requires NoLimiterReset(es + [Event(Check(m), tripped)] + later)
    requires ClockRuns(start, es + [Event(Check(m), tripped)] + later + [Event(Check(m), now)])
    requires UtcDay(now) == UtcDay(tripped)
    requires After(s0, es + [Event(Check(m), tripped)]).breaker.CircuitOf(m) == Open
    ensures Checked(After(s0, es + [Event(Check(m), tripped)] + later), m, now).breaker.CircuitOf(m) == Open
  {
    var upto := es + [Event(Check(m), tripped)];
    var run := upto + later;
    var all := run + [Event(Check(m), now)];
    assert Front(upto) == es;
    assert NoLimiterReset(es) by {
      forall i | 0 <= i < |es| ensures !IsLimiterReset(es[i]) {
        assert es[i] == run[i];
      }
    }
    assert ClockRuns(start, upto) by {
      forall i, j | 0 <= i <= j < |upto| ensures upto[i].now <= upto[j].now {
        assert all[i].now <= all[j].now;
      }
      assert upto[0] == all[0];
    }
    CheckIsMemoryless(s0, start, es, m, tripped);
    var day := UtcDay(tripped);
    forall i | 0 <= i < |later| ensures UtcDay(later[i].now) == day && !IsLimiterReset(later[i]) {
      assert later[i] == all[|upto| + i] == run[|upto| + i];
      assert all[|es|].now <= all[|upto| + i].now <= all[|run|].now;
      UtcDayMonotone(tripped, later[i].now);
      UtcDayMonotone(later[i].now, now);
    }
    SpentStaysSpent(After(s0, upto), later, day, m);
    AfterSplit(s0, upto, later);
    CheckIsMemoryless(s0, start, run, m, now);
  }

  lemma {:induction false} AfterSplit(s0: System, es: seq<Event>, later: seq<Event>)
    ensures After(s0, es + later) == After(After(s0, es), later)
  {
    hide Step;
    if later == [] {
      assert es + later == es;
    } else {
      AfterSplit(s0, es, Front(later));
      assert Front(es + later) == es + Front(later);
    }
  }

  /** The only way into HALF_OPEN: an OPEN circuit met on its own day with quota left, which needs a `reset`. */
  lemma HalfOpenEntry(s: System, m: Model, now: real)
    requires s.breaker.CircuitOf(m) != HalfOpen
    ensures Checked(s, m, now).breaker.CircuitOf(m) == HalfOpen
            <==> s.breaker.CircuitOf(m) == Open && s.breaker.lastSeenDay == UtcDay(now)
                 && !Exhausted(s.limits.UsedOn(m, UtcDay(now)), s.limits.Limit(m))
  {
    EvaluatedCircuit(s.breaker, m, s.limits.UsedOn(m, UtcDay(now)), s.limits.Limit(m), UtcDay(now), m);
  }

  // ---- with `reset` allowed ----------------------------------------------------------------------

  /** The step clears the probe counter of m: a rollover, a recovery to CLOSED, or a daily reset that knows m. */
  predicate ClearsProbes(s: System, e: Event, m: Model) {
    match e.action
    case Check(k) =>
      || s.breaker.lastSeenDay != UtcDay(e.now)
      || (k == m && s.breaker.CircuitOf(m) == HalfOpen
          && Pct(s.limits.UsedOn(m, UtcDay(e.now)), s.limits.Limit(m)) < TRIGGER_THRESHOLD)
    case DailyReset => m in s.breaker.state
    case _ => false
  }

  /** Requests for m admitted as probes since the counter was last cleared. */
  function ProbesAdmitted(s0: System, es: seq<Event>, m: Model): nat {
    if es == [] then 0 else
      var s, e := After(s0, Front(es)), Last(es);
      if ClearsProbes(s, e, m) then 0
      else ProbesAdmitted(s0, Front(es), m)
           + if e.action == Probe(m) && ProbeAllowed(s.breaker, m) then 1 else 0
  }

  lemma ProbeStep(s: System, e: Event, m: Model)
    ensures Step(s, e).breaker.ProbesUsed(m)
            == if ClearsProbes(s, e, m) then 0
               else s.breaker.ProbesUsed(m) + if e.action == Probe(m) && ProbeAllowed(s.breaker, m) then 1 else 0
  {
    match e.action
    case Limiter(call) =>
    case Check(k) =>
      PctMeaning(s.limits.UsedOn(k, UtcDay(e.now)), s.limits.Limit(k));
    case _ =>
  }

  /** In every run, resets and OPEN/HALF_OPEN oscillation included, the counter is the number of probes admitted
      since it was last cleared, and that is at most three. */
  lemma {:induction false} ProbeBound(s0: System, start: real, es: seq<Event>, m: Model)
    requires Initial(s0, start)
    ensures ProbesAdmitted(s0, es, m) == After(s0, es).breaker.ProbesUsed(m)
    ensures ProbesAdmitted(s0, es, m) <= 3
  {
    if es != [] {
      ProbeBound(s0, start, Front(es), m);
      ProbeStep(After(s0, Front(es)), Last(es), m);
    }
  }

  // ---- the queues ------------------------------------------------------------------------------------------

  predicate Queues(s: System, e: Event, m: Model) {
    e.action.Enqueue? && e.action.m == m && |s.breaker.Queue(m)| < 100
  }

  /** The requests taken into the queue of m since the start or the last `reset_daily`, in order. */
  function Arrivals(s0: System, es: seq<Event>, m: Model): seq<Queued> {
    if es == [] then [] else
      var before, e := Arrivals(s0, Front(es), m), Last(es);
      if e.action.DailyReset? then []
      else if Queues(After(s0, Front(es)), e, m) then before + [Queued(e.now, e.action.request)]
      else before
  }

  ghost predicate IsTail(q: seq<Queued>, all: seq<Queued>) {
    |q| <= |all| && q == all[|all| - |q|..]
  }

  lemma {:induction false} StaleIsTail(q: seq<Queued>, all: seq<Queued>, now: real)
    requires IsTail(q, all)
    ensures IsTail(Dequeued(q, now).1, all)
  {
    var n := DequeueMeaning(q, now);
    hide Dequeued;
    if n < |q| {
      assert q[n + 1..] == all[|all| - |q[n + 1..]|..];
    }
  }

  lemma StepQueue(s: System, e: Event, m: Model, all: seq<Queued>)
    requires IsTail(s.breaker.Queue(m), all) && |s.breaker.Queue(m)| <= 100
    ensures var q := Step(s, e).breaker.Queue(m);
      && |q| <= 100
      && IsTail(q, if e.action.DailyReset? then []
                   else if Queues(s, e, m) then all + [Queued(e.now, e.action.request)] else all)
  {
    StaleIsTail(s.breaker.Queue(m), all, e.now);
    var n := DequeueMeaning(s.breaker.Queue(m), e.now);
    hide Dequeued, Evaluated;
    match e.action
    case Check(k) => CheckQueues(s, k, e.now);
    case _ =>
  }

  lemma CheckQueues(s: System, m: Model, now: real)
    ensures Checked(s, m, now).breaker.queues == s.breaker.queues
  {
  }

  /** First in, first out: in every run the queue of a model holds at most 100 requests, the last ones to arrive, in
      the order of their arrival. Every request that is gone arrived before every one that waits. */
  lemma {:induction false} FirstInFirstOut(s0: System, start: real, es: seq<Event>, m: Model)
    requires Initial(s0, start)
    ensures IsTail(After(s0, es).breaker.Queue(m), Arrivals(s0, es, m)) && |After(s0, es).breaker.Queue(m)| <= 100
  {
    hide Step;
    if es != [] {
      FirstInFirstOut(s0, start, Front(es), m);
      StepQueue(After(s0, Front(es)), Last(es), m, Arrivals(s0, Front(es), m));
    }
  }
}
