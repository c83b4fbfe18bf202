/** Every interleaving of executions, seen by the limiter and the breaker: what holds of all runs of these two holds
    while any number of `execute` calls run at once. */
module AdmissionRuns {
  import opened Prelude
  import opened RateLimiting
  import opened CircuitBreaking
  import opened FallbackExecution
  import A = Admission
  import B = BreakerRuns
  import R = RateLimiterRuns

  function Of(s: A.System): B.System {
    B.System(s.limits, s.breaker)
  }

  /** What the next step of a process asks of limiter and breaker. */
  function ActionOf(q: A.Process): B.Action
    requires !q.Finished()
  {
    match q.pc
    case AtGate => B.Check(q.Target())
    case AtProbe => B.Probe(q.Target())
    case AtEnqueue => B.Enqueue(q.Target(), q.request)
    case AtAcquire => B.Limiter(R.Acquire(q.Target(), SLOTS))
    case AtSecondAcquire => B.Limiter(R.Acquire(q.Target(), SLOTS))
    case AtPenalty(_) => B.Limiter(R.Penalty(q.Target()))
    case Calling => B.Limiter(R.Release(q.Target()))
  }

  function EventsOf(s: A.System, e: A.Event): seq<B.Event> {
    match e.action
    case Spawn(_, _, _) => []
    case Run(pid, _) =>
      if pid < |s.processes| && !s.processes[pid].Finished() then [B.Event(ActionOf(s.processes[pid]), e.now)] else []
    case LimiterReset(target) => [B.Event(B.Limiter(R.Reset(target)), e.now)]
    case BreakerReset => [B.Event(B.DailyReset, e.now)]
  }

  /** A run of the whole system, as limiter and breaker see it. */
  function Seen(s0: A.System, es: seq<A.Event>): seq<B.Event> {
    if es == [] then [] else Seen(s0, Front(es)) + EventsOf(A.After(s0, Front(es)), Last(es))
  }

  function LimiterEvent(e: B.Event): seq<R.Event> {
    match e.action
    case Limiter(call) => [R.Event(call, e.now)]
    case Check(m) => [R.Event(R.Query(m), e.now)]
    case _ => []
  }

  /** A run of limiter and breaker, as the limiter sees it. */
  function LimiterEvents(es: seq<B.Event>): seq<R.Event> {
    if es == [] then [] else LimiterEvents(Front(es)) + LimiterEvent(Last(es))
  }

  lemma StepIsSeen(s: A.System, e: A.Event)
    ensures var es := EventsOf(s, e);
            Of(A.Step(s, e.action, e.now)) == if es == [] then Of(s) else B.Step(Of(s), es[0])
    ensures |EventsOf(s, e)| <= 1 && forall be :: be in EventsOf(s, e) ==> be.now == e.now
  {
    hide Advance, Enqueued, Judge, Acquired, Evaluated, Probed, Penalized, Released;
  }

  lemma MoreOfB(s0: B.System, es: seq<B.Event>, more: seq<B.Event>)
    requires |more| <= 1
    ensures B.After(s0, es + more) == if more == [] then B.After(s0, es) else B.Step(B.After(s0, es), more[0])
  {
    if more == [] {
      assert es + more == es;
    } else {
      assert Front(es + more) == es && Last(es + more) == more[0];
    }
  }

  /** Every interleaving is a run of limiter and breaker. */
  lemma {:induction false} RunIsSeen(s0: A.System, es: seq<A.Event>)
    ensures B.After(Of(s0), Seen(s0, es)) == Of(A.After(s0, es))
  {
    hide A.Step, B.Step, EventsOf;
    if es != [] {
      RunIsSeen(s0, Front(es));
      var s := A.After(s0, Front(es));
      StepIsSeen(s, Last(es));
      MoreOfB(Of(s0), Seen(s0, Front(es)), EventsOf(s, Last(es)));
    }
  }

  lemma MoreOfR(l0: Limits, es: seq<R.Event>, more: seq<R.Event>)
    requires |more| <= 1
    ensures R.After(l0, es + more) == if more == [] then R.After(l0, es) else R.Step(R.After(l0, es), more[0])
  {
    if more == [] {
      assert es + more == es;
    } else {
      assert Front(es + more) == es && Last(es + more) == more[0];
    }
  }

  /** And every run of limiter and breaker is a run of the limiter. */
  lemma {:induction false} LimiterRun(s0: B.System, es: seq<B.Event>)
    ensures R.After(s0.limits, LimiterEvents(es)) == B.After(s0, es).limits
  {
    hide R.After, B.Step, LimiterEvent;
    if es == [] {
      assert R.After(s0.limits, []) == s0.limits by {
        EmptyLimiterRun(s0.limits);
      }
    } else {
      LimiterRun(s0, Front(es));
      LimiterStep(B.After(s0, Front(es)), Last(es));
      MoreOfR(s0.limits, LimiterEvents(Front(es)), LimiterEvent(Last(es)));
    }
  }

  lemma LimiterStep(s: B.System, e: B.Event)
    ensures |LimiterEvent(e)| <= 1 && forall re :: re in LimiterEvent(e) ==> re.now == e.now
    ensures B.Step(s, e).limits == if LimiterEvent(e) == [] then s.limits else R.Step(s.limits, LimiterEvent(e)[0])
  {
    hide Acquired, Evaluated, Probed, Enqueued, Dequeued, ResetDailyOf;
  }

  lemma EmptyLimiterRun(l0: Limits)
    ensures R.After(l0, []) == l0
  {
  }

  // ---- the order of readings ---------------------------------------------------------------------------

  /** No reading lies more than skew behind an earlier one. */
  ghost predicate InStep(es: seq<A.Event>, skew: real) {
    forall i, j :: 0 <= i < j < |es| ==> es[i].now - skew <= es[j].now
  }

  ghost predicate NoReset(es: seq<A.Event>) {
    forall i :: 0 <= i < |es| ==> !es[i].action.LimiterReset?
  }

  function Times(es: seq<A.Event>): seq<real> {
    if es == [] then [] else Times(Front(es)) + [Last(es).now]
  }

  function TimesSeen(es: seq<B.Event>): seq<real> {
    if es == [] then [] else TimesSeen(Front(es)) + [Last(es).now]
  }

  function TimesLimited(es: seq<R.Event>): seq<real> {
    if es == [] then [] else TimesLimited(Front(es)) + [Last(es).now]
  }

  lemma {:induction false} TimesAt(es: seq<A.Event>)
    ensures |Times(es)| == |es| && forall i :: 0 <= i < |es| ==> Times(es)[i] == es[i].now
  {
    if es != [] {
      TimesAt(Front(es));
    }
  }

  lemma {:induction false} TimesSeenAt(es: seq<B.Event>)
    ensures |TimesSeen(es)| == |es| && forall i :: 0 <= i < |es| ==> TimesSeen(es)[i] == es[i].now
  {
    if es != [] {
      TimesSeenAt(Front(es));
    }
  }

  lemma {:induction false} TimesLimitedAt(es: seq<R.Event>)
    ensures |TimesLimited(es)| == |es| && forall i :: 0 <= i < |es| ==> TimesLimited(es)[i] == es[i].now
  {
    if es != [] {
      TimesLimitedAt(Front(es));
    }
  }

  /** Some of the readings, in their order. */
  ghost predicate Selects(some: seq<real>, all: seq<real>, skew: real) {
    (forall t :: t in some ==> t in all) && R.InSkew(some, skew)
  }

  lemma SelectsMore(some: seq<real>, all: seq<real>, t: real, skew: real)
    requires Selects(some, all, skew) && R.InSkew(all + [t], skew)
    ensures Selects(some, all + [t], skew) && Selects(some + [t], all + [t], skew)
  {
    forall g | g in some ensures g - skew <= t {
      var i :| 0 <= i < |all| && all[i] == g;
      assert (all + [t])[i] - skew <= (all + [t])[|all|];
    }
    R.InSkewAppend(some, t, skew);
  }

  lemma FrontInSkew(all: seq<real>, t: real, skew: real)
    requires R.InSkew(all + [t], skew)
    ensures R.InSkew(all, skew)
  {
    forall i | 0 <= i < |all| ensures (all + [t])[i] == all[i] {
    }
  }

  lemma {:induction false} SeenTimes(s0: A.System, es: seq<A.Event>, skew: real)
    requires R.InSkew(Times(es), skew)
    ensures Selects(TimesSeen(Seen(s0, es)), Times(es), skew)
  {
    hide A.After, EventsOf, R.InSkew, Selects;
    if es == [] {
      SelectsNone(skew);
    } else {
      FrontInSkew(Times(Front(es)), Last(es).now, skew);
      SeenTimes(s0, Front(es), skew);
      var before, more := Seen(s0, Front(es)), EventsOf(A.After(s0, Front(es)), Last(es));
      StepIsSeen(A.After(s0, Front(es)), Last(es));
      SelectsMore(TimesSeen(before), Times(Front(es)), Last(es).now, skew);
      if more == [] {
        assert before + more == before;
      } else {
        assert Front(before + more) == before && Last(before + more) == more[0] && more[0] in more;
      }
    }
  }

  lemma SelectsNone(skew: real)
    ensures Selects([], [], skew)
  {
  }

  lemma {:induction false} LimitedTimes(es: seq<B.Event>, skew: real)
    requires R.InSkew(TimesSeen(es), skew)
    ensures Selects(TimesLimited(LimiterEvents(es)), TimesSeen(es), skew)
  {
    hide LimiterEvent, R.InSkew, Selects;
    if es == [] {
      SelectsNone(skew);
    } else {
      FrontInSkew(TimesSeen(Front(es)), Last(es).now, skew);
      LimitedTimes(Front(es), skew);
      var before, more := LimiterEvents(Front(es)), LimiterEvent(Last(es));
      OneLimiterEvent(Last(es));
      SelectsMore(TimesLimited(before), TimesSeen(Front(es)), Last(es).now, skew);
      if more == [] {
        assert before + more == before;
      } else {
        assert Front(before + more) == before && Last(before + more) == more[0] && more[0] in more;
      }
    }
  }

  lemma OneLimiterEvent(e: B.Event)
    ensures |LimiterEvent(e)| <= 1 && forall re :: re in LimiterEvent(e) ==> re.now == e.now
  {
  }

  lemma {:induction false} NoResetSeen(s0: A.System, es: seq<A.Event>)
    requires NoReset(es)
    ensures B.NoLimiterReset(Seen(s0, es))
  {
    hide A.After;
    if es != [] {
      NoResetSeen(s0, Front(es));
    }
  }

  lemma {:induction false} NoResetLimited(es: seq<B.Event>)
    requires B.NoLimiterReset(es)
    ensures forall i :: 0 <= i < |LimiterEvents(es)| ==> !LimiterEvents(es)[i].call.Reset?
  {
    if es != [] {
      NoResetLimited(Front(es));
      assert !B.IsLimiterReset(es[|es| - 1]);
    }
  }

  /** The limiter's view of a run without resets is as far out of step as the run. */
  lemma LimiterInStep(s0: A.System, es: seq<A.Event>, skew: real)
    requires InStep(es, skew) && NoReset(es)
    ensures R.Skewed(LimiterEvents(Seen(s0, es)), skew)
  {
    TimesAt(es);
    SeenTimes(s0, es, skew);
    LimitedTimes(Seen(s0, es), skew);
    TimesLimitedAt(LimiterEvents(Seen(s0, es)));
    NoResetSeen(s0, es);
    NoResetLimited(Seen(s0, es));
    hide Seen, LimiterEvents, Times, TimesSeen, TimesLimited;
  }

  // ---- what the executions get ---------------------------------------------------------------------------

  /** The step takes a slot of m. */
  predicate TakesSlot(s: A.System, e: A.Event, m: Model) {
    && e.action.Run? && e.action.pid < |s.processes| && !s.processes[e.action.pid].Finished()
    && s.processes[e.action.pid].Target() == m
    && (s.processes[e.action.pid].pc == A.AtAcquire || s.processes[e.action.pid].pc == A.AtSecondAcquire)
    && Judge(s.limits, m, SLOTS, e.now) == Granted
  }

  /** When calls to m, leaked ones included, took their slots. */
  function Taken(s0: A.System, es: seq<A.Event>, m: Model): seq<real> {
    if es == [] then []
    else if TakesSlot(A.After(s0, Front(es)), Last(es), m) then Taken(s0, Front(es), m) + [Last(es).now]
    else Taken(s0, Front(es), m)
  }

  lemma StepTakes(s: A.System, e: A.Event, m: Model)
    ensures |EventsOf(s, e)| <= 1
    ensures var limited := if EventsOf(s, e) == [] then [] else LimiterEvent(EventsOf(s, e)[0]);
            && |limited| <= 1
            && (TakesSlot(s, e, m) <==> limited != [] && R.GrantedNow(s.limits, limited[0], m))
            && (limited != [] ==> limited[0].now == e.now)
  {
    hide Judge;
  }

  lemma {:induction false} TakenIsGranted(s0: A.System, es: seq<A.Event>, m: Model)
    ensures Taken(s0, es, m) == R.Grants(s0.limits, LimiterEvents(Seen(s0, es)), m)
  {
    hide A.After, R.After, EventsOf, TakesSlot, R.GrantedNow, LimiterEvent;
    if es != [] {
      TakenIsGranted(s0, Front(es), m);
      var s, seen := A.After(s0, Front(es)), Seen(s0, Front(es));
      RunIsSeen(s0, Front(es));
      LimiterRun(Of(s0), seen);
      StepTakes(s, Last(es), m);
      var more := EventsOf(s, Last(es));
      if more == [] {
        assert seen + more == seen;
      } else {
        assert Front(seen + more) == seen && Last(seen + more) == more[0];
        var before, limited := LimiterEvents(seen), LimiterEvent(more[0]);
        if limited == [] {
          assert before + limited == before;
        } else {
          assert Front(before + limited) == before && Last(before + limited) == limited[0];
        }
      }
    }
  }

  /** However executions interleave: without `reset`, any span of 60 - skew seconds holds at most `get_rpm(m)` of
      them that got a slot of m, leaked slots included. */
  lemma SpanBound(s0: A.System, es: seq<A.Event>, m: Model, from: real, skew: real)
    requires R.Fresh(s0.limits) && InStep(es, skew) && NoReset(es) && skew >= 0.0
    ensures R.CountWithin(Taken(s0, es, m), from, from + 60.0 - skew) <= Max(0, s0.limits.Rpm(m))
  {
    LimiterInStep(s0, es, skew);
    TakenIsGranted(s0, es, m);
    R.RpmBoundWithSkew(s0.limits, LimiterEvents(Seen(s0, es)), m, from, skew);
  }

  /** And no UTC day sees more of them than the daily limit. */
  lemma DayBound(s0: A.System, es: seq<A.Event>, m: Model, day: int)
    requires R.Fresh(s0.limits) && InStep(es, 0.0) && NoReset(es)
    ensures R.CountOnDay(Taken(s0, es, m), day) <= Max(0, s0.limits.Limit(m))
  {
    LimiterInStep(s0, es, 0.0);
    TakenIsGranted(s0, es, m);
    Orderly(LimiterEvents(Seen(s0, es)));
    R.DailyQuota(s0.limits, LimiterEvents(Seen(s0, es)), m, day);
  }

  lemma Orderly(es: seq<R.Event>)
    requires R.Skewed(es, 0.0)
    ensures R.Orderly(es)
  {
  }

  /** The circuit of no model is ever half open, however executions interleave, unless the limiter is reset. */
  lemma NoneHalfOpen(s0: A.System, start: real, es: seq<A.Event>, m: Model)
    requires B.Initial(Of(s0), start) && NoReset(es) && InStep(es, 0.0) && (es != [] ==> start <= es[0].now)
    ensures A.After(s0, es).breaker.CircuitOf(m) != HalfOpen
  {
    RunIsSeen(s0, es);
    NoResetSeen(s0, es);
    SeenClock(s0, start, es);
    B.NeverHalfOpen(Of(s0), start, Seen(s0, es), m);
  }

  lemma SeenClock(s0: A.System, start: real, es: seq<A.Event>)
    requires InStep(es, 0.0) && (es != [] ==> start <= es[0].now)
    ensures B.ClockRuns(start, Seen(s0, es))
  {
    TimesAt(es);
    SeenTimes(s0, es, 0.0);
    TimesSeenAt(Seen(s0, es));
    var seen, times := Seen(s0, es), Times(es);
    hide Seen, Times, TimesSeen;
    if seen != [] {
      assert TimesSeen(seen)[0] in times;
      var i :| 0 <= i < |times| && times[i] == TimesSeen(seen)[0];
      assert i > 0 ==> es[0].now <= es[i].now;
    }
    SeenOrder(seen);
  }

  lemma {:induction false} SeenOrder(es: seq<B.Event>)
    requires R.InSkew(TimesSeen(es), 0.0)
    ensures forall i, j :: 0 <= i <= j < |es| ==> es[i].now <= es[j].now
  {
    TimesSeenAt(es);
    hide TimesSeen;
    forall i, j | 0 <= i <= j < |es| ensures es[i].now <= es[j].now {
      assert i < j ==> TimesSeen(es)[i] - 0.0 <= TimesSeen(es)[j];
    }
  }

  /** At most three probes of a model pass between two clearings of its counter, whichever executions sent them. */
  lemma ProbesBounded(s0: A.System, start: real, es: seq<A.Event>, m: Model)
    requires B.Initial(Of(s0), start)
    ensures B.ProbesAdmitted(Of(s0), Seen(s0, es), m) == A.After(s0, es).breaker.ProbesUsed(m) <= 3
  {
    RunIsSeen(s0, es);
    B.ProbeBound(Of(s0), start, Seen(s0, es), m);
  }
}
