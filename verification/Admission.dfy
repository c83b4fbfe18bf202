/** Any number of `execute` calls running at once over one limiter and one breaker: every locked region is one step,
    and the steps of different calls interleave in any order. */
module Admission {
  import opened Prelude
  import opened RateLimiting
  import opened CircuitBreaking
  import opened FallbackExecution

  /** Where a running `execute` is between two locked regions. */
  datatype Pc =
    | AtGate                     // about to consult the breaker, or finished
    | AtProbe                    // the breaker said HALF_OPEN
    | AtEnqueue                  // the breaker refused
    | AtAcquire                  // first acquire_ex
    | AtSecondAcquire            // second acquire_ex, after the rpm wait
    | AtPenalty(waited: bool)    // record_429 after a daily denial
    | Calling                    // holds a slot while call_fn runs

  datatype Process = Process(levels: seq<Model>, maxRetries: int, request: Request, progress: Progress, pc: Pc) {
    predicate Finished() { Over(levels, progress) }

    function Target(): Model
      requires !Finished()
    {
      levels[progress.Level()]
    }
  }

  datatype System = System(limits: Limits, breaker: Breaker, processes: seq<Process>)

  datatype Action =
    | Spawn(levels: seq<Model>, maxRetries: int, request: Request)
    | Run(pid: nat, callSucceeds: bool)
    | LimiterReset(target: Option<Model>)
    | BreakerReset

  function Conclude(q: Process, o: Outcome, waited: bool): Process
    requires !q.Finished()
  {
    q.(progress := Advance(q.levels, q.maxRetries, q.progress, o, waited), pc := AtGate)
  }

  /** The next step of one process. */
  function ProcessStep(l: Limits, b: Breaker, q: Process, callSucceeds: bool, now: real): (Limits, Breaker, Process)
    requires !q.Finished()
  {
    var m := q.Target();
    match q.pc
    case AtGate =>
      var today := UtcDay(now);
      var b' := Evaluated(b, m, l.UsedOn(m, today), l.Limit(m), today);
      (CheckReset(l, today), b',
       q.(pc := match b'.CircuitOf(m) case Closed => AtAcquire case HalfOpen => AtProbe case Open => AtEnqueue))
    case AtProbe => (l, Probed(b, m), q.(pc := if ProbeAllowed(b, m) then AtAcquire else AtEnqueue))
    case AtEnqueue => (l, Enqueued(b, m, q.request, now), Conclude(q, CircuitOpen(HasRoom(b, m)), false))
    case AtAcquire =>
      (Acquired(l, m, SLOTS, now), b,
       match Judge(l, m, SLOTS, now)
       case Granted => q.(pc := Calling)
       case DeniedRpm => q.(pc := AtSecondAcquire)
       case DeniedDaily => q.(pc := AtPenalty(false))
       case DeniedConcurrent => Conclude(q, RateLimited(DeniedConcurrent), false))
    case AtSecondAcquire =>
      (Acquired(l, m, SLOTS, now), b,
       if Judge(l, m, SLOTS, now) == DeniedDaily then q.(pc := AtPenalty(true))
       else Conclude(q, RateLimited(Judge(l, m, SLOTS, now)), true))
    case AtPenalty(waited) => (Penalized(l, m), b, Conclude(q, RateLimited(DeniedDaily), waited))
    case Calling => (Released(l, m), b, Conclude(q, if callSucceeds then Success else Failure, false))
  }

  /** One step of the whole system; a step of an unknown or finished process changes nothing. */
  function Step(s: System, a: Action, now: real): System {
    match a
    case Spawn(levels, maxRetries, request) =>
      s.(processes := s.processes + [Process(levels, maxRetries, request, Start(levels, maxRetries), AtGate)])
    case Run(pid, callSucceeds) =>
      if pid < |s.processes| && !s.processes[pid].Finished() then
        var (l, b, q) := ProcessStep(s.limits, s.breaker, s.processes[pid], callSucceeds, now);
        System(l, b, s.processes[pid := q])
      else s
    case LimiterReset(target) =>
      s.(limits := if target.Some? && target.value != "" then ResetModel(s.limits, target.value)
                   else ResetAll(s.limits))
    case BreakerReset => s.(breaker := ResetDailyOf(s.breaker))
  }

  datatype Event = Event(action: Action, now: real)

  function After(s0: System, es: seq<Event>): System {
    if es == [] then s0 else
      var e := es[|es| - 1];
      Step(After(s0, es[..|es| - 1]), e.action, e.now)
  }

  /** No slot is taken and nothing runs. */
  ghost predicate Initial(s: System) {
    s.limits.concurrent == map[] && s.processes == []
  }

  // ---- slot accounting ---------------------------------------------------------------------------

  predicate HoldsSlot(q: Process, m: Model) {
    q.pc == Calling && !q.Finished() && q.Target() == m
  }

  function Leaked(q: Process, m: Model): nat {
    LeakCount(q.progress.Trace(), m)
  }

  /** Calls to m that hold a slot now. */
  function Holding(qs: seq<Process>, m: Model): nat {
    if qs == [] then 0 else Holding(qs[..|qs| - 1], m) + if HoldsSlot(qs[|qs| - 1], m) then 1 else 0
  }

  /** The "rate_limit:None" entries for m in all traces. */
  function LeakedBy(qs: seq<Process>, m: Model): nat {
    if qs == [] then 0 else LeakedBy(qs[..|qs| - 1], m) + Leaked(qs[|qs| - 1], m)
  }

  lemma {:induction false} UpdateCounts(qs: seq<Process>, i: nat, q: Process, m: Model)
    requires i < |qs|
    ensures Holding(qs[i := q], m) == Holding(qs, m)
              - (if HoldsSlot(qs[i], m) then 1 else 0) + (if HoldsSlot(q, m) then 1 else 0)
    ensures LeakedBy(qs[i := q], m) == LeakedBy(qs, m) - Leaked(qs[i], m) + Leaked(q, m)
  {
    var last := |qs| - 1;
    if i == last {
      assert qs[i := q][..last] == qs[..last];
    } else {
      UpdateCounts(qs[..last], i, q, m);
      assert qs[i := q][..last] == qs[..last][i := q];
    }
  }

  /** Every process is where the trace shape allows, and is calling only while it has something to call. */
  ghost predicate WellFormed(q: Process) {
    Sane(q.levels, q.maxRetries, q.progress) && (q.Finished() ==> q.pc == AtGate)
  }

  /** The in-flight counter of m is what is being called plus what has leaked, and never exceeds the slots. */
  ghost predicate Balanced(s: System, m: Model) {
    s.limits.InFlight(m) == Holding(s.processes, m) + LeakedBy(s.processes, m) <= SLOTS
  }

  lemma ConcludeFacts(q: Process, o: Outcome, waited: bool, m: Model)
    requires WellFormed(q) && !q.Finished() && Possible(o, waited)
    ensures WellFormed(Conclude(q, o, waited)) && !HoldsSlot(Conclude(q, o, waited), m)
    ensures Leaked(Conclude(q, o, waited), m)
            == Leaked(q, m) + if o == RateLimited(Granted) && q.Target() == m then 1 else 0
  {
    hide Sane;
    AdvanceSane(q.levels, q.maxRetries, q.progress, o, waited);
    AdvanceTrace(q.levels, q.maxRetries, q.progress, o, waited);
    LeakCountAppend(q.progress.Trace(), NextEntry(q.levels, q.progress, o), m);
  }

  /** One step of one process: the in-flight counter moves with what the process holds and what it has leaked. */
  lemma ProcessStepBalance(l: Limits, b: Breaker, q: Process, callSucceeds: bool, now: real, m: Model)
    requires WellFormed(q) && !q.Finished() && l.InFlight(m) <= SLOTS
    requires HoldsSlot(q, m) ==> l.InFlight(m) > 0
    ensures var (l', b', q') := ProcessStep(l, b, q, callSucceeds, now);
            && WellFormed(q')
            && l'.InFlight(m) <= SLOTS
            && l'.InFlight(m) - l.InFlight(m)
               == (if HoldsSlot(q', m) then 1 else 0) - (if HoldsSlot(q, m) then 1 else 0)
                  + Leaked(q', m) - Leaked(q, m)
  {
    hide Sane, Judge, Acquired, Evaluated, Probed, Enqueued, Conclude, LeakCount, Progress.Trace;
    var k := q.Target();
    match q.pc
    case AtGate =>
    case AtProbe =>
    case AtEnqueue => ConcludeFacts(q, CircuitOpen(HasRoom(b, k)), false, m);
    case AtAcquire =>
      AcquiredShifts(l, k, SLOTS, now);
      if Judge(l, k, SLOTS, now) == DeniedConcurrent {
        ConcludeFacts(q, RateLimited(DeniedConcurrent), false, m);
      }
    case AtSecondAcquire =>
      AcquiredShifts(l, k, SLOTS, now);
      if Judge(l, k, SLOTS, now) != DeniedDaily {
        ConcludeFacts(q, RateLimited(Judge(l, k, SLOTS, now)), true, m);
      }
    case AtPenalty(waited) => ConcludeFacts(q, RateLimited(DeniedDaily), waited, m);
    case Calling =>
      ConcludeFacts(q, if callSucceeds then Success else Failure, false, m);
  }

  lemma {:induction false} HoldingAtLeastOne(qs: seq<Process>, i: nat, m: Model)
    requires i < |qs| && HoldsSlot(qs[i], m)
    ensures Holding(qs, m) >= 1
  {
    if i < |qs| - 1 {
      HoldingAtLeastOne(qs[..|qs| - 1], i, m);
    }
  }

  lemma SpawnFacts(s: System, levels: seq<Model>, maxRetries: int, request: Request, m: Model, now: real)
    ensures var t := Step(s, Spawn(levels, maxRetries, request), now);
            && Holding(t.processes, m) == Holding(s.processes, m)
            && LeakedBy(t.processes, m) == LeakedBy(s.processes, m)
            && WellFormed(t.processes[|s.processes|])
  {
    hide Sane;
    StartSane(levels, maxRetries);
    var t := Step(s, Spawn(levels, maxRetries, request), now);
    assert t.processes[..|s.processes|] == s.processes;
  }

  lemma RunKeepsBalance(s: System, pid: nat, callSucceeds: bool, now: real, m: Model)
    requires Balanced(s, m) && pid < |s.processes| && WellFormed(s.processes[pid]) && !s.processes[pid].Finished()
    ensures Balanced(Step(s, Run(pid, callSucceeds), now), m)
    ensures WellFormed(Step(s, Run(pid, callSucceeds), now).processes[pid])
  {
    hide WellFormed, ProcessStep, HoldsSlot, Leaked, Holding, LeakedBy;
    var q := s.processes[pid];
    if HoldsSlot(q, m) {
      HoldingAtLeastOne(s.processes, pid, m);
    }
    ProcessStepBalance(s.limits, s.breaker, q, callSucceeds, now, m);
    var (l', b', q') := ProcessStep(s.limits, s.breaker, q, callSucceeds, now);
    UpdateCounts(s.processes, pid, q', m);
  }

  lemma StepKeepsBalance(s: System, a: Action, now: real, m: Model)
    requires Balanced(s, m) && forall i :: 0 <= i < |s.processes| ==> WellFormed(s.processes[i])
    ensures Balanced(Step(s, a, now), m)
    ensures forall i :: 0 <= i < |Step(s, a, now).processes| ==> WellFormed(Step(s, a, now).processes[i])
  {
    hide WellFormed, ProcessStep, HoldsSlot, Leaked, Holding, LeakedBy;
    match a
    case Spawn(levels, maxRetries, request) => SpawnFacts(s, levels, maxRetries, request, m, now);
    case Run(pid, callSucceeds) =>
      if pid < |s.processes| && !s.processes[pid].Finished() {
        RunKeepsBalance(s, pid, callSucceeds, now, m);
      }
    case LimiterReset(target) =>
    case BreakerReset =>
  }

  /** In every interleaving, resets included: the counter of m is the calls to m holding a slot plus the leaked
      slots, so at most ten calls to one model are ever in flight; and every trace has the shape of a lone run. */
  lemma {:induction false} SlotsBalance(s0: System, es: seq<Event>, m: Model)
    requires Initial(s0)
    ensures Balanced(After(s0, es), m)
    ensures forall i :: 0 <= i < |After(s0, es).processes| ==> WellFormed(After(s0, es).processes[i])
  {
    if es != [] {
      SlotsBalance(s0, es[..|es| - 1], m);
      StepKeepsBalance(After(s0, es[..|es| - 1]), es[|es| - 1].action, es[|es| - 1].now, m);
    }
  }

  /** When everything has finished, what remains taken is exactly what the traces report as leaked. */
  lemma QuiescentSlots(s0: System, es: seq<Event>, m: Model)
    requires Initial(s0)
    requires forall i :: 0 <= i < |After(s0, es).processes| ==> After(s0, es).processes[i].Finished()
    ensures After(s0, es).limits.InFlight(m) == LeakedBy(After(s0, es).processes, m)
  {
    SlotsBalance(s0, es, m);
    NoneHolding(After(s0, es).processes, m);
  }

  lemma {:induction false} NoneHolding(qs: seq<Process>, m: Model)
    requires forall i :: 0 <= i < |qs| ==> qs[i].Finished()
    ensures Holding(qs, m) == 0
  {
    if qs != [] {
      NoneHolding(qs[..|qs| - 1], m);
    }
  }

  // ---- what a leak costs -------------------------------------------------------------------------

  lemma StepLeaksGrow(s: System, a: Action, now: real, m: Model)
    requires Balanced(s, m) && forall i :: 0 <= i < |s.processes| ==> WellFormed(s.processes[i])
    ensures LeakedBy(Step(s, a, now).processes, m) >= LeakedBy(s.processes, m)
  {
    match a
    case Spawn(levels, maxRetries, request) => SpawnFacts(s, levels, maxRetries, request, m, now);
    case Run(pid, callSucceeds) =>
      if pid < |s.processes| && !s.processes[pid].Finished() {
        var q := s.processes[pid];
        LeakStep(s.limits, s.breaker, q, callSucceeds, now, m);
        UpdateCounts(s.processes, pid, ProcessStep(s.limits, s.breaker, q, callSucceeds, now).2, m);
      }
    case LimiterReset(target) =>
    case BreakerReset =>
  }

  /** A step leaks a slot of m exactly when it is a granted second acquire for m. */
  lemma LeakStep(l: Limits, b: Breaker, q: Process, callSucceeds: bool, now: real, m: Model)
    requires WellFormed(q) && !q.Finished()
    ensures Leaked(ProcessStep(l, b, q, callSucceeds, now).2, m)
            == Leaked(q, m)
               + if q.pc == AtSecondAcquire && q.Target() == m && Judge(l, m, SLOTS, now) == Granted then 1 else 0
  {
    hide Sane;
    var k := q.Target();
    match q.pc
    case AtGate =>
    case AtProbe =>
    case AtEnqueue => ConcludeFacts(q, CircuitOpen(HasRoom(b, k)), false, m);
    case AtAcquire =>
      if Judge(l, k, SLOTS, now) == DeniedConcurrent {
        ConcludeFacts(q, RateLimited(DeniedConcurrent), false, m);
      }
    case AtSecondAcquire =>
      if Judge(l, k, SLOTS, now) != DeniedDaily {
        ConcludeFacts(q, RateLimited(Judge(l, k, SLOTS, now)), true, m);
      }
    case AtPenalty(waited) => ConcludeFacts(q, RateLimited(DeniedDaily), waited, m);
    case Calling => ConcludeFacts(q, if callSucceeds then Success else Failure, false, m);
  }

  lemma {:induction false} LeaksNeverReturn(s0: System, es: seq<Event>, later: seq<Event>, m: Model)
    requires Initial(s0)
    ensures LeakedBy(After(s0, es + later).processes, m) >= LeakedBy(After(s0, es).processes, m)
  {
    hide Step, WellFormed, Balanced, LeakedBy, Initial;
    if later == [] {
      assert es + later == es;
    } else {
      var front := es + later[..|later| - 1];
      LeaksNeverReturn(s0, es, later[..|later| - 1], m);
      assert (es + later)[..|es + later| - 1] == front;
      SlotsBalance(s0, front, m);
      StepLeaksGrow(After(s0, front), later[|later| - 1].action, later[|later| - 1].now, m);
    }
  }

  /** A leaked slot is gone for good: with n leaks at most 10 - n calls to m ever run at once again, and after ten
      leaks no acquire of m succeeds any more, whatever resets, rollovers and other runs come between. */
  lemma LeaksShrinkCapacity(s0: System, es: seq<Event>, later: seq<Event>, m: Model, now: real)
    requires Initial(s0)
    ensures var n := LeakedBy(After(s0, es).processes, m);
            && Holding(After(s0, es + later).processes, m) <= SLOTS - n
            && (n == SLOTS ==> Judge(After(s0, es + later).limits, m, SLOTS, now) != Granted)
  {
    LeaksNeverReturn(s0, es, later, m);
    SlotsBalance(s0, es + later, m);
  }

  // ---- a process that runs alone is the method `Execute` -----------------------------------------

  function Rank(pc: Pc): nat {
    match pc
    case AtGate => 0
    case AtProbe => 4
    case AtAcquire => 3
    case AtEnqueue => 2
    case AtSecondAcquire => 2
    case AtPenalty(_) => 1
    case Calling => 1
  }

  predicate ReadsClock(pc: Pc) {
    pc == AtGate || pc == AtEnqueue || pc == AtAcquire || pc == AtSecondAcquire
  }

  datatype Settled = Settled(limits: Limits, breaker: Breaker, process: Process, tick: nat)

  /** The process steps, with no other process between them, until its attempt is recorded. */
  function Settle(l: Limits, b: Breaker, q: Process, call: bool, clock: nat -> real, tick: nat): Settled
    requires !q.Finished()
    decreases Rank(q.pc)
  {
    if q.pc == AtGate then Settled(l, b, q, tick) else
      var (l', b', q') := ProcessStep(l, b, q, call, clock(tick));
      var tick' := if ReadsClock(q.pc) then tick + 1 else tick;
      if q'.pc == AtGate then Settled(l', b', q', tick') else Settle(l', b', q', call, clock, tick')
  }

  lemma SettleEnqueue(l: Limits, b: Breaker, q: Process, call: bool, clock: nat -> real, tick: nat)
    requires !q.Finished() && q.pc == AtEnqueue
    ensures var m := q.Target();
            Settle(l, b, q, call, clock, tick)
            == Settled(l, Enqueued(b, m, q.request, clock(tick)),
                       Conclude(q, CircuitOpen(HasRoom(b, m)), false), tick + 1)
  {
    hide Advance, Enqueued, HasRoom;
  }

  lemma SettleSecondAcquire(l: Limits, b: Breaker, q: Process, call: bool, clock: nat -> real, tick: nat)
    requires !q.Finished() && q.pc == AtSecondAcquire
    ensures var m := q.Target();
            var v, l' := Judge(l, m, SLOTS, clock(tick)), Acquired(l, m, SLOTS, clock(tick));
            Settle(l, b, q, call, clock, tick)
            == Settled(if v == DeniedDaily then Penalized(l', m) else l', b,
                       Conclude(q, RateLimited(v), true), tick + 1)
  {
    hide Advance, Judge, Acquired, Penalized;
  }

  lemma SettleAcquire(l: Limits, b: Breaker, q: Process, call: bool, clock: nat -> real, tick: nat)
    requires !q.Finished() && q.pc == AtAcquire
    ensures var m := q.Target();
            var l' := Acquired(l, m, SLOTS, clock(tick));
            Settle(l, b, q, call, clock, tick)
            == match Judge(l, m, SLOTS, clock(tick))
               case Granted =>
                 Settled(Released(l', m), b, Conclude(q, if call then Success else Failure, false), tick + 1)
               case DeniedDaily => Settled(Penalized(l', m), b, Conclude(q, RateLimited(DeniedDaily), false), tick + 1)
               case DeniedConcurrent => Settled(l', b, Conclude(q, RateLimited(DeniedConcurrent), false), tick + 1)
               case DeniedRpm => Settle(l', b, q.(pc := AtSecondAcquire), call, clock, tick + 1)
  {
    hide Advance, Judge, Acquired, Penalized, Released;
  }

  /** The interleaved steps, taken without interruption, are one attempt of the sequential method. */
  lemma SoloAttempt(l: Limits, b: Breaker, q: Process, call: bool, clock: nat -> real, tick: nat)
    requires !q.Finished() && q.pc == AtGate
    ensures var (l', b', q') := ProcessStep(l, b, q, call, clock(tick));
            var a := AttemptOf(l, Gate(None, b), q.Target(), q.request, clock, tick, call);
            && a.gate.own.None?
            && Settle(l', b', q', call, clock, tick + 1)
               == Settled(a.limits, a.gate.breaker, Conclude(q, a.outcome, a.waited), a.tick)
  {
    hide Evaluated, Judge, Acquired, Probed, Enqueued, Advance, Penalized, Released, HasRoom, ProbeAllowed;
    var m := q.Target();
    var (l1, b1, q1) := ProcessStep(l, b, q, call, clock(tick));
    var b2 := if q1.pc == AtProbe then Probed(b1, m) else b1;
    if q1.pc == AtEnqueue || (q1.pc == AtProbe && !ProbeAllowed(b1, m)) {
      SettleEnqueue(l1, b2, q.(pc := AtEnqueue), call, clock, tick + 1);
    } else {
      SettleAcquire(l1, b2, q.(pc := AtAcquire), call, clock, tick + 1);
      SettleSecondAcquire(Acquired(l1, m, SLOTS, clock(tick + 1)), b2, q.(pc := AtSecondAcquire), call, clock,
                          tick + 2);
    }
  }

  /** The process runs, attempt by attempt and with nothing in between, until it has finished. */
  function Alone(l: Limits, b: Breaker, q: Process, clock: nat -> real, calls: nat -> bool, tick: nat): Settled
    requires q.Finished() || q.pc == AtGate
    decreases |q.levels| - q.progress.Level(), Max(0, q.maxRetries - |q.progress.current|), !q.progress.done
  {
    if q.Finished() then Settled(l, b, q, tick) else
      var call := calls(|q.progress.Trace()| + 1);
      var (l', b', q') := ProcessStep(l, b, q, call, clock(tick));
      SoloAttempt(l, b, q, call, clock, tick);
      var end := Settle(l', b', q', call, clock, tick + 1);
      Alone(end.limits, end.breaker, end.process, clock, calls, end.tick)
  }

  /** A process left alone does exactly what one call of the sequential method does. */
  lemma {:induction false} SoloRun(
    l: Limits, b: Breaker, q: Process, clock: nat -> real, calls: nat -> bool, tick: nat)
    requires q.Finished() || q.pc == AtGate
    ensures var end := Alone(l, b, q, clock, calls, tick);
            && end.process.Finished()
            && RunOf(q.levels, q.maxRetries, q.request, clock, calls, l, Gate(None, b), q.progress, tick)
               == Ended(end.limits, Gate(None, end.breaker), end.process.progress)
    decreases |q.levels| - q.progress.Level(), Max(0, q.maxRetries - |q.progress.current|), !q.progress.done
  {
    hide AttemptOf, ProcessStep, Settle, Progress.Trace;
    if !q.Finished() {
      var call := calls(|q.progress.Trace()| + 1);
      SoloAttempt(l, b, q, call, clock, tick);
      var a := AttemptOf(l, Gate(None, b), q.Target(), q.request, clock, tick, call);
      SoloRun(a.limits, a.gate.breaker, Conclude(q, a.outcome, a.waited), clock, calls, a.tick);
    }
  }
}
