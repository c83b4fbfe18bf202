/** A run that leaks: swarm/enterprise/core/fallback_chain.py:180-193 met every minute. The model has room for one
    request a minute; each caller finds the window full, waits, takes the slot half a second later and moves on
    without it. */
module LeakScenario {
  import opened Prelude
  import opened RateLimiting
  import opened CircuitBreaking
  import opened FallbackExecution
  import opened Admission

  datatype Move = Move(call: bool, now: real)

  /** The next steps of one process. */
  function Moves(l: Limits, b: Breaker, q: Process, ms: seq<Move>): (Limits, Breaker, Process)
    decreases |ms|
  {
    if ms == [] || q.Finished() then (l, b, q) else
      var (l', b', q') := ProcessStep(l, b, q, ms[0].call, ms[0].now);
      Moves(l', b', q', ms[1..])
  }

  function EventsOf(pid: nat, ms: seq<Move>): seq<Event> {
    if ms == [] then [] else [Event(Run(pid, ms[0].call), ms[0].now)] + EventsOf(pid, ms[1..])
  }

  lemma AfterOneMore(s0: System, es: seq<Event>, e: Event)
    ensures After(s0, es + [e]) == Step(After(s0, es), e.action, e.now)
  {
    assert (es + [e])[..|es|] == es;
  }

  /** The steps of the last process, as a stretch of a run of the whole system. */
  lemma {:induction false} MovesOfLast(s0: System, es: seq<Event>, ps: seq<Process>, q: Process, ms: seq<Move>)
    requires After(s0, es).processes == ps + [q]
    ensures var s := After(s0, es);
            var (l, b, q') := Moves(s.limits, s.breaker, q, ms);
            After(s0, es + EventsOf(|ps|, ms)) == System(l, b, ps + [q'])
    decreases |ms|
  {
    hide ProcessStep, After;
    var s := After(s0, es);
    if ms == [] {
      assert es + EventsOf(|ps|, ms) == es;
    } else {
      var e := Event(Run(|ps|, ms[0].call), ms[0].now);
      AfterOneMore(s0, es, e);
      assert es + EventsOf(|ps|, ms) == es + [e] + EventsOf(|ps|, ms[1..]);
      if q.Finished() {
        MovesOfLast(s0, es + [e], ps, q, ms[1..]);
        NoMoves(s.limits, s.breaker, q, ms[1..]);
      } else {
        var q' := ProcessStep(s.limits, s.breaker, q, ms[0].call, ms[0].now).2;
        assert (ps + [q])[|ps| := q'] == ps + [q'];
        MovesOfLast(s0, es + [e], ps, q', ms[1..]);
      }
    }
  }

  lemma NoMoves(l: Limits, b: Breaker, q: Process, ms: seq<Move>)
    requires q.Finished()
    ensures Moves(l, b, q, ms) == (l, b, q)
  {
  }

  // ---- the scenario ----------------------------------------------------------------------------------------

  /** One request a minute for m, the defaults for everything else, and nothing done yet. */
  function Fresh(m: Model): System {
    System(
      Limits(Config(map[], map[m := 1], 30), map[], None, map[], map[], {}, 0),
      Breaker(map[], map[], 0, map[]), [])
  }

  /** n slots of m have leaked; the last request for m, and for the fallback after a leak, was granted at t. */
  ghost predicate Leaky(l: Limits, b: Breaker, m: Model, other: Model, n: nat, t: real) {
    && l.config == Config(map[], map[m := 1], 30) && l.resetDay == Some(0)
    && l.Used(m) == n + 1 && l.Used(other) == n
    && l.InFlight(m) == n && l.InFlight(other) == 0
    && l.Window(m) == [t] && l.Window(other) == (if n == 0 then [] else [t])
    && b.lastSeenDay == 0 && b.CircuitOf(m) == Closed && b.CircuitOf(other) == Closed
  }

  function Caller(m: Model, other: Model, request: Request): Process {
    Process([m, other], 1, request, Start([m, other], 1), AtGate)
  }

  lemma FirstDay(now: real)
    requires 0.0 <= now < 86400.0
    ensures UtcDay(now) == 0
  {
  }

  /** On the first day, with little used, a closed circuit lets the request through and changes nothing. */
  lemma GateOpen(l: Limits, b: Breaker, q: Process, call: bool, now: real)
    requires !q.Finished() && q.pc == AtGate && 0.0 <= now < 86400.0
    requires l.resetDay == Some(0) && 0 <= l.Used(q.Target()) < l.Limit(q.Target())
    requires b.lastSeenDay == 0 && b.CircuitOf(q.Target()) == Closed
    ensures ProcessStep(l, b, q, call, now) == (l, b, q.(pc := AtAcquire))
  {
    FirstDay(now);
    PctMeaning(l.Used(q.Target()), l.Limit(q.Target()));
  }

  /** What an acquire leaves of any model k. */
  lemma AcquiredFacts(l: Limits, x: Model, now: real, k: Model)
    requires l.resetDay == Some(UtcDay(now))
    ensures var a, v := Acquired(l, x, SLOTS, now), Judge(l, x, SLOTS, now);
      && a.config == l.config && a.resetDay == l.resetDay
      && a.Used(k) == l.Used(k) + (if k == x && v == Granted then 1 else 0)
      && a.InFlight(k) == l.InFlight(k) + (if k == x && v == Granted then 1 else 0)
      && (v == Granted || v == DeniedRpm ==>
            a.Window(k) == if k != x then l.Window(k)
                           else if v == Granted then Prune(l.Window(x), now) + [now] else Prune(l.Window(x), now))
  {
    hide Prune, Judge, UtcDay, NearLimit;
  }

  lemma ReleasedFacts(l: Limits, x: Model, k: Model)
    requires l.InFlight(x) > 0
    ensures var r := Released(l, x);
      && r.config == l.config && r.resetDay == l.resetDay && r.Used(k) == l.Used(k) && r.Window(k) == l.Window(k)
      && r.InFlight(k) == l.InFlight(k) - if k == x then 1 else 0
  {
  }

  lemma PruneOne(t: real, now: real)
    ensures Prune([t], now) == if now - t >= 60.0 then [] else [t]
  {
    assert [t][1..] == [];
  }

  lemma MoveOn(l: Limits, b: Breaker, q: Process, first: Move, ms: seq<Move>)
    requires !q.Finished()
    ensures var (l', b', q') := ProcessStep(l, b, q, first.call, first.now);
            Moves(l, b, q, [first] + ms) == Moves(l', b', q', ms)
  {
    hide ProcessStep;
    assert ([first] + ms)[1..] == ms;
  }

  /** A caller that is let through and answered at once. */
  function Answered(now: real): seq<Move> {
    [Move(true, now)] + ([Move(true, now)] + ([Move(true, now)] + []))
  }

  lemma AnsweredCall(l: Limits, b: Breaker, q: Process, now: real)
    requires !q.Finished() && q.pc == AtGate && 0.0 <= now < 86400.0
    requires l.resetDay == Some(0) && 0 <= l.Used(q.Target()) < l.Limit(q.Target())
    requires b.lastSeenDay == 0 && b.CircuitOf(q.Target()) == Closed
    requires Judge(l, q.Target(), SLOTS, now) == Granted
    ensures Moves(l, b, q, Answered(now))
            == (Released(Acquired(l, q.Target(), SLOTS, now), q.Target()), b, Conclude(q, Success, false))
  {
    hide Judge, Acquired, Released, Advance;
    var step := Move(true, now);
    MoveOn(l, b, q, step, [step] + ([step] + []));
    GateOpen(l, b, q, true, now);
    var q1 := q.(pc := AtAcquire);
    MoveOn(l, b, q1, step, [step] + []);
    var l2, q2 := Acquired(l, q.Target(), SLOTS, now), q.(pc := Calling);
    MoveOn(l2, b, q2, step, []);
  }

  /** A caller of m that finds the window full, leaks half a second later, and is answered by the other model. */
  function Leaking(t: real): seq<Move> {
    [Move(true, t + 59.8)] + ([Move(true, t + 59.8)] + ([Move(true, t + 60.3)] + Answered(t + 60.3)))
  }

  lemma FindsFull(l: Limits, m: Model, t: real)
    requires l.config == Config(map[], map[m := 1], 30) && l.resetDay == Some(0) && l.Used(m) < 1000
    requires l.Window(m) == [t] && 0.0 <= t < 1000.0
    ensures Judge(l, m, SLOTS, t + 59.8) == DeniedRpm && UtcDay(t + 59.8) == 0
  {
    FirstDay(t + 59.8);
    PruneOne(t, t + 59.8);
  }

  lemma TakesSlot(l: Limits, m: Model, x: Model, t: real)
    requires l.config == Config(map[], map[m := 1], 30) && l.resetDay == Some(0) && l.Used(x) < 1000
    requires (l.Window(x) == [t] || l.Window(x) == []) && 0.0 <= t < 1000.0 && l.InFlight(x) < SLOTS
    ensures Judge(l, x, SLOTS, t + 60.3) == Granted && UtcDay(t + 60.3) == 0
    ensures Prune(l.Window(x), t + 60.3) == []
  {
    FirstDay(t + 60.3);
    PruneOne(t, t + 60.3);
  }

  /** The trace of such a caller reports one leak. */
  lemma OneLeak(m: Model, other: Model, request: Request)
    requires m != other
    ensures var q := Conclude(Caller(m, other, request), RateLimited(Granted), true);
            && !q.Finished() && q.Target() == other && q.pc == AtGate
            && Conclude(q, Success, false).Finished() && Leaked(Conclude(q, Success, false), m) == 1
  {
    var start, levels := Start([m, other], 1), [m, other];
    AdvanceTrace(levels, 1, start, RateLimited(Granted), true);
    LeakCountAppend(start.Trace(), NextEntry(levels, start, RateLimited(Granted)), m);
    var second := Advance(levels, 1, start, RateLimited(Granted), true);
    AdvanceTrace(levels, 1, second, Success, false);
    LeakCountAppend(second.Trace(), NextEntry(levels, second, Success), m);
  }

  lemma AcquireSteps(l: Limits, b: Breaker, q: Process, call: bool, now: real)
    requires !q.Finished()
    ensures q.pc == AtAcquire && Judge(l, q.Target(), SLOTS, now) == DeniedRpm ==>
      ProcessStep(l, b, q, call, now) == (Acquired(l, q.Target(), SLOTS, now), b, q.(pc := AtSecondAcquire))
    ensures q.pc == AtSecondAcquire && Judge(l, q.Target(), SLOTS, now) == Granted ==>
      ProcessStep(l, b, q, call, now)
      == (Acquired(l, q.Target(), SLOTS, now), b, Conclude(q, RateLimited(Granted), true))
  {
    hide Judge, Acquired, Conclude;
  }

  lemma LeakingCall(l: Limits, b: Breaker, m: Model, other: Model, request: Request, n: nat, t: real)
    requires m != other && n < SLOTS && 0.0 <= t < 1000.0 && Leaky(l, b, m, other, n, t)
    ensures var (l', b', q') := Moves(l, b, Caller(m, other, request), Leaking(t));
            Leaky(l', b', m, other, n + 1, t + 60.3) && q'.Finished() && Leaked(q', m) == 1
  {
    hide Acquired, Released, Judge, Moves, ProcessStep, Advance, LeakCount, Prune;
    var q, full, free := Caller(m, other, request), t + 59.8, t + 60.3;
    var wait := [Move(true, free)] + Answered(free);
    MoveOn(l, b, q, Move(true, full), [Move(true, full)] + wait);
    GateOpen(l, b, q, true, full);
    FindsFull(l, m, t);
    var l1, q1 := Acquired(l, m, SLOTS, full), q.(pc := AtAcquire);
    MoveOn(l, b, q1, Move(true, full), wait);
    AcquireSteps(l, b, q1, true, full);
    AcquiredFacts(l, m, full, m);
    AcquiredFacts(l, m, full, other);
    PruneOne(t, full);
    TakesSlot(l1, m, m, t);
    var l2, q2 := Acquired(l1, m, SLOTS, free), q.(pc := AtSecondAcquire);
    MoveOn(l1, b, q2, Move(true, free), Answered(free));
    AcquireSteps(l1, b, q2, true, free);
    AcquiredFacts(l1, m, free, m);
    AcquiredFacts(l1, m, free, other);
    PruneOne(t, free);
    var q3 := Conclude(q, RateLimited(Granted), true);
    TakesSlot(l2, m, other, t);
    OneLeak(m, other, request);
    AnsweredCall(l2, b, q3, free);
    AcquiredFacts(l2, other, free, m);
    AcquiredFacts(l2, other, free, other);
    var l3 := Acquired(l2, other, SLOTS, free);
    ReleasedFacts(l3, other, m);
    ReleasedFacts(l3, other, other);
  }

  /** The very first call is answered, and fills the window. */
  lemma FirstCall(m: Model, other: Model, request: Request)
    requires m != other
    ensures var (l, b, q) := Moves(Fresh(m).limits, Fresh(m).breaker, Caller(m, other, request), Answered(0.0));
            Leaky(l, b, m, other, 0, 0.0) && q.Finished() && Leaked(q, m) == 0
  {
    hide Acquired, Released, Moves, Flatten, LeakCount;
    var l, b, q := Fresh(m).limits, Fresh(m).breaker, Caller(m, other, request);
    var step := Move(true, 0.0);
    FirstDay(0.0);
    PctMeaning(0, 1);
    MoveOn(l, b, q, step, [step] + ([step] + []));
    var l1, q1 := CheckReset(l, 0), q.(pc := AtAcquire);
    assert ProcessStep(l, b, q, true, 0.0) == (l1, b, q1);
    MoveOn(l1, b, q1, step, [step] + []);
    var l2, q2 := Acquired(l1, m, SLOTS, 0.0), q.(pc := Calling);
    AcquiredFacts(l1, m, 0.0, m);
    AcquiredFacts(l1, m, 0.0, other);
    MoveOn(l2, b, q2, step, []);
    ReleasedFacts(l2, m, m);
    ReleasedFacts(l2, m, other);
    NoMoves(Released(l2, m), b, Conclude(q, Success, false), []);
    NoLeak(m, other, request);
  }

  lemma NoLeak(m: Model, other: Model, request: Request)
    ensures Leaked(Conclude(Caller(m, other, request), Success, false), m) == 0
  {
    var start := Start([m, other], 1);
    AdvanceTrace([m, other], 1, start, Success, false);
    LeakCountAppend(start.Trace(), NextEntry([m, other], start, Success), m);
  }

  // ---- any number of leaks up to the number of slots --------------------------------------------------------

  /** When the n-th leak happens. */
  function LeakTime(n: nat): real {
    60.3 * n as real
  }

  /** The clock never runs back, and has not passed t. */
  ghost predicate Until(es: seq<Event>, t: real) {
    && (forall i, j :: 0 <= i < j < |es| ==> es[i].now <= es[j].now)
    && forall i :: 0 <= i < |es| ==> es[i].now <= t
  }

  lemma {:induction false} TimesOf(pid: nat, ms: seq<Move>)
    ensures |EventsOf(pid, ms)| == |ms|
    ensures forall i :: 0 <= i < |ms| ==> EventsOf(pid, ms)[i].now == ms[i].now
  {
    if ms != [] {
      TimesOf(pid, ms[1..]);
    }
  }

  lemma LeakingTimes(t: real)
    ensures |Leaking(t)| == 6
    ensures forall i :: 0 <= i < 6 ==> Leaking(t)[i].now == if i < 2 then t + 59.8 else t + 60.3
    ensures |Answered(t)| == 3 && forall i :: 0 <= i < 3 ==> Answered(t)[i].now == t
  {
  }

  lemma UntilMore(es: seq<Event>, from: real, e: Event, rest: seq<Event>, to: real)
    requires Until(es, from) && from <= e.now <= to
    requires forall i :: 0 <= i < |rest| ==> e.now <= rest[i].now <= to
    requires forall i, j :: 0 <= i < j < |rest| ==> rest[i].now <= rest[j].now
    ensures Until(es + [e] + rest, to)
  {
  }

  ghost predicate AllFinished(qs: seq<Process>) {
    forall i :: 0 <= i < |qs| ==> qs[i].Finished()
  }

  /** One more caller, from its arrival to its end. */
  lemma OneMoreCaller(s0: System, es: seq<Event>, m: Model, other: Model, request: Request, ms: seq<Move>)
    returns (more: seq<Event>)
    requires ms != []
    ensures more == es + [Event(Spawn([m, other], 1, request), ms[0].now)]
                    + EventsOf(|After(s0, es).processes|, ms)
    ensures var s, q := After(s0, es), Caller(m, other, request);
            var (l, b, q') := Moves(s.limits, s.breaker, q, ms);
            After(s0, more) == System(l, b, s.processes + [q'])
  {
    hide Moves, Start;
    var s, spawn := After(s0, es), Event(Spawn([m, other], 1, request), ms[0].now);
    AfterOneMore(s0, es, spawn);
    MovesOfLast(s0, es + [spawn], s.processes, Caller(m, other, request), ms);
    more := es + [spawn] + EventsOf(|s.processes|, ms);
  }

  lemma LeakedByOneMore(qs: seq<Process>, q: Process, m: Model)
    ensures LeakedBy(qs + [q], m) == LeakedBy(qs, m) + Leaked(q, m)
  {
    assert (qs + [q])[..|qs|] == qs;
  }

  /** The run ends at its n-th leak, with everything finished. */
  ghost predicate Leads(es: seq<Event>, m: Model, other: Model, n: nat) {
    var s := After(Fresh(m), es);
    && Leaky(s.limits, s.breaker, m, other, n, LeakTime(n))
    && AllFinished(s.processes) && LeakedBy(s.processes, m) == n
    && Until(es, LeakTime(n))
  }

  lemma FirstInTime(m: Model, other: Model, request: Request, pid: nat)
    ensures Until([] + [Event(Spawn([m, other], 1, request), Answered(0.0)[0].now)] + EventsOf(pid, Answered(0.0)), 0.0)
  {
    hide EventsOf, Answered;
    LeakingTimes(0.0);
    TimesOf(pid, Answered(0.0));
    UntilMore([], 0.0, Event(Spawn([m, other], 1, request), Answered(0.0)[0].now), EventsOf(pid, Answered(0.0)), 0.0);
  }

  lemma NextInTime(es: seq<Event>, t: real, m: Model, other: Model, request: Request, pid: nat)
    requires Until(es, t)
    ensures Until(es + [Event(Spawn([m, other], 1, request), Leaking(t)[0].now)] + EventsOf(pid, Leaking(t)), t + 60.3)
  {
    hide EventsOf, Leaking, Until;
    LeakingTimes(t);
    TimesOf(pid, Leaking(t));
    UntilMore(es, t, Event(Spawn([m, other], 1, request), Leaking(t)[0].now), EventsOf(pid, Leaking(t)), t + 60.3);
  }

  lemma EmptyRun(m: Model)
    ensures After(Fresh(m), []) == Fresh(m) && LeakedBy([], m) == 0
  {
  }

  lemma FirstLeads(m: Model, other: Model, request: Request) returns (es: seq<Event>)
    requires m != other
    ensures Leads(es, m, other, 0)
  {
    hide Moves, Leaky, Leaked, Until, Answered, EventsOf, Caller, After;
    EmptyRun(m);
    FirstCall(m, other, request);
    FirstInTime(m, other, request, 0);
    LeakingTimes(0.0);
    es := OneMoreCaller(Fresh(m), [], m, other, request, Answered(0.0));
    LeakedByOneMore([], After(Fresh(m), es).processes[0], m);
  }

  lemma NextLeads(before: seq<Event>, m: Model, other: Model, request: Request, n: nat) returns (es: seq<Event>)
    requires m != other && n < SLOTS && Leads(before, m, other, n)
    ensures Leads(es, m, other, n + 1)
  {
    hide Moves, Leaky, Leaked, Until, Leaking, EventsOf, Caller, After;
    var s, t := After(Fresh(m), before), LeakTime(n);
    assert LeakTime(n + 1) == t + 60.3;
    LeakingCall(s.limits, s.breaker, m, other, request, n, t);
    NextInTime(before, t, m, other, request, |s.processes|);
    LeakingTimes(t);
    es := OneMoreCaller(Fresh(m), before, m, other, request, Leaking(t));
    LeakedByOneMore(s.processes, After(Fresh(m), es).processes[|s.processes|], m);
  }

  /** From an empty system, any number of leaks up to the number of slots happens in some run. */
  lemma {:induction false} LeaksHappen(n: nat, m: Model, other: Model, request: Request) returns (es: seq<Event>)
    requires m != other && n <= SLOTS
    ensures Leads(es, m, other, n)
  {
    hide Leads;
    if n == 0 {
      es := FirstLeads(m, other, request);
    } else {
      var before := LeaksHappen(n - 1, m, other, request);
      es := NextLeads(before, m, other, request, n - 1);
    }
  }

  /** Ten callers, a minute apart, close a model for good: nothing runs, quota and window have room, and it is
      refused. */
  lemma TenLeaks(m: Model, other: Model, request: Request) returns (es: seq<Event>)
    requires m != other
    ensures Initial(Fresh(m)) && Until(es, LeakTime(SLOTS))
    ensures var s := After(Fresh(m), es);
            && AllFinished(s.processes) && LeakedBy(s.processes, m) == SLOTS
            && s.limits.UsedOn(m, 0) < s.limits.Limit(m)
            && |Prune(s.limits.Window(m), LeakTime(11))| < s.limits.Rpm(m)
            && Judge(s.limits, m, SLOTS, LeakTime(11)) == DeniedConcurrent
  {
    es := LeaksHappen(SLOTS, m, other, request);
    FirstDay(LeakTime(11));
    PruneOne(LeakTime(10), LeakTime(11));
  }
}
