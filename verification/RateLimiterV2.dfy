/** swarm/resilience/rate_limiter_v2.py: per-model daily counter, sliding per-minute window and in-flight slots.
    Each locked region is one step that reads the clock once. */
module RateLimiting {
  import opened Prelude

  type Model = string

  datatype Verdict = Granted | DeniedDaily | DeniedRpm | DeniedConcurrent

  datatype Config = Config(dailyLimits: map<Model, int>, rpmLimits: map<Model, int>, defaultRpm: int)
  {
    function Limit(m: Model): int { Get(dailyLimits, m, 1000) }
    function Rpm(m: Model): int { Get(rpmLimits, m, defaultRpm) }
  }

  datatype Limits = Limits(
    config: Config, dailyUsed: map<Model, int>, resetDay: Option<int>, concurrent: map<Model, int>,
    rpmWindow: map<Model, seq<real>>, warned: set<Model>, total429s: int)
  {
    function Limit(m: Model): int { config.Limit(m) }
    function Rpm(m: Model): int { config.Rpm(m) }
    function Used(m: Model): int { Get(dailyUsed, m, 0) }
    function InFlight(m: Model): int { Get(concurrent, m, 0) }
    function Window(m: Model): seq<real> { Get(rpmWindow, m, []) }

    /** The daily counter as a reader of that day sees it. */
    function UsedOn(m: Model, day: int): int { if resetDay == Some(day) then Used(m) else 0 }
  }

  /** The UTC calendar day of a POSIX timestamp. */
  function UtcDay(now: real): int {
    (now / 86400.0).Floor
  }

  lemma UtcDayMeaning(now: real, day: int)
    ensures UtcDay(now) == day <==> 86400.0 * day as real <= now < 86400.0 * (day + 1) as real
  {
    var d := now / 86400.0;
    assert d * 86400.0 == now;
    assert (day + 1) as real == day as real + 1.0;
    assert d.Floor as real <= d < d.Floor as real + 1.0;
  }

  lemma UtcDayMonotone(a: real, b: real)
    requires a <= b
    ensures UtcDay(a) <= UtcDay(b)
  {
    assert a / 86400.0 <= b / 86400.0;
  }

  function CheckReset(s: Limits, today: int): Limits {
    if s.resetDay == Some(today) then s else s.(dailyUsed := map[], warned := {}, resetDay := Some(today))
  }

  function Prune(w: seq<real>, now: real): seq<real> {
    if w != [] && now - w[0] >= 60.0 then Prune(w[1..], now) else w
  }

  /** The checks of `acquire_ex`, in order. */
  function Judge(s: Limits, m: Model, slots: int, now: real): Verdict {
    if s.UsedOn(m, UtcDay(now)) >= s.Limit(m) then DeniedDaily
    else if |Prune(s.Window(m), now)| >= s.Rpm(m) then DeniedRpm
    else if s.InFlight(m) >= slots then DeniedConcurrent
    else Granted
  }

  function NearLimit(used: int, limit: int): bool {
    used as real >= limit as real * 0.80
  }

  /** The state after `acquire_ex`. */
  function Acquired(s: Limits, m: Model, slots: int, now: real): Limits {
    var r := CheckReset(s, UtcDay(now));
    var pruned := Prune(s.Window(m), now);
    match Judge(s, m, slots, now)
    case DeniedDaily => r.(total429s := s.total429s + 1)
    case DeniedRpm => r.(rpmWindow := s.rpmWindow[m := pruned])
    case DeniedConcurrent => r.(rpmWindow := s.rpmWindow[m := pruned])
    case Granted =>
      r.(dailyUsed := r.dailyUsed[m := r.Used(m) + 1],
         concurrent := s.concurrent[m := s.InFlight(m) + 1],
         rpmWindow := s.rpmWindow[m := pruned + [now]],
         warned := if NearLimit(r.Used(m) + 1, s.Limit(m)) then r.warned + {m} else r.warned)
  }

  function Released(s: Limits, m: Model): Limits {
    if s.InFlight(m) > 0 then s.(concurrent := s.concurrent[m := s.InFlight(m) - 1]) else s
  }

  function Penalized(s: Limits, m: Model): Limits {
    s.(total429s := s.total429s + 1, dailyUsed := s.dailyUsed[m := s.Used(m) + 1])
  }

  function ResetModel(s: Limits, m: Model): Limits {
    s.(dailyUsed := s.dailyUsed[m := 0], warned := s.warned - {m}, rpmWindow := s.rpmWindow[m := []])
  }

  function ResetAll(s: Limits): Limits {
    s.(dailyUsed := map[], warned := {}, rpmWindow := map[])
  }

  /** Only the in-flight count of m changed, by n. */
  ghost predicate Shifted(before: Limits, after: Limits, m: Model, n: int) {
    forall k :: after.InFlight(k) == before.InFlight(k) + if k == m then n else 0
  }

  lemma AcquiredShifts(s: Limits, m: Model, slots: int, now: real)
    ensures Shifted(s, Acquired(s, m, slots, now), m, if Judge(s, m, slots, now) == Granted then 1 else 0)
    ensures Judge(s, m, slots, now) == Granted ==> s.InFlight(m) < slots
  {
  }

  lemma ReleasedShifts(s: Limits, m: Model)
    ensures s.InFlight(m) > 0 ==> Shifted(s, Released(s, m), m, -1)
    ensures s.InFlight(m) <= 0 ==> Released(s, m) == s
  {
  }

  /** A granted call warns exactly if it brings today's count to four fifths of the daily limit; the other warnings
      of the day stay, and a new day starts without any. */
  lemma WarnsExactly(s: Limits, m: Model, slots: int, now: real, k: Model)
    ensures var today := UtcDay(now);
      k in Acquired(s, m, slots, now).warned <==>
        || (s.resetDay == Some(today) && k in s.warned)
        || (k == m && Judge(s, m, slots, now) == Granted && 10 * (s.UsedOn(m, today) + 1) >= 8 * s.Limit(m))
  {
    hide Prune;
  }

  /** `reset` forgets counts, windows and warnings of one model, or of all, and nothing else. */
  lemma ResetMeaning(s: Limits, m: Model, k: Model)
    ensures var one, all := ResetModel(s, m), ResetAll(s);
      && one.Used(k) == (if k == m then 0 else s.Used(k)) && all.Used(k) == 0
      && one.Window(k) == (if k == m then [] else s.Window(k)) && all.Window(k) == []
      && (k in one.warned <==> k != m && k in s.warned) && k !in all.warned
      && one.InFlight(k) == all.InFlight(k) == s.InFlight(k)
      && one.resetDay == all.resetDay == s.resetDay && one.total429s == all.total429s == s.total429s
  {
  }

  class RateLimiterV2 {
    const config: Config
    var dailyUsed: map<Model, int>
    var resetDay: Option<int>
    var concurrent: map<Model, int>
    var rpmWindow: map<Model, seq<real>>
    var warned: set<Model>
    var total429s: int

    function State(): Limits
      reads this
    {
      Limits(config, dailyUsed, resetDay, concurrent, rpmWindow, warned, total429s)
    }

    constructor (config: Config)
      ensures State() == Limits(config, map[], None, map[], map[], {}, 0)
      ensures forall m :: m !in config.dailyLimits ==> State().Limit(m) == 1000
      ensures forall m :: m !in config.rpmLimits ==> State().Rpm(m) == config.defaultRpm
    {
      this.config := config;
      dailyUsed, resetDay, concurrent, rpmWindow, warned, total429s := map[], None, map[], map[], {}, 0;
    }

    method CheckResetLocked(now: real)
      modifies this
      ensures State() == CheckReset(old(State()), UtcDay(now))
    {
      if resetDay != Some(UtcDay(now)) {
        dailyUsed, warned := map[], {};
        resetDay := Some(UtcDay(now));
      }
    }

    method PruneRpmLocked(m: Model, now: real)
      modifies this`rpmWindow
      ensures rpmWindow == old(rpmWindow)[m := Prune(old(State()).Window(m), now)]
    {
      var w := State().Window(m);
      while w != [] && now - w[0] >= 60.0
        invariant Prune(w, now) == Prune(old(State()).Window(m), now)
        decreases |w|
      {
        w := w[1..];
      }
      rpmWindow := rpmWindow[m := w];
    }

    method GetUsed(m: Model, now: real) returns (used: int)
      modifies this
      ensures State() == CheckReset(old(State()), UtcDay(now))
      ensures used == State().Used(m)
    {
      CheckResetLocked(now);
      used := State().Used(m);
    }

    method AcquireEx(m: Model, slots: int, now: real) returns (v: Verdict)
      modifies this
      ensures v == Judge(old(State()), m, slots, now)
      ensures State() == Acquired(old(State()), m, slots, now)
    {
      hide Prune, NearLimit, UtcDay;
      CheckResetLocked(now);
      var used := Get(dailyUsed, m, 0);
      if used >= config.Limit(m) {
        total429s := total429s + 1;
        return DeniedDaily;
      }
      PruneRpmLocked(m, now);
      var window := rpmWindow[m];
      if |window| >= config.Rpm(m) {
        return DeniedRpm;
      }
      var inFlight := Get(concurrent, m, 0);
      if inFlight >= slots {
        return DeniedConcurrent;
      }
      concurrent := concurrent[m := inFlight + 1];
      rpmWindow := rpmWindow[m := window + [now]];
      assert rpmWindow == old(rpmWindow)[m := window + [now]];
      dailyUsed := dailyUsed[m := used + 1];
      if NearLimit(used + 1, config.Limit(m)) && m !in warned {
        warned := warned + {m};
      }
      return Granted;
    }

    method Release(m: Model)
      modifies this`concurrent
      ensures State() == Released(old(State()), m)
    {
      if State().InFlight(m) > 0 {
        concurrent := concurrent[m := State().InFlight(m) - 1];
      }
    }

    method Record429(m: Model)
      modifies this`total429s, this`dailyUsed
      ensures State() == Penalized(old(State()), m)
    {
      total429s := total429s + 1;
      dailyUsed := dailyUsed[m := State().Used(m) + 1];
    }

    method Reset(m: Option<Model>)
      modifies this`dailyUsed, this`warned, this`rpmWindow
      ensures State() == if m.Some? && m.value != "" then ResetModel(old(State()), m.value) else ResetAll(old(State()))
    {
      if m.Some? && m.value != "" {
        dailyUsed := dailyUsed[m.value := 0];
        warned := warned - {m.value};
        rpmWindow := rpmWindow[m.value := []];
      } else {
        dailyUsed, warned, rpmWindow := map[], {}, map[];
      }
    }
  }
}
