/** swarm/resilience/retry_engine.py: back-off delays, the precomputed schedule and the retry loop. Delays and times are
    reals; the random generator is the stream of its draws. */
module RetryEngines {
  import opened Prelude

  datatype Strategy = Fixed | Linear | Exponential | ExponentialJitter | DecorrelatedJitter

  datatype Policy = Policy(
    maxAttempts: int, initialDelay: real, maxDelay: real, strategy: Strategy, jitterFactor: real,
    totalTimeout: Option<real>)
  {
    /** What `__post_init__` accepts. */
    predicate Valid() {
      maxAttempts >= 1 && initialDelay >= 0.0 && maxDelay >= initialDelay && 0.0 <= jitterFactor <= 1.0
    }

    predicate Draws() {
      strategy == ExponentialJitter || strategy == DecorrelatedJitter
    }
  }

  function Max0(x: real): real {
    if x > 0.0 then x else 0.0
  }

  function Uniform(a: real, b: real, draw: real): real {
    a + (b - a) * draw
  }

  function ExponentialDelay(p: Policy, attempt: nat): real
    requires attempt >= 1
  {
    p.initialDelay * Pow2(attempt - 1)
  }

  function Jitter(factor: real, draw: real): real {
    1.0 + factor * (2.0 * draw - 1.0)
  }

  function Product(x: real, y: real): real {
    x * y
  }

  /** `compute_backoff` for a 1-based attempt; `draw` is the next number of the generator, if the strategy needs it. */
  function Backoff(p: Policy, attempt: nat, draw: real, previous: Option<real>): real
    requires attempt >= 1
  {
    var delay :=
      match p.strategy
      case Fixed => p.initialDelay
      case Linear => p.initialDelay * attempt as real
      case Exponential => ExponentialDelay(p, attempt)
      case ExponentialJitter => Product(ExponentialDelay(p, attempt), Jitter(p.jitterFactor, draw))
      case DecorrelatedJitter =>
        var base := if previous.Some? then previous.value else p.initialDelay;
        Min(p.maxDelay, Uniform(p.initialDelay, base * 3.0, draw));
    Max0(Min(delay, p.maxDelay))
  }

  /** The first n delays on a stream of draws. */
  function Delays(p: Policy, draws: nat -> real, n: nat): (r: seq<real>)
    ensures |r| == n
  {
    if n == 0 then [] else
      var before := Delays(p, draws, n - 1);
      before + [Backoff(p, n, draws(n - 1), if n == 1 then None else Some(before[n - 2]))]
  }

  function Sum(s: seq<real>): real {
    if s == [] then 0.0 else Sum(s[..|s| - 1]) + s[|s| - 1]
  }

  // ---- ranges ------------------------------------------------------------------------------------

  /** Every delay is between 0 and the maximum, whatever the generator draws. */
  lemma BackoffRange(p: Policy, attempt: nat, draw: real, previous: Option<real>)
    requires p.Valid() && attempt >= 1
    ensures 0.0 <= Backoff(p, attempt, draw, previous) <= p.maxDelay
  {
  }

  lemma {:induction false} DelaysRange(p: Policy, draws: nat -> real, n: nat, i: nat)
    requires p.Valid() && i < n
    ensures 0.0 <= Delays(p, draws, n)[i] <= p.maxDelay
  {
    hide Backoff;
    if i == n - 1 {
      BackoffRange(p, n, draws(n - 1), if n == 1 then None else Some(Delays(p, draws, n - 1)[n - 2]));
    } else {
      DelaysRange(p, draws, n - 1, i);
    }
  }

  /** A longer schedule starts with the shorter one. */
  lemma {:induction false} DelaysPrefix(p: Policy, draws: nat -> real, n: nat, m: nat)
    requires n <= m
    ensures Delays(p, draws, m)[..n] == Delays(p, draws, n)
    decreases m
  {
    hide Backoff;
    if n < m {
      DelaysPrefix(p, draws, n, m - 1);
      assert Delays(p, draws, m)[..n] == Delays(p, draws, m - 1)[..n];
    }
  }

  lemma Scaled(x: real, lo: real, f: real, hi: real)
    requires x >= 0.0 && lo <= f <= hi
    ensures Product(x, lo) <= Product(x, f) <= Product(x, hi)
    ensures lo >= 0.0 ==> Product(x, lo) >= 0.0
  {
  }

  lemma JitterWithin(factor: real, draw: real)
    requires 0.0 <= factor <= 1.0 && 0.0 <= draw < 1.0
    ensures 1.0 - factor <= Jitter(factor, draw) <= 1.0 + factor
  {
    var u := 2.0 * draw - 1.0;
    Scaled(factor, -1.0, u, 1.0);
    assert Product(factor, u) == factor * u && Product(factor, -1.0) == -factor && Product(factor, 1.0) == factor;
  }

  lemma ExponentialDelayNonNegative(p: Policy, attempt: nat)
    requires p.Valid() && attempt >= 1
    ensures ExponentialDelay(p, attempt) >= 0.0
  {
  }

  /** With draws in [0, 1) the jitter stays within its factor of the exponential delay. */
  lemma JitterRange(p: Policy, attempt: nat, draw: real, previous: Option<real>)
    requires p.Valid() && attempt >= 1 && p.strategy == ExponentialJitter && 0.0 <= draw < 1.0
    ensures var base := ExponentialDelay(p, attempt);
            Min(Product(base, 1.0 - p.jitterFactor), p.maxDelay) <= Backoff(p, attempt, draw, previous)
              <= Min(Product(base, 1.0 + p.jitterFactor), p.maxDelay)
  {
    hide ExponentialDelay, Jitter, Product;
    ExponentialDelayNonNegative(p, attempt);
    JitterWithin(p.jitterFactor, draw);
    Scaled(ExponentialDelay(p, attempt), 1.0 - p.jitterFactor, Jitter(p.jitterFactor, draw), 1.0 + p.jitterFactor);
  }

  lemma UniformAbove(a: real, b: real, draw: real)
    requires a <= b && 0.0 <= draw < 1.0
    ensures a <= Uniform(a, b, draw)
  {
  }

  /** With draws in [0, 1) the decorrelated delays never fall below the initial delay. */
  lemma {:induction false} DecorrelatedRange(p: Policy, draws: nat -> real, n: nat)
    requires p.Valid() && p.strategy == DecorrelatedJitter && n >= 1
    requires forall k :: 0 <= k < n ==> 0.0 <= draws(k) < 1.0
    ensures p.initialDelay <= Delays(p, draws, n)[n - 1] <= p.maxDelay
  {
    hide Uniform;
    var base := if n == 1 then p.initialDelay else Delays(p, draws, n - 1)[n - 2];
    if n > 1 {
      DecorrelatedRange(p, draws, n - 1);
    }
    UniformAbove(p.initialDelay, base * 3.0, draws(n - 1));
  }

  // ---- the schedule, delay by delay ----------------------------------------------------------------

  ghost predicate Drawn(draws: nat -> real) {
    forall k :: 0.0 <= draws(k) < 1.0
  }

  /** From the first delay on, each is twice the one before. */
  ghost predicate Doubling(initial: real, base: seq<real>) {
    && (base != [] ==> base[0] == initial)
    && forall i :: 0 < i < |base| ==> base[i] == 2.0 * base[i - 1]
  }

  ghost predicate DoublesUpTo(initial: real, max: real, d: seq<real>) {
    && (d != [] ==> d[0] == initial)
    && forall i :: 0 < i < |d| ==> d[i] == Min(2.0 * d[i - 1], max)
  }

  /** As far from its base as the draw says, by at most the factor. */
  predicate IsJittered(base: real, factor: real, max: real, draw: real, delay: real) {
    && delay == Min((1.0 + factor * (2.0 * draw - 1.0)) * base, max)
    && Min((1.0 - factor) * base, max) <= delay <= Min((1.0 + factor) * base, max)
  }

  /** The i-th delay is the i-th of the doubling sequence, up to the jitter, cut at the maximum. */
  ghost predicate JittersAround(base: seq<real>, factor: real, max: real, draws: nat -> real, d: seq<real>) {
    |base| == |d| && forall i :: 0 <= i < |d| ==> IsJittered(base[i], factor, max, draws(i), d[i])
  }

  /** Between the initial delay and three times the delay before, in proportion to the draw, cut at the maximum. */
  predicate IsDecorrelated(initial: real, max: real, draw: real, before: real, delay: real) {
    delay == Min(initial + (3.0 * before - initial) * draw, max) && initial <= delay <= 3.0 * before
  }

  ghost predicate Decorrelates(initial: real, max: real, draws: nat -> real, d: seq<real>) {
    forall i :: 0 <= i < |d| ==> IsDecorrelated(initial, max, draws(i), Before(initial, d, i), d[i])
  }

  function Before(initial: real, d: seq<real>, i: nat): real
    requires i < |d|
  {
    if i == 0 then initial else d[i - 1]
  }

  /** What each strategy schedules. */
  ghost predicate Schedule(p: Policy, draws: nat -> real, d: seq<real>) {
    match p.strategy
    case Fixed => forall i :: 0 <= i < |d| ==> d[i] == p.initialDelay
    case Linear => forall i :: 0 <= i < |d| ==> d[i] == Min((i + 1) as real * p.initialDelay, p.maxDelay)
    case Exponential => DoublesUpTo(p.initialDelay, p.maxDelay, d)
    case ExponentialJitter =>
      exists base :: Doubling(p.initialDelay, base) && JittersAround(base, p.jitterFactor, p.maxDelay, draws, d)
    case DecorrelatedJitter => Decorrelates(p.initialDelay, p.maxDelay, draws, d)
  }

  lemma ScaleNonNegative(k: real, x: real)
    requires k >= 0.0 && x >= 0.0
    ensures k * x >= 0.0
  {
  }

  lemma ExponentialDoubles(p: Policy, attempt: nat)
    requires attempt >= 1
    ensures ExponentialDelay(p, 1) == p.initialDelay
    ensures ExponentialDelay(p, attempt + 1) == 2.0 * ExponentialDelay(p, attempt)
  {
    assert p.initialDelay * (2.0 * Pow2(attempt - 1)) == 2.0 * (p.initialDelay * Pow2(attempt - 1));
  }

  lemma LinearDelay(p: Policy, attempt: nat, draw: real, previous: Option<real>)
    requires p.Valid() && p.strategy == Linear && attempt >= 1
    ensures Backoff(p, attempt, draw, previous) == Min(attempt as real * p.initialDelay, p.maxDelay)
  {
    ScaleNonNegative(attempt as real, p.initialDelay);
  }

  lemma DoublingDelay(p: Policy, attempt: nat, draw: real, previous: Option<real>)
    requires p.Valid() && p.strategy == Exponential && attempt >= 1
    ensures Backoff(p, attempt, draw, previous) == Min(ExponentialDelay(p, attempt), p.maxDelay)
  {
    ExponentialDelayNonNegative(p, attempt);
    hide ExponentialDelay;
  }

  /** The doubling sequence itself. */
  lemma {:induction false} Bases(p: Policy, n: nat) returns (base: seq<real>)
    ensures |base| == n && Doubling(p.initialDelay, base)
    ensures forall i :: 0 <= i < n ==> base[i] == ExponentialDelay(p, i + 1)
  {
    hide ExponentialDelay;
    base := [];
    if n > 0 {
      base := Bases(p, n - 1);
      if n == 1 {
        ExponentialDoubles(p, 1);
      } else {
        ExponentialDoubles(p, n - 1);
      }
      base := base + [ExponentialDelay(p, n)];
    }
  }

  lemma UniformDecorrelates(initial: real, max: real, draw: real, before: real)
    requires 0.0 <= initial <= before && initial <= max && 0.0 <= draw < 1.0
    ensures IsDecorrelated(initial, max, draw, before, Min(Uniform(initial, before * 3.0, draw), max))
  {
    var width := before * 3.0 - initial;
    Scaled(width, 0.0, draw, 1.0);
    assert Product(width, draw) == width * draw && Product(width, 0.0) == 0.0 && Product(width, 1.0) == width;
    hide Product;
  }

  lemma DecorrelatedDelay(p: Policy, attempt: nat, draw: real, previous: Option<real>)
    requires p.Valid() && p.strategy == DecorrelatedJitter && attempt >= 1 && 0.0 <= draw < 1.0
    requires previous.Some? ==> p.initialDelay <= previous.value
    ensures IsDecorrelated(p.initialDelay, p.maxDelay, draw,
                           if previous.Some? then previous.value else p.initialDelay,
                           Backoff(p, attempt, draw, previous))
  {
    var before := if previous.Some? then previous.value else p.initialDelay;
    UniformDecorrelates(p.initialDelay, p.maxDelay, draw, before);
    UniformAbove(p.initialDelay, before * 3.0, draw);
    hide Uniform, IsDecorrelated, ExponentialDelay, Product, Jitter;
  }

  lemma JitterBounds(base: real, factor: real, max: real, draw: real, delay: real)
    requires delay == Min(Product(base, Jitter(factor, draw)), max)
    requires Min(Product(base, 1.0 - factor), max) <= delay <= Min(Product(base, 1.0 + factor), max)
    ensures IsJittered(base, factor, max, draw, delay)
  {
    assert Product(base, Jitter(factor, draw)) == (1.0 + factor * (2.0 * draw - 1.0)) * base;
    assert Product(base, 1.0 - factor) == (1.0 - factor) * base;
    assert Product(base, 1.0 + factor) == (1.0 + factor) * base;
    hide Product;
  }

  lemma JitterPositive(p: Policy, attempt: nat, draw: real)
    requires p.Valid() && attempt >= 1 && 0.0 <= draw < 1.0
    ensures Product(ExponentialDelay(p, attempt), Jitter(p.jitterFactor, draw)) >= 0.0
  {
    ExponentialDelayNonNegative(p, attempt);
    JitterWithin(p.jitterFactor, draw);
    hide ExponentialDelay, Jitter;
    Scaled(ExponentialDelay(p, attempt), 0.0, Jitter(p.jitterFactor, draw), 2.0);
  }

  lemma JitteredDelay(p: Policy, attempt: nat, draw: real, previous: Option<real>)
    requires p.Valid() && p.strategy == ExponentialJitter && attempt >= 1 && 0.0 <= draw < 1.0
    ensures IsJittered(ExponentialDelay(p, attempt), p.jitterFactor, p.maxDelay, draw,
                       Backoff(p, attempt, draw, previous))
  {
    JitterRange(p, attempt, draw, previous);
    JitterPositive(p, attempt, draw);
    assert Backoff(p, attempt, draw, previous) ==
           Min(Product(ExponentialDelay(p, attempt), Jitter(p.jitterFactor, draw)), p.maxDelay) by {
      hide ExponentialDelay, Product, Jitter;
    }
    hide Backoff, ExponentialDelay, Product, Jitter, IsJittered;
    JitterBounds(ExponentialDelay(p, attempt), p.jitterFactor, p.maxDelay, draw, Backoff(p, attempt, draw, previous));
  }

  /** The delay before the i-th one of a schedule. */
  function Earlier(d: seq<real>, i: nat): Option<real>
    requires i <= |d|
  {
    if i == 0 then None else Some(d[i - 1])
  }

  lemma {:induction false} DelayAt(p: Policy, draws: nat -> real, n: nat, i: nat)
    requires i < n
    ensures var d := Delays(p, draws, n); d[i] == Backoff(p, i + 1, draws(i), Earlier(d, i))
  {
    hide Backoff;
    if i < n - 1 {
      DelayAt(p, draws, n - 1, i);
    }
  }

  lemma LinearSchedule(p: Policy, draws: nat -> real, n: nat)
    requires p.Valid() && p.strategy == Linear
    ensures Schedule(p, draws, Delays(p, draws, n))
  {
    hide Backoff, Delays;
    var d := Delays(p, draws, n);
    forall i | 0 <= i < n ensures d[i] == Min((i + 1) as real * p.initialDelay, p.maxDelay) {
      DelayAt(p, draws, n, i);
      LinearDelay(p, i + 1, draws(i), Earlier(d, i));
    }
  }

  lemma ExponentialSchedule(p: Policy, draws: nat -> real, n: nat)
    requires p.Valid() && p.strategy == Exponential
    ensures DoublesUpTo(p.initialDelay, p.maxDelay, Delays(p, draws, n))
  {
    hide Backoff, Delays, ExponentialDelay;
    var d := Delays(p, draws, n);
    forall i | 0 <= i < n ensures d[i] == Min(ExponentialDelay(p, i + 1), p.maxDelay) {
      DelayAt(p, draws, n, i);
      DoublingDelay(p, i + 1, draws(i), Earlier(d, i));
    }
    if n > 0 {
      ExponentialDoubles(p, 1);
    }
    forall i | 0 < i < n ensures d[i] == Min(2.0 * d[i - 1], p.maxDelay) {
      ExponentialDoubles(p, i);
    }
  }

  lemma JitteredSchedule(p: Policy, draws: nat -> real, n: nat) returns (base: seq<real>)
    requires p.Valid() && p.strategy == ExponentialJitter && Drawn(draws)
    ensures Doubling(p.initialDelay, base)
    ensures JittersAround(base, p.jitterFactor, p.maxDelay, draws, Delays(p, draws, n))
  {
    hide Backoff, Delays, ExponentialDelay, IsJittered;
    base := Bases(p, n);
    var d := Delays(p, draws, n);
    forall i | 0 <= i < n ensures IsJittered(base[i], p.jitterFactor, p.maxDelay, draws(i), d[i]) {
      DelayAt(p, draws, n, i);
      JitteredDelay(p, i + 1, draws(i), Earlier(d, i));
    }
  }

  lemma DecorrelatedSchedule(p: Policy, draws: nat -> real, n: nat)
    requires p.Valid() && p.strategy == DecorrelatedJitter && Drawn(draws)
    ensures Decorrelates(p.initialDelay, p.maxDelay, draws, Delays(p, draws, n))
  {
    hide Backoff, Delays, IsDecorrelated;
    var d := Delays(p, draws, n);
    forall i | 0 <= i < n
      ensures IsDecorrelated(p.initialDelay, p.maxDelay, draws(i), Before(p.initialDelay, d, i), d[i])
    {
      DelayAt(p, draws, n, i);
      if i > 0 {
        DecorrelatedRange(p, draws, i);
        DelaysPrefix(p, draws, i, n);
        assert d[..i][i - 1] == d[i - 1];
      }
      DecorrelatedDelay(p, i + 1, draws(i), Earlier(d, i));
    }
  }

  /** In every schedule each delay is what its strategy promises. */
  lemma DelaysAreScheduled(p: Policy, draws: nat -> real, n: nat)
    requires p.Valid() && Drawn(draws)
    ensures Schedule(p, draws, Delays(p, draws, n))
  {
    hide Delays, DoublesUpTo, Doubling, JittersAround, Decorrelates;
    match p.strategy
    case Fixed =>
      var d := Delays(p, draws, n);
      forall i | 0 <= i < n ensures d[i] == p.initialDelay {
        DelayAt(p, draws, n, i);
      }
    case Linear => LinearSchedule(p, draws, n);
    case Exponential => ExponentialSchedule(p, draws, n);
    case ExponentialJitter =>
      var base := JitteredSchedule(p, draws, n);
    case DecorrelatedJitter => DecorrelatedSchedule(p, draws, n);
  }

  class BackoffSchedule {
    var delays: seq<real>
    var totalDelay: real

    constructor Compute(p: Policy, draws: nat -> real, attempts: Option<int>)
      ensures var n := Max(0, if attempts.Some? then attempts.value else p.maxAttempts - 1);
              delays == Delays(p, draws, n) && totalDelay == Sum(delays)
      ensures p.Valid() && Drawn(draws) ==> Schedule(p, draws, delays)
    {
      var n := Max(0, if attempts.Some? then attempts.value else p.maxAttempts - 1);
      var computed: seq<real> := [];
      var previous: Option<real> := None;
      var drawn := 0;
      hide Backoff, Schedule, Sum;
      for attempt := 1 to n + 1
        invariant computed == Delays(p, draws, attempt - 1)
        invariant previous == if attempt == 1 then None else Some(computed[attempt - 2])
        invariant p.Draws() ==> drawn == attempt - 1
      {
        var delay := Backoff(p, attempt, draws(drawn), previous);
        SameDraw(p, attempt, draws(drawn), draws(attempt - 1), previous);
        if p.Draws() {
          drawn := drawn + 1;
        }
        computed := computed + [delay];
        previous := Some(delay);
      }
      delays := computed;
      totalDelay := Sum(computed);
      if p.Valid() && Drawn(draws) {
        DelaysAreScheduled(p, draws, n);
      }
    }
  }

  /** Strategies that draw nothing do not depend on the generator. */
  lemma SameDraw(p: Policy, attempt: nat, draw: real, other: real, previous: Option<real>)
    requires attempt >= 1 && (p.Draws() ==> draw == other)
    ensures Backoff(p, attempt, draw, previous) == Backoff(p, attempt, other, previous)
  {
  }

  // ---- one execution -----------------------------------------------------------------------------

  datatype Outcome = Ok | Retriable | Fatal

  datatype Call = Call(outcome: Outcome, duration: real)

  datatype Ending = Returned | Raised | Exhausted

  /** What is observable of an execution: when the calls started, how long it asked to sleep, how it ended. */
  datatype Execution = Execution(starts: seq<real>, sleeps: seq<real>, ending: Ending)

  /** The surroundings: the behaviour of the k-th call, and how long a requested sleep really lasts. */
  datatype World = World(begin: real, draws: nat -> real, calls: nat -> Call, naps: (nat, real) -> real) {
    ghost predicate Valid() {
      forall k :: calls(k).duration >= 0.0
    }
  }

  function Deadline(p: Policy, w: World): Option<real> {
    if p.totalTimeout.Some? then Some(w.begin + p.totalTimeout.value) else None
  }

  /** The scheduled delay, cut to the time that is left. */
  function CutDelay(p: Policy, w: World, i: nat, end: real): real {
    var d := Deadline(p, w);
    var delay := Delays(p, w.draws, i + 1)[i];
    if d.Some? then Min(delay, d.value - end) else delay
  }

  function EndOf(w: World, starts: seq<real>, i: nat): real
    requires i < |starts|
  {
    starts[i] + w.calls(i).duration
  }

  predicate TimeLeft(p: Policy, w: World, end: real) {
    var d := Deadline(p, w);
    d.Some? ==> d.value - end > 0.0
  }

  /** How an execution unfolds: the i-th call fails retriably with time and attempts left, exactly then the i-th cut
      delay is slept and the next call starts. */
  ghost predicate Unfolds(p: Policy, w: World, e: Execution) {
    && 1 <= |e.starts| <= p.maxAttempts && |e.sleeps| == |e.starts| - 1
    && e.starts[0] == w.begin
    && (forall i :: 0 <= i < |e.sleeps| ==>
          && w.calls(i).outcome == Retriable
          && TimeLeft(p, w, EndOf(w, e.starts, i))
          && e.sleeps[i] == CutDelay(p, w, i, EndOf(w, e.starts, i))
          && e.starts[i + 1] == EndOf(w, e.starts, i) + (if e.sleeps[i] > 0.0 then w.naps(i, e.sleeps[i]) else 0.0))
  }

  /** Why it stopped after the last call. */
  ghost predicate Ends(p: Policy, w: World, e: Execution) {
    && e.starts != []
    && var last := |e.starts| - 1;
       match w.calls(last).outcome
       case Ok => e.ending == Returned
       case Fatal => e.ending == Raised
       case Retriable => e.ending == Exhausted
                         && (|e.starts| == p.maxAttempts || !TimeLeft(p, w, EndOf(w, e.starts, last)))
  }

  /** The outcomes of the first n calls. */
  function Outcomes(w: World, n: nat): (r: seq<Outcome>)
    ensures |r| == n && forall i :: 0 <= i < n ==> r[i] == w.calls(i).outcome
  {
    if n == 0 then [] else Outcomes(w, n - 1) + [w.calls(n - 1).outcome]
  }

  /** The delay scheduled before the last of n retries. */
  function Previous(p: Policy, w: World, n: nat): Option<real> {
    if n == 0 then None else Some(Delays(p, w.draws, n)[n - 1])
  }

  /** Without a deadline the sleeps are the scheduled delays, and exhaustion means that every attempt was used. */
  lemma SleepsAreTheSchedule(p: Policy, w: World, e: Execution)
    requires Unfolds(p, w, e) && Ends(p, w, e) && p.totalTimeout.None?
    ensures e.sleeps == Delays(p, w.draws, |e.sleeps|)
    ensures e.ending == Exhausted ==> |e.starts| == p.maxAttempts
  {
    forall i | 0 <= i < |e.sleeps| ensures e.sleeps[i] == Delays(p, w.draws, |e.sleeps|)[i] {
      DelaysPrefix(p, w.draws, i + 1, |e.sleeps|);
      assert Delays(p, w.draws, |e.sleeps|)[i] == Delays(p, w.draws, |e.sleeps|)[..i + 1][i];
    }
  }

  /** Without a deadline an execution sleeps as its strategy promises. */
  lemma SleepsAreScheduled(p: Policy, w: World, e: Execution)
    requires p.Valid() && Drawn(w.draws) && Unfolds(p, w, e) && Ends(p, w, e) && p.totalTimeout.None?
    ensures Schedule(p, w.draws, e.sleeps)
  {
    hide Schedule, Unfolds, Ends;
    SleepsAreTheSchedule(p, w, e);
    DelaysAreScheduled(p, w.draws, |e.sleeps|);
  }

  /** With a deadline, an execution sleeps for the scheduled delay or for what is left, whichever is less, and is
      given up early exactly if its last call ended at or after the deadline. */
  lemma DeadlineMeaning(p: Policy, w: World, e: Execution)
    requires Unfolds(p, w, e) && Ends(p, w, e) && p.totalTimeout.Some?
    ensures var deadline := w.begin + p.totalTimeout.value;
      && (forall i :: 0 <= i < |e.sleeps| ==>
            var left, delay := deadline - (e.starts[i] + w.calls(i).duration), Delays(p, w.draws, |e.sleeps|)[i];
            left > 0.0 && e.sleeps[i] == if delay <= left then delay else left)
      && (e.ending == Exhausted && |e.starts| < p.maxAttempts ==>
            e.starts[|e.starts| - 1] + w.calls(|e.starts| - 1).duration >= deadline)
  {
    forall i | 0 <= i < |e.sleeps| ensures Delays(p, w.draws, i + 1)[i] == Delays(p, w.draws, |e.sleeps|)[i] {
      DelaysPrefix(p, w.draws, i + 1, |e.sleeps|);
      assert Delays(p, w.draws, |e.sleeps|)[i] == Delays(p, w.draws, |e.sleeps|)[..i + 1][i];
    }
    hide Delays;
  }

  /** With or without a deadline, each sleep is the scheduled delay cut to the time left, hence in [0, max_delay]. */
  lemma SleepRange(p: Policy, w: World, e: Execution, i: nat)
    requires p.Valid() && Unfolds(p, w, e) && i < |e.sleeps|
    ensures 0.0 <= e.sleeps[i] <= Delays(p, w.draws, |e.sleeps|)[i] <= p.maxDelay
  {
    DelaysRange(p, w.draws, i + 1, i);
    DelaysPrefix(p, w.draws, i + 1, |e.sleeps|);
    assert Delays(p, w.draws, |e.sleeps|)[i] == Delays(p, w.draws, |e.sleeps|)[..i + 1][i];
  }

  /** Only the last call can start at or after the deadline, however long the sleeps really are. */
  lemma OneLateCall(p: Policy, w: World, e: Execution, i: nat)
    requires w.Valid() && Unfolds(p, w, e) && Deadline(p, w).Some?
    requires i < |e.starts| && e.starts[i] >= Deadline(p, w).value
    ensures i == |e.starts| - 1
  {
    assert i < |e.sleeps| ==> TimeLeft(p, w, EndOf(w, e.starts, i)) && w.calls(i).duration >= 0.0;
  }

  ghost predicate ExactSleeper(w: World) {
    forall k, d :: w.naps(k, d) == d
  }

  /** With an exact sleeper the time asleep is part of the time elapsed. */
  lemma {:induction false} SleptSoFar(p: Policy, w: World, e: Execution, k: nat)
    requires p.Valid() && w.Valid() && ExactSleeper(w) && Unfolds(p, w, e) && k <= |e.sleeps|
    ensures Sum(e.sleeps[..k]) <= e.starts[k] - w.begin
    ensures k > 0 && Deadline(p, w).Some? ==> e.starts[k] <= Deadline(p, w).value
  {
    if k > 0 {
      SleptSoFar(p, w, e, k - 1);
      SleepRange(p, w, e, k - 1);
      assert e.sleeps[..k][..k - 1] == e.sleeps[..k - 1];
      assert e.starts[k - 1 + 1] == EndOf(w, e.starts, k - 1)
             + (if e.sleeps[k - 1] > 0.0 then w.naps(k - 1, e.sleeps[k - 1]) else 0.0);
      assert w.calls(k - 1).duration >= 0.0;
    }
  }

  /** With an exact sleeper all sleeps together fit into the total timeout. */
  lemma SleepsFitTimeout(p: Policy, w: World, e: Execution)
    requires p.Valid() && w.Valid() && ExactSleeper(w) && Unfolds(p, w, e) && p.totalTimeout.Some?
    ensures Sum(e.sleeps) <= Max0(p.totalTimeout.value)
  {
    SleptSoFar(p, w, e, |e.sleeps|);
    assert e.sleeps[..|e.sleeps|] == e.sleeps;
  }

  /** An execution without a deadline that fails retriably to the end sleeps for the whole computed schedule. */
  lemma EngineFollowsSchedule(p: Policy, w: World, e: Execution)
    requires p.Valid() && Unfolds(p, w, e) && Ends(p, w, e) && p.totalTimeout.None? && e.ending == Exhausted
    ensures e.sleeps == Delays(p, w.draws, Max(0, p.maxAttempts - 1))
  {
    SleepsAreTheSchedule(p, w, e);
  }

  class RetryEngine {
    const policy: Policy
    var history: seq<Outcome>

    constructor (policy: Policy)
      ensures this.policy == policy && history == []
    {
      this.policy := policy;
      history := [];
    }

    /** The delay before the next attempt, or None when the deadline has passed. */
    method NextSleep(w: World, attempt: nat, drawn: nat, previous: Option<real>, now: real)
      returns (sleep: Option<real>, drawn': nat, previous': Option<real>)
      requires attempt >= 1 && (policy.Draws() ==> drawn == attempt - 1)
      requires previous == Previous(policy, w, attempt - 1)
      ensures policy.Draws() ==> drawn' == attempt
      ensures previous' == Previous(policy, w, attempt)
      ensures sleep == if TimeLeft(policy, w, now) then Some(CutDelay(policy, w, attempt - 1, now)) else None
    {
      hide Backoff;
      var delay := Backoff(policy, attempt, w.draws(drawn), previous);
      SameDraw(policy, attempt, w.draws(drawn), w.draws(attempt - 1), previous);
      drawn' := if policy.Draws() then drawn + 1 else drawn;
      previous' := Some(delay);
      var deadline := Deadline(policy, w);
      if deadline.Some? {
        var remaining := deadline.value - now;
        if remaining <= 0.0 {
          return None, drawn', previous';
        }
        delay := Min(delay, remaining);
      }
      return Some(delay), drawn', previous';
    }

    method Execute(w: World) returns (e: Execution)
      requires policy.Valid()
      modifies this
      ensures Unfolds(policy, w, e) && Ends(policy, w, e)
      ensures history == Outcomes(w, |e.starts|)
      ensures forall i :: 0 <= i < |history| ==> history[i] == w.calls(i).outcome
    {
      hide Backoff, Unfolds, CutDelay, TimeLeft, Delays, Outcomes, Previous, Ends, EndOf;
      StartsUnfolding(policy, w);
      var now := w.begin;
      var previous: Option<real> := None;
      var drawn := 0;
      var starts: seq<real>, sleeps: seq<real> := [], [];
      var attempt := 0;
      history := [];
      assert starts + [now] == [w.begin];
      while attempt < policy.maxAttempts
        invariant 0 <= attempt < policy.maxAttempts && |starts| == |sleeps| == attempt
        invariant history == Outcomes(w, attempt)
        invariant previous == Previous(policy, w, attempt)
        invariant policy.Draws() ==> drawn == attempt
        invariant Unfolds(policy, w, Execution(starts + [now], sleeps, Exhausted))
      {
        var call := w.calls(attempt);
        starts := starts + [now];
        history := history + [call.outcome];
        now := now + call.duration;
        attempt := attempt + 1;
        LastCall(policy, w, starts, sleeps);
        if call.outcome != Retriable {
          e := Execution(starts, sleeps, if call.outcome.Ok? then Returned else Raised);
          SameUnfolding(policy, w, starts, sleeps, e.ending);
          return;
        }
        if attempt >= policy.maxAttempts {
          break;
        }
        var sleep;
        sleep, drawn, previous := NextSleep(w, attempt, drawn, previous, now);
        if sleep.None? {
          break;
        }
        ghost var sofar := Execution(starts, sleeps, Exhausted);
        sleeps := sleeps + [sleep.value];
        if sleep.value > 0.0 {
          now := now + w.naps(attempt - 1, sleep.value);
        }
        UnfoldsFurther(policy, w, sofar, sleep.value, now);
      }
      return Execution(starts, sleeps, Exhausted);
    }
  }

  /** The end of the last call decides whether and how an execution ends there. */
  lemma LastCall(p: Policy, w: World, starts: seq<real>, sleeps: seq<real>)
    requires starts != []
    ensures var last := |starts| - 1;
      && Outcomes(w, last + 1) == Outcomes(w, last) + [w.calls(last).outcome]
      && EndOf(w, starts, last) == starts[last] + w.calls(last).duration
      && (w.calls(last).outcome.Ok? ==> Ends(p, w, Execution(starts, sleeps, Returned)))
      && (w.calls(last).outcome.Fatal? ==> Ends(p, w, Execution(starts, sleeps, Raised)))
      && (w.calls(last).outcome.Retriable? && (|starts| == p.maxAttempts || !TimeLeft(p, w, EndOf(w, starts, last))) ==>
            Ends(p, w, Execution(starts, sleeps, Exhausted)))
  {
  }

  lemma StartsUnfolding(p: Policy, w: World)
    requires p.Valid()
    ensures Unfolds(p, w, Execution([w.begin], [], Exhausted))
    ensures Previous(p, w, 0) == None && Outcomes(w, 0) == []
  {
  }

  lemma SameUnfolding(p: Policy, w: World, starts: seq<real>, sleeps: seq<real>, ending: Ending)
    requires Unfolds(p, w, Execution(starts, sleeps, Exhausted))
    ensures Unfolds(p, w, Execution(starts, sleeps, ending))
  {
  }

  lemma UnfoldsFurther(p: Policy, w: World, e: Execution, delay: real, next: real)
    requires Unfolds(p, w, e) && 1 <= |e.starts| < p.maxAttempts
    requires var last := |e.starts| - 1;
             && w.calls(last).outcome == Retriable && TimeLeft(p, w, EndOf(w, e.starts, last))
             && delay == CutDelay(p, w, last, EndOf(w, e.starts, last))
             && next == EndOf(w, e.starts, last) + (if delay > 0.0 then w.naps(last, delay) else 0.0)
    ensures Unfolds(p, w, Execution(e.starts + [next], e.sleeps + [delay], Exhausted))
  {
    var f := Execution(e.starts + [next], e.sleeps + [delay], Exhausted);
    forall i | 0 <= i < |f.sleeps| ensures EndOf(w, f.starts, i) == EndOf(w, e.starts, i) {
    }
  }
}
