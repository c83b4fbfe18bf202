/** swarm/resilience/rate_limiter.py: the token bucket. Tokens and times are reals. */
module TokenBuckets {
  import opened Prelude

  /** What `RateLimitConfig.__post_init__` accepts. */
  datatype Config = Config(capacity: real, refillRate: real) {
    predicate Valid() { capacity > 0.0 && refillRate > 0.0 }

    /** Tokens that flow in during dt seconds. */
    function Flow(dt: real): real { dt * refillRate }
  }

  datatype Bucket = Bucket(config: Config, tokens: real, lastRefill: real) {
    ghost predicate Valid() { config.Valid() && 0.0 <= tokens <= config.capacity }
  }

  datatype Attempt = Attempt(tokens: real, now: real)

  function Refilled(b: Bucket, now: real): Bucket {
    if now - b.lastRefill <= 0.0 then b
    else b.(tokens := Min(b.config.capacity, b.tokens + b.config.Flow(now - b.lastRefill)), lastRefill := now)
  }

  /** Whether `try_acquire` succeeds; a request above the capacity raises instead. */
  predicate Grants(b: Bucket, a: Attempt) {
    a.tokens <= b.config.capacity && Refilled(b, a.now).tokens >= a.tokens
  }

  function Tried(b: Bucket, a: Attempt): Bucket {
    if a.tokens > b.config.capacity then b
    else if Grants(b, a) then Refilled(b, a.now).(tokens := Refilled(b, a.now).tokens - a.tokens)
    else Refilled(b, a.now)
  }

  function Wait(b: Bucket, tokens: real, now: real): real
    requires b.config.Valid()
  {
    var r := Refilled(b, now);
    if r.tokens >= tokens then 0.0 else (tokens - r.tokens) / b.config.refillRate
  }

  // ---- single calls ------------------------------------------------------------------------------

  lemma FlowFacts(c: Config, x: real, y: real)
    requires c.Valid()
    ensures x <= y <==> c.Flow(x) <= c.Flow(y)
    ensures c.Flow(x + y) == c.Flow(x) + c.Flow(y)
    ensures c.Flow(0.0) == 0.0
  {
    FlowOrder(c, x, y);
    FlowOrder(c, y, x);
  }

  lemma FlowOrder(c: Config, x: real, y: real)
    requires c.Valid()
    ensures x < y ==> c.Flow(x) < c.Flow(y)
  {
    if x < y {
      assert (y - x) * c.refillRate > 0.0;
      assert (y - x) * c.refillRate == c.Flow(y) - c.Flow(x);
    }
  }

  /** A refill keeps the bounds and adds at most what has flowed in. */
  lemma RefillFacts(b: Bucket, now: real)
    requires b.Valid()
    ensures Refilled(b, now).Valid() && Refilled(b, now).tokens >= b.tokens
    ensures now >= b.lastRefill ==> Refilled(b, now).lastRefill == now
                                    && Refilled(b, now).tokens <= b.tokens + b.config.Flow(now - b.lastRefill)
  {
    hide Config.Flow;
    FlowFacts(b.config, 0.0, now - b.lastRefill);
  }

  lemma TryKeepsValid(b: Bucket, a: Attempt)
    requires b.Valid() && a.tokens >= 0.0
    ensures Tried(b, a).Valid()
  {
    RefillFacts(b, a.now);
  }

  /** A request keeps every bucket within 0 and its capacity exactly if it does not ask for a negative amount, which
      the code does not reject: a full bucket would overflow. */
  lemma BoundsNeedNonNegative(config: Config, tokens: real, now: real)
    requires config.Valid()
    ensures (forall b: Bucket :: b.Valid() && b.config == config ==> Tried(b, Attempt(tokens, now)).Valid())
            <==> tokens >= 0.0
  {
    if tokens >= 0.0 {
      forall b: Bucket | b.Valid() && b.config == config ensures Tried(b, Attempt(tokens, now)).Valid() {
        TryKeepsValid(b, Attempt(tokens, now));
      }
    } else {
      var full := Bucket(config, config.capacity, now);
      assert !Tried(full, Attempt(tokens, now)).Valid();
    }
  }

  /** `time_to_available` is exact: if nobody else acquires, an attempt after a delay succeeds exactly if the delay is
      at least the reported wait. */
  lemma WaitIsExact(b: Bucket, tokens: real, now: real, delay: real)
    requires b.Valid() && now >= b.lastRefill && tokens <= b.config.capacity && delay >= 0.0
    ensures Grants(Refilled(b, now), Attempt(tokens, now + delay)) <==> delay >= Wait(b, tokens, now)
    ensures Wait(b, tokens, now) >= 0.0
  {
    hide Config.Flow;
    RefillFacts(b, now);
    var r, w := Refilled(b, now), Wait(b, tokens, now);
    FlowFacts(b.config, 0.0, delay);
    FlowFacts(b.config, w, delay);
    FlowFacts(b.config, 0.0, w);
    if r.tokens < tokens {
      FlowOfWait(b, tokens, now);
      assert (now + delay) - r.lastRefill == delay;
    } else {
      RefillFacts(r, now + delay);
    }
  }

  lemma FlowOfWait(b: Bucket, tokens: real, now: real)
    requires b.config.Valid() && Refilled(b, now).tokens < tokens
    ensures b.config.Flow(Wait(b, tokens, now)) == tokens - Refilled(b, now).tokens
  {
    hide Refilled;
  }

  // ---- runs --------------------------------------------------------------------------------------

  function After(b: Bucket, run: seq<Attempt>): Bucket {
    if run == [] then b else Tried(After(b, run[..|run| - 1]), run[|run| - 1])
  }

  /** All the tokens granted in a run. */
  function Granted(b: Bucket, run: seq<Attempt>): real {
    if run == [] then 0.0
    else
      var front, last := run[..|run| - 1], run[|run| - 1];
      if Grants(After(b, front), last) then Granted(b, front) + last.tokens else Granted(b, front)
  }

  /** The clock is monotone and no request is negative. */
  ghost predicate Proper(b: Bucket, run: seq<Attempt>) {
    && (forall i :: 0 <= i < |run| ==> run[i].tokens >= 0.0 && run[i].now >= b.lastRefill)
    && (forall i, j :: 0 <= i <= j < |run| ==> run[i].now <= run[j].now)
  }

  lemma TryAccounts(b: Bucket, a: Attempt)
    requires b.Valid() && a.tokens >= 0.0 && a.now >= b.lastRefill
    ensures var t := Tried(b, a);
            && t.Valid() && t.config == b.config && b.lastRefill <= t.lastRefill <= a.now
            && (if a.tokens > b.config.capacity then t == b && !Grants(b, a) else t.lastRefill == a.now)
            && t.tokens + (if Grants(b, a) then a.tokens else 0.0)
               <= Min(b.config.capacity, b.tokens + b.config.Flow(t.lastRefill - b.lastRefill))
  {
    hide Config.Flow;
    TryKeepsValid(b, a);
    RefillFacts(b, a.now);
    FlowFacts(b.config, 0.0, 0.0);
  }

  /** In a run no attempt of which can raise the bucket above its bounds, the bounds hold throughout. Once an
      attempt was not rejected as too large, what was granted and what is left never exceed the capacity plus what
      has flowed in since the first attempt. */
  lemma {:induction false} RunAccounts(b: Bucket, run: seq<Attempt>)
    requires b.Valid() && Proper(b, run)
    ensures var t := After(b, run);
            && t.Valid() && t.config == b.config && b.lastRefill <= t.lastRefill
            && (run != [] ==> t.lastRefill <= run[|run| - 1].now)
            && (|| (t == b && Granted(b, run) == 0.0)
                || (run != [] && run[0].now <= t.lastRefill
                    && Granted(b, run) + t.tokens <= b.config.capacity + b.config.Flow(t.lastRefill - run[0].now)))
  {
    hide Config.Flow, Tried, Grants;
    if run != [] {
      var front, last := run[..|run| - 1], run[|run| - 1];
      RunAccounts(b, front);
      assert front != [] ==> run[|run| - 2].now <= last.now;
      var s := After(b, front);
      TryAccounts(s, last);
      var t, first := Tried(s, last), run[0].now;
      FlowFacts(b.config, s.lastRefill - first, t.lastRefill - s.lastRefill);
      assert (s.lastRefill - first) + (t.lastRefill - s.lastRefill) == t.lastRefill - first;
      FlowFacts(b.config, 0.0, t.lastRefill - first);
    }
  }

  lemma ProperParts(b: Bucket, before: seq<Attempt>, stretch: seq<Attempt>)
    requires b.Valid() && Proper(b, before + stretch)
    ensures Proper(b, before) && Proper(After(b, before), stretch)
  {
    var run := before + stretch;
    forall i, j | 0 <= i <= j < |before| ensures before[i].now <= before[j].now {
      assert run[i].now <= run[j].now;
    }
    assert forall i :: 0 <= i < |before| ==> before[i] == run[i];
    RunAccounts(b, before);
    forall i, j | 0 <= i <= j < |stretch| ensures stretch[i].now <= stretch[j].now {
      assert run[|before| + i].now <= run[|before| + j].now;
    }
    forall i | 0 <= i < |stretch| ensures stretch[i].tokens >= 0.0 && stretch[i].now >= After(b, before).lastRefill {
      assert stretch[i] == run[|before| + i];
      assert before != [] ==> run[|before| - 1].now <= run[|before| + i].now;
    }
  }

  /** Over any run, whatever came before, the tokens granted by a stretch of attempts made between t0 and t1 are at most
      capacity + refill_rate * (t1 - t0); and at all times 0 <= tokens <= capacity. */
  lemma BurstBound(b: Bucket, before: seq<Attempt>, stretch: seq<Attempt>, t0: real, t1: real)
    requires b.Valid() && Proper(b, before + stretch)
    requires t0 <= t1 && forall i :: 0 <= i < |stretch| ==> t0 <= stretch[i].now <= t1
    ensures After(b, before + stretch).Valid()
    ensures Granted(After(b, before), stretch) <= b.config.capacity + b.config.Flow(t1 - t0)
  {
    hide Config.Flow, After, Granted, Proper;
    RunAccounts(b, before + stretch);
    ProperParts(b, before, stretch);
    RunAccounts(b, before);
    StretchBound(After(b, before), stretch, t0, t1);
  }

  lemma StretchBound(s: Bucket, stretch: seq<Attempt>, t0: real, t1: real)
    requires s.Valid() && Proper(s, stretch) && t0 <= t1
    requires stretch != [] ==> t0 <= stretch[0].now && stretch[|stretch| - 1].now <= t1
    ensures Granted(s, stretch) <= s.config.capacity + s.config.Flow(t1 - t0)
  {
    hide Config.Flow, After, Granted, Proper;
    RunAccounts(s, stretch);
    FlowFacts(s.config, 0.0, t1 - t0);
    if stretch != [] {
      FlowFacts(s.config, After(s, stretch).lastRefill - stretch[0].now, t1 - t0);
    }
  }

  // ---- exact accounts ------------------------------------------------------------------------------------

  /** What flows over the brim when the attempt refills the bucket. */
  function Spill(b: Bucket, a: Attempt): real {
    var level := b.tokens + b.config.Flow(a.now - b.lastRefill);
    if a.tokens <= b.config.capacity < level then level - b.config.capacity else 0.0
  }

  function Spilled(b: Bucket, run: seq<Attempt>): real {
    if run == [] then 0.0
    else Spilled(b, run[..|run| - 1]) + Spill(After(b, run[..|run| - 1]), run[|run| - 1])
  }

  /** An attempt that fits the capacity refills the bucket; if that is enough it takes just what it asks for, otherwise
      nothing. One above the capacity leaves the bucket as it is. */
  lemma AttemptMeaning(b: Bucket, a: Attempt)
    requires b.Valid() && a.now >= b.lastRefill
    ensures var level := b.tokens + b.config.Flow(a.now - b.lastRefill);
      var full := if level <= b.config.capacity then level else b.config.capacity;
      && (Grants(b, a) <==> a.tokens <= b.config.capacity && a.tokens <= full)
      && Tried(b, a) ==
           if a.tokens > b.config.capacity then b
           else Bucket(b.config, if a.tokens <= full then full - a.tokens else full, a.now)
  {
    hide Config.Flow;
    FlowFacts(b.config, 0.0, 0.0);
  }

  lemma TrySpills(b: Bucket, a: Attempt)
    requires b.Valid() && a.tokens >= 0.0 && a.now >= b.lastRefill
    ensures var t := Tried(b, a);
      t.tokens + (if Grants(b, a) then a.tokens else 0.0) + Spill(b, a)
        == b.tokens + b.config.Flow(t.lastRefill - b.lastRefill)
    ensures Spill(b, a) >= 0.0
  {
    hide Config.Flow;
    AttemptMeaning(b, a);
    FlowFacts(b.config, 0.0, 0.0);
  }

  /** Nothing is lost and nothing made: in every run, what was granted, what is left and what flowed over the brim add
      up to what was there and what flowed in. */
  lemma {:induction false} RunConserves(b: Bucket, run: seq<Attempt>)
    requires b.Valid() && Proper(b, run)
    ensures var t := After(b, run);
      Granted(b, run) + t.tokens + Spilled(b, run) == b.tokens + b.config.Flow(t.lastRefill - b.lastRefill)
    ensures Spilled(b, run) >= 0.0
  {
    hide Config.Flow, Tried, Grants, Spill;
    if run == [] {
      FlowFacts(b.config, 0.0, 0.0);
    } else {
      var front, last := run[..|run| - 1], run[|run| - 1];
      RunConserves(b, front);
      RunAccounts(b, front);
      assert front != [] ==> run[|run| - 2].now <= last.now;
      var s := After(b, front);
      TrySpills(s, last);
      var t := Tried(s, last);
      FlowFacts(b.config, s.lastRefill - b.lastRefill, t.lastRefill - s.lastRefill);
      assert (s.lastRefill - b.lastRefill) + (t.lastRefill - s.lastRefill) == t.lastRefill - b.lastRefill;
    }
  }

  class TokenBucket {
    const config: Config
    var tokens: real
    var lastRefill: real
    var totalAcquired: nat
    var totalRejections: nat

    function State(): Bucket
      reads this
    {
      Bucket(config, tokens, lastRefill)
    }

    constructor (config: Config, now: real)
      requires config.Valid()
      ensures State() == Bucket(config, config.capacity, now) && State().Valid()
      ensures totalAcquired == totalRejections == 0
    {
      this.config := config;
      tokens, lastRefill := config.capacity, now;
      totalAcquired, totalRejections := 0, 0;
    }

    method Refill(now: real)
      modifies this`tokens, this`lastRefill
      ensures State() == Refilled(old(State()), now)
    {
      var elapsed := now - lastRefill;
      if elapsed <= 0.0 {
        return;
      }
      tokens := Min(config.capacity, tokens + config.Flow(elapsed));
      lastRefill := now;
    }

    /** None stands for the ValueError of a request above the capacity. */
    method TryAcquire(n: real, now: real) returns (ok: Option<bool>)
      modifies this
      ensures State() == Tried(old(State()), Attempt(n, now))
      ensures ok == if n > config.capacity then None else Some(Grants(old(State()), Attempt(n, now)))
      ensures totalAcquired == old(totalAcquired) + if ok == Some(true) then 1 else 0
      ensures totalRejections == old(totalRejections) + if ok == Some(false) then 1 else 0
    {
      if n > config.capacity {
        return None;
      }
      Refill(now);
      if tokens >= n {
        tokens := tokens - n;
        totalAcquired := totalAcquired + 1;
        return Some(true);
      }
      totalRejections := totalRejections + 1;
      return Some(false);
    }

    method TimeToAvailable(n: real, now: real) returns (wait: real)
      requires config.Valid()
      modifies this`tokens, this`lastRefill
      ensures State() == Refilled(old(State()), now)
      ensures wait == Wait(old(State()), n, now)
    {
      Refill(now);
      if tokens >= n {
        return 0.0;
      }
      return (n - tokens) / config.refillRate;
    }
  }
}
