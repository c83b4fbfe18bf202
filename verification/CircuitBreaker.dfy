/** swarm/enterprise/core/circuit_breaker.py: per-model circuits driven by the rate limiter's daily counter. */
module CircuitBreaking {
  import opened Prelude
  import opened RateLimiting

  datatype Circuit = Closed | Open | HalfOpen

  datatype Request = Request(role: string, prompt: string)

  datatype Queued = Queued(since: real, request: Request)

  datatype Breaker = Breaker(
    state: map<Model, Circuit>, probes: map<Model, int>, lastSeenDay: int, queues: map<Model, seq<Queued>>)
  {
    function CircuitOf(m: Model): Circuit { Get(state, m, Closed) }
    function ProbesUsed(m: Model): int { Get(probes, m, 0) }
    function Queue(m: Model): seq<Queued> { Get(queues, m, []) }
  }

  const TRIGGER_THRESHOLD := 0.80
  const QUEUE_MAX := 100
  const QUEUE_TTL_SEC := 3600.0
  const HALF_OPEN_PROBES := 3

  function Pct(used: int, limit: int): real {
    if limit > 0 then used as real / limit as real else 0.0
  }

  predicate Exhausted(used: int, limit: int) {
    limit > 0 && used >= limit
  }

  lemma PctMeaning(used: int, limit: int)
    ensures Pct(used, limit) >= 1.0 <==> Exhausted(used, limit)
    ensures Pct(used, limit) < TRIGGER_THRESHOLD <==> limit <= 0 || 10 * used < 8 * limit
  {
    if limit > 0 {
      assert Pct(used, limit) * limit as real == used as real;
    }
  }

  function AllClosed(state: map<Model, Circuit>): map<Model, Circuit> {
    map m | m in state :: Closed
  }

  function Rollover(b: Breaker, today: int): Breaker {
    if b.lastSeenDay == today then b else Breaker(AllClosed(b.state), map[], today, b.queues)
  }

  /** `check_and_update`, given what the limiter reports. */
  function Evaluated(b: Breaker, m: Model, used: int, limit: int, today: int): Breaker {
    var r := Rollover(b, today);
    if Pct(used, limit) >= 1.0 then r.(state := r.state[m := Open])
    else if r.CircuitOf(m) == Open then r.(state := r.state[m := HalfOpen])
    else if r.CircuitOf(m) == HalfOpen && Pct(used, limit) < TRIGGER_THRESHOLD then
      r.(state := r.state[m := Closed], probes := r.probes[m := 0])
    else r
  }

  predicate ProbeAllowed(b: Breaker, m: Model) {
    b.ProbesUsed(m) < HALF_OPEN_PROBES
  }

  /** The second locked region of `allow_request`, reached in HALF_OPEN. */
  function Probed(b: Breaker, m: Model): Breaker {
    if ProbeAllowed(b, m) then b.(probes := b.probes[m := b.ProbesUsed(m) + 1]) else b
  }

  function ResetDailyOf(b: Breaker): Breaker {
    b.(state := AllClosed(b.state),
       probes := map m | m in b.probes.Keys + b.state.Keys :: if m in b.state then 0 else b.probes[m],
       queues := map[])
  }

  predicate HasRoom(b: Breaker, m: Model) {
    |b.Queue(m)| < QUEUE_MAX
  }

  function Enqueued(b: Breaker, m: Model, r: Request, now: real): Breaker {
    if HasRoom(b, m) then b.(queues := b.queues[m := b.Queue(m) + [Queued(now, r)]]) else b
  }

  function DropStale(q: seq<Queued>, now: real): seq<Queued> {
    if q != [] && now - q[0].since > QUEUE_TTL_SEC then DropStale(q[1..], now) else q
  }

  /** What one `dequeue` returns, and what it leaves. */
  function Dequeued(q: seq<Queued>, now: real): (Option<Request>, seq<Queued>) {
    var live := DropStale(q, now);
    if live == [] then (None, []) else (Some(live[0].request), live[1..])
  }

  /** The requests a `drain` returns. */
  function Live(q: seq<Queued>, now: real): seq<Request> {
    if q == [] then []
    else if now - q[0].since > QUEUE_TTL_SEC then Live(q[1..], now)
    else [q[0].request] + Live(q[1..], now)
  }

  /** Dequeuing until nothing is left. */
  function DequeueAll(q: seq<Queued>, now: real): seq<Request>
    decreases |q|
  {
    DropStaleShortens(q, now);
    var (r, rest) := Dequeued(q, now);
    if r.None? then [] else [r.value] + DequeueAll(rest, now)
  }

  lemma {:induction false} DropStaleShortens(q: seq<Queued>, now: real)
    ensures |DropStale(q, now)| <= |q|
  {
    if q != [] && now - q[0].since > QUEUE_TTL_SEC {
      DropStaleShortens(q[1..], now);
    }
  }

  /** One drain returns what dequeuing one by one at the same moment would. */
  lemma {:induction false} DrainIsRepeatedDequeue(q: seq<Queued>, now: real)
    ensures Live(q, now) == DequeueAll(q, now)
  {
    if q != [] {
      DrainIsRepeatedDequeue(q[1..], now);
      if now - q[0].since > QUEUE_TTL_SEC {
        assert Dequeued(q, now) == Dequeued(q[1..], now);
      }
    }
  }

  /** A `dequeue` skips the requests that have waited for more than an hour and hands out the first other one; what was
      behind it stays. */
  lemma {:induction false} DequeueMeaning(q: seq<Queued>, now: real) returns (n: nat)
    ensures n <= |q| && forall i :: 0 <= i < n ==> now - q[i].since > 3600.0
    ensures n < |q| ==> now - q[n].since <= 3600.0
    ensures Dequeued(q, now) == if n == |q| then (None, []) else (Some(q[n].request), q[n + 1..])
  {
    n := 0;
    if q != [] && now - q[0].since > 3600.0 {
      n := DequeueMeaning(q[1..], now);
      n := n + 1;
    }
  }

  /** A `drain` hands out, in order, the requests that have waited for at most an hour. */
  lemma {:induction false} DrainMeaning(q: seq<Queued>, x: Queued, now: real)
    ensures Live([], now) == []
    ensures Live(q + [x], now) == Live(q, now) + if now - x.since <= 3600.0 then [x.request] else []
  {
    if q != [] {
      DrainMeaning(q[1..], x, now);
      assert (q + [x])[1..] == q[1..] + [x];
    }
  }

  /** What a check does to a HALF_OPEN circuit on its own day: OPEN again if the quota is spent, CLOSED with a cleared
      probe counter below four fifths of it, and otherwise as before. */
  lemma HalfOpenExit(b: Breaker, m: Model, used: int, limit: int, k: Model)
    requires b.CircuitOf(m) == HalfOpen
    ensures k != m ==> Evaluated(b, m, used, limit, b.lastSeenDay).CircuitOf(k) == b.CircuitOf(k)
    ensures var after := Evaluated(b, m, used, limit, b.lastSeenDay);
      && (after.CircuitOf(m) == Open <==> limit > 0 && used >= limit)
      && (after.CircuitOf(m) == Closed <==> limit <= 0 || 10 * used < 8 * limit)
      && after.ProbesUsed(m) == (if after.CircuitOf(m) == Closed then 0 else b.ProbesUsed(m))
  {
    PctMeaning(used, limit);
    hide Pct;
  }

  /** The first check of a day closes all circuits and clears all probe counters, then opens the circuit it asks
      about if that quota is spent; the queues stay. */
  lemma NewDay(b: Breaker, m: Model, used: int, limit: int, today: int, k: Model)
    requires b.lastSeenDay != today
    ensures var after := Evaluated(b, m, used, limit, today);
      && after.CircuitOf(k) == (if k == m && limit > 0 && used >= limit then Open else Closed)
      && after.ProbesUsed(k) == 0 && after.lastSeenDay == today && after.queues == b.queues
  {
    PctMeaning(used, limit);
    hide Pct;
  }

  /** `reset_daily` closes all circuits and empties all queues; it clears the probes of the models that had a
      circuit. */
  lemma ResetDailyMeaning(b: Breaker, m: Model)
    ensures var after := ResetDailyOf(b);
      && after.CircuitOf(m) == Closed && after.Queue(m) == [] && after.lastSeenDay == b.lastSeenDay
      && after.ProbesUsed(m) == if m in b.state then 0 else b.ProbesUsed(m)
  {
  }

  class CircuitBreaker {
    const rl: RateLimiterV2
    var state: map<Model, Circuit>
    var halfOpenProbesUsed: map<Model, int>
    var lastSeenDay: int
    var queues: map<Model, seq<Queued>>

    function State(): Breaker
      reads this
    {
      Breaker(state, halfOpenProbesUsed, lastSeenDay, queues)
    }

    constructor (rl: RateLimiterV2, now: real)
      ensures this.rl == rl && State() == Breaker(map[], map[], UtcDay(now), map[])
    {
      this.rl := rl;
      state, halfOpenProbesUsed, lastSeenDay, queues := map[], map[], UtcDay(now), map[];
    }

    method CheckAndUpdate(m: Model, now: real) returns (c: Circuit)
      modifies this`state, this`halfOpenProbesUsed, this`lastSeenDay, rl
      ensures rl.State() == CheckReset(old(rl.State()), UtcDay(now))
      ensures State() == Evaluated(old(State()), m, rl.State().Used(m), rl.config.Limit(m), UtcDay(now))
      ensures c == State().CircuitOf(m)
    {
      if lastSeenDay != UtcDay(now) {
        lastSeenDay := UtcDay(now);
        halfOpenProbesUsed := map[];
        state := AllClosed(state);
      }
      assert State() == Rollover(old(State()), UtcDay(now));
      var used := rl.GetUsed(m, now);
      var pct := Pct(used, rl.config.Limit(m));
      var current := Get(state, m, Closed);
      if pct >= 1.0 {
        state := state[m := Open];
      } else if current == Open {
        state := state[m := HalfOpen];
      } else if current == HalfOpen && pct < TRIGGER_THRESHOLD {
        state := state[m := Closed];
        halfOpenProbesUsed := halfOpenProbesUsed[m := 0];
      }
      return Get(state, m, Closed);
    }

    method AllowRequest(m: Model, now: real) returns (ok: bool)
      modifies this`state, this`halfOpenProbesUsed, this`lastSeenDay, rl
      ensures rl.State() == CheckReset(old(rl.State()), UtcDay(now))
      ensures var b := Evaluated(old(State()), m, rl.State().Used(m), rl.config.Limit(m), UtcDay(now));
              && State() == (if b.CircuitOf(m) == HalfOpen then Probed(b, m) else b)
              && (ok <==> b.CircuitOf(m) == Closed || (b.CircuitOf(m) == HalfOpen && ProbeAllowed(b, m)))
    {
      var c := CheckAndUpdate(m, now);
      if c == Closed {
        return true;
      }
      if c == HalfOpen {
        if Get(halfOpenProbesUsed, m, 0) < HALF_OPEN_PROBES {
          halfOpenProbesUsed := halfOpenProbesUsed[m := Get(halfOpenProbesUsed, m, 0) + 1];
          return true;
        }
        return false;
      }
      return false;
    }

    method Enqueue(m: Model, r: Request, now: real) returns (ok: bool)
      modifies this`queues
      ensures State() == Enqueued(old(State()), m, r, now)
      ensures ok <==> HasRoom(old(State()), m)
    {
      var q := Get(queues, m, []);
      if |q| >= QUEUE_MAX {
        return false;
      }
      queues := queues[m := q + [Queued(now, r)]];
      return true;
    }

    method Dequeue(m: Model, now: real) returns (r: Option<Request>)
      modifies this`queues
      ensures (r, State().Queue(m)) == Dequeued(old(State()).Queue(m), now)
      ensures queues == old(queues)[m := State().Queue(m)]
    {
      var q := Get(queues, m, []);
      while q != [] && now - q[0].since > QUEUE_TTL_SEC
        invariant DropStale(q, now) == DropStale(old(State()).Queue(m), now)
        decreases |q|
      {
        q := q[1..];
      }
      if q == [] {
        queues := queues[m := []];
        return None;
      }
      queues := queues[m := q[1..]];
      return Some(q[0].request);
    }

    method Drain(m: Model, now: real) returns (out: seq<Request>)
      modifies this`queues
      ensures out == Live(old(State()).Queue(m), now)
      ensures queues == old(queues)[m := []]
    {
      out := [];
      var q := Get(queues, m, []);
      while q != []
        invariant out + Live(q, now) == Live(old(State()).Queue(m), now)
        decreases |q|
      {
        if now - q[0].since <= QUEUE_TTL_SEC {
          assert out + Live(q, now) == (out + [q[0].request]) + Live(q[1..], now);
          out := out + [q[0].request];
        }
        q := q[1..];
      }
      queues := queues[m := []];
    }

    method ResetDaily()
      modifies this`state, this`halfOpenProbesUsed, this`queues
      ensures State() == ResetDailyOf(old(State()))
    {
      halfOpenProbesUsed :=
        map m | m in halfOpenProbesUsed.Keys + state.Keys :: if m in state then 0 else halfOpenProbesUsed[m];
      state := AllClosed(state);
      queues := map[];
    }
  }
}
