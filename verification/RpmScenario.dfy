/** Runs of swarm/resilience/rate_limiter_v2.py:155-207 whose clock readings cross: how many calls get through. */
module RpmScenario {
  import opened Prelude
  import opened RateLimiting
  import opened RateLimiterRuns

  /** The reading t, n times. */
  function Rep(t: real, n: nat): seq<real> {
    if n == 0 then [] else Rep(t, n - 1) + [t]
  }

  /** n calls a minute for m, and room for all of them in the day. */
  function Limited(m: Model, n: nat): Limits {
    Limits(Config(map[m := 2 * n], map[m := n], 30), map[], None, map[], map[], {}, 0)
  }

  /** After es: which calls got through, what the deque holds, and nothing in flight. */
  ghost predicate Stands(es: seq<Event>, m: Model, n: nat, grants: seq<real>, window: seq<real>) {
    var s := After(Limited(m, n), es);
    && Grants(Limited(m, n), es, m) == grants && s.Window(m) == window && s.config == Limited(m, n).config
    && s.UsedOn(m, 0) == |grants| && s.InFlight(m) == 0
  }

  /** Readings lag by at most skew, and none is later than top. */
  ghost predicate Lags(es: seq<Event>, skew: real, top: real) {
    Skewed(es, skew) && forall i :: 0 <= i < |es| ==> es[i].now <= top
  }

  lemma LagsMore(es: seq<Event>, e: Event, skew: real, top: real)
    requires Lags(es, skew, top) && top - skew <= e.now && !e.call.Reset?
    ensures Lags(es + [e], skew, if e.now < top then top else e.now)
  {
    var more := es + [e];
    forall i | 0 <= i < |es| ensures more[i] == es[i] {
    }
  }

  lemma Unfold(s0: Limits, es: seq<Event>, e: Event, m: Model)
    ensures After(s0, es + [e]) == Step(After(s0, es), e)
    ensures Grants(s0, es + [e], m) ==
      if GrantedNow(After(s0, es), e, m) then Grants(s0, es, m) + [e.now] else Grants(s0, es, m)
  {
    hide Step, GrantedNow;
    assert Front(es + [e]) == es && Last(es + [e]) == e;
  }

  lemma DayZero(t: real)
    requires 0.0 <= t <= 60.0
    ensures UtcDay(t) == 0
  {
  }

  /** One call at t that finds room: it gets a slot and gives it back. */
  lemma OneCall(es: seq<Event>, m: Model, n: nat, t: real, grants: seq<real>, window: seq<real>)
    requires Stands(es, m, n, grants, window) && 0.0 <= t <= 60.0
    requires |grants| < 2 * n && |Prune(window, t)| < n
    ensures Stands(es + [Event(Acquire(m, 10), t)] + [Event(Release(m), t)], m, n, grants + [t], Prune(window, t) + [t])
  {
    hide After, Grants, Prune, UtcDay, NearLimit;
    DayZero(t);
    var s0, take, give := Limited(m, n), Event(Acquire(m, 10), t), Event(Release(m), t);
    Unfold(s0, es, take, m);
    Unfold(s0, es + [take], give, m);
  }

  lemma PruneKeeps(window: seq<real>, t: real)
    requires window == [] || t - window[0] < 60.0
    ensures Prune(window, t) == window
  {
  }

  lemma {:induction false} RepFacts(t: real, n: nat)
    ensures |Rep(t, n)| == n && forall i :: 0 <= i < n ==> Rep(t, n)[i] == t
  {
    if n > 0 {
      RepFacts(t, n - 1);
    }
  }

  lemma {:induction false} PruneAll(window: seq<real>, t: real)
    requires forall i :: 0 <= i < |window| ==> t - window[i] >= 60.0
    ensures Prune(window, t) == []
  {
    if window != [] {
      PruneAll(window[1..], t);
    }
  }

  /** j calls at t, none of which finds an old reading at the front of the deque. */
  lemma {:induction false} Burst(
    es: seq<Event>, m: Model, n: nat, t: real, grants: seq<real>, window: seq<real>, j: nat, skew: real, top: real)
    returns (more: seq<Event>)
    requires Stands(es, m, n, grants, window) && 0.0 <= t <= 60.0 && Lags(es, skew, top) && top - skew <= t <= top
    requires window == [] || t - window[0] < 60.0
    requires |grants| + j <= 2 * n && |window| + j <= n
    ensures Stands(more, m, n, grants + Rep(t, j), window + Rep(t, j)) && Lags(more, skew, top)
  {
    hide Stands, Lags, Prune;
    if j == 0 {
      more := es;
      assert grants + Rep(t, 0) == grants && window + Rep(t, 0) == window;
    } else {
      var before := Burst(es, m, n, t, grants, window, j - 1, skew, top);
      RepFacts(t, j - 1);
      PruneKeeps(window + Rep(t, j - 1), t);
      OneCall(before, m, n, t, grants + Rep(t, j - 1), window + Rep(t, j - 1));
      more := before + [Event(Acquire(m, 10), t)] + [Event(Release(m), t)];
      LagsMore(before, Event(Acquire(m, 10), t), skew, top);
      LagsMore(before + [Event(Acquire(m, 10), t)], Event(Release(m), t), skew, top);
      assert grants + Rep(t, j) == grants + Rep(t, j - 1) + [t];
      assert window + Rep(t, j) == window + Rep(t, j - 1) + [t];
    }
  }

  lemma Begin(m: Model, n: nat, skew: real)
    ensures Stands([], m, n, [], []) && Lags([], skew, 0.0) && Fresh(Limited(m, n)) && Limited(m, n).Rpm(m) == n
  {
  }

  /** n calls at 0, one that read 60 and finds them old, and n - 1 behind it that read up to skew less. */
  function Crossed(n: nat, skew: real): seq<real>
    requires n > 0
  {
    Rep(0.0, n) + [60.0] + Rep(60.0 - skew, n - 1)
  }

  /** With limit n, readings that lag by skew let 2n - 1 calls through, all but one of them within 60 - skew seconds
      of the first. */
  lemma Crossing(m: Model, n: nat, skew: real) returns (es: seq<Event>)
    requires n > 0 && 0.0 <= skew <= 60.0
    ensures Fresh(Limited(m, n)) && Limited(m, n).Rpm(m) == n && Skewed(es, skew)
    ensures Grants(Limited(m, n), es, m) == Crossed(n, skew)
  {
    hide After, Grants, Prune, Skewed, Step;
    Begin(m, n, skew);
    var first := Burst([], m, n, 0.0, [], [], n, skew, 0.0);
    RepFacts(0.0, n);
    assert [] + Rep(0.0, n) == Rep(0.0, n);
    PruneAll(Rep(0.0, n), 60.0);
    OneCall(first, m, n, 60.0, Rep(0.0, n), Rep(0.0, n));
    var take, give := Event(Acquire(m, 10), 60.0), Event(Release(m), 60.0);
    LagsMore(first, take, skew, 0.0);
    LagsMore(first + [take], give, skew, 60.0);
    assert [] + [60.0] == [60.0];
    es := Burst(first + [take] + [give], m, n, 60.0 - skew, Rep(0.0, n) + [60.0], [60.0], n - 1, skew, 60.0);
  }

  lemma {:induction false} CountJoin(a: seq<real>, b: seq<real>, from: real, to: real)
    ensures CountWithin(a + b, from, to) == CountWithin(a, from, to) + CountWithin(b, from, to)
  {
    if b == [] {
      assert a + b == a;
    } else {
      CountJoin(a, b[..|b| - 1], from, to);
      assert (a + b)[..|a + b| - 1] == a + b[..|b| - 1];
    }
  }

  lemma {:induction false} CountRep(t: real, n: nat, from: real, to: real)
    ensures CountWithin(Rep(t, n), from, to) == if from <= t < to then n else 0
  {
    if n > 0 {
      CountRep(t, n - 1, from, to);
      CountWithinAppend(Rep(t, n - 1), t, from, to);
    }
  }

  lemma CountCrossed(n: nat, skew: real, span: real)
    requires n > 0 && skew >= 0.0 && 60.0 - skew < span && 0.0 < span && skew <= 60.0
    ensures CountWithin(Crossed(n, skew), 0.0, span) == if span <= 60.0 then 2 * n - 1 else 2 * n
  {
    hide CountWithin;
    CountJoin(Rep(0.0, n) + [60.0], Rep(60.0 - skew, n - 1), 0.0, span);
    CountWithinAppend(Rep(0.0, n), 60.0, 0.0, span);
    CountRep(0.0, n, 0.0, span);
    CountRep(60.0 - skew, n - 1, 0.0, span);
  }

  // ---- the exact bound ---------------------------------------------------------------------------------

  ghost predicate Within(s0: Limits, es: seq<Event>, m: Model, from: real, span: real) {
    CountWithin(Grants(s0, es, m), from, from + span) <= Max(0, s0.Rpm(m))
  }

  /** The per-minute limit holds over spans of that length, in every run whose readings lag by at most skew. */
  ghost predicate Bounds(span: real, skew: real) {
    forall s0, es, m, from :: Fresh(s0) && Skewed(es, skew) ==> Within(s0, es, m, from, span)
  }

  lemma {:induction false} CountLess(grants: seq<real>, from: real, to: real, wider: real)
    requires to <= wider
    ensures CountWithin(grants, from, to) <= CountWithin(grants, from, wider)
    ensures to <= from ==> CountWithin(grants, from, to) == 0
  {
    if grants != [] {
      CountLess(grants[..|grants| - 1], from, to, wider);
    }
  }

  /** The bound over spans is exact: it holds for all runs with that lag exactly if the span is at most 60 - skew
      seconds. */
  lemma RpmBoundIsExact(span: real, skew: real, m: Model)
    requires skew >= 0.0
    ensures Bounds(span, skew) <==> span <= if skew <= 60.0 then 60.0 - skew else 0.0
  {
    hide Grants, CountWithin, Fresh;
    if span <= if skew <= 60.0 then 60.0 - skew else 0.0 {
      forall s0, es, m, from | Fresh(s0) && Skewed(es, skew) ensures Within(s0, es, m, from, span) {
        CountLess(Grants(s0, es, m), from, from + span,
                  if skew <= 60.0 then from + 60.0 - skew else from + span);
        RpmBoundWithSkew(s0, es, m, from, skew);
      }
    } else {
      var lag := if skew <= 60.0 then skew else 60.0;
      var es := Crossing(m, 2, lag);
      CountCrossed(2, lag, span);
      LagMore(es, lag, skew);
      assert !Within(Limited(m, 2), es, m, 0.0, span);
    }
  }

  lemma LagMore(es: seq<Event>, lag: real, skew: real)
    requires Skewed(es, lag) && lag <= skew
    ensures Skewed(es, skew)
  {
  }
}
