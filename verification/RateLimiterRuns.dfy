/** Whole runs of the rate limiter, seen next to the full history of what it granted. */
module RateLimiterRuns {
  import opened Prelude
  import opened RateLimiting

  datatype Call =
    | Acquire(m: Model, slots: int)
    | Release(m: Model)
    | Penalty(m: Model)   // record_429
    | Query(m: Model)     // get_used
    | Reset(target: Option<Model>)

  datatype Event = Event(call: Call, now: real)

  function Step(s: Limits, e: Event): Limits {
    match e.call
    case Acquire(m, slots) => Acquired(s, m, slots, e.now)
    case Release(m) => Released(s, m)
    case Penalty(m) => Penalized(s, m)
    case Query(m) => CheckReset(s, UtcDay(e.now))
    case Reset(target) => if target.Some? && target.value != "" then ResetModel(s, target.value) else ResetAll(s)
  }

  /** What one step does to the deque of m. */
  lemma StepWindow(s: Limits, e: Event, m: Model)
    requires !e.call.Reset?
    ensures var w, p := s.Window(m), Prune(s.Window(m), e.now);
            if GrantedNow(s, e, m) then Step(s, e).Window(m) == p + [e.now]
            else Step(s, e).Window(m) == w || Step(s, e).Window(m) == p
  {
    match e.call
    case Acquire(k, slots) =>
    case Release(k) =>
    case Penalty(k) =>
    case Query(k) =>
  }

  /** What one step does to the daily counter of m. */
  lemma StepUsed(s: Limits, e: Event, m: Model)
    requires !e.call.Reset?
    ensures var today := UtcDay(e.now);
            && (GrantedNow(s, e, m) ==> Step(s, e).resetDay == Some(today)
                                        && s.UsedOn(m, today) < s.Limit(m)
                                        && Step(s, e).Used(m) == s.UsedOn(m, today) + 1)
            && (!GrantedNow(s, e, m) ==>
                  || (Step(s, e).resetDay == Some(today) && Step(s, e).Used(m) == s.UsedOn(m, today))
                  || (Step(s, e).resetDay == s.resetDay
                      && (Step(s, e).Used(m) == s.Used(m) || Step(s, e).Used(m) == s.Used(m) + 1)))
  {
    hide Prune, NearLimit;
    match e.call
    case Acquire(k, slots) =>
    case Release(k) =>
    case Penalty(k) =>
    case Query(k) =>
  }

  /** A limiter as its constructor leaves it. */
  ghost predicate Fresh(s: Limits) {
    s.dailyUsed == map[] && s.resetDay == None && s.concurrent == map[] && s.rpmWindow == map[]
  }

  /** The clock never goes back, and nobody calls `reset`. */
  ghost predicate Orderly(es: seq<Event>) {
    && (forall i, j :: 0 <= i <= j < |es| ==> es[i].now <= es[j].now)
    && (forall i :: 0 <= i < |es| ==> !es[i].call.Reset?)
  }

  function After(s0: Limits, es: seq<Event>): Limits {
    if es == [] then s0 else Step(After(s0, Front(es)), Last(es))
  }

  predicate GrantedNow(s: Limits, e: Event, m: Model) {
    e.call.Acquire? && e.call.m == m && Judge(s, m, e.call.slots, e.now) == Granted
  }

  /** The times of all the acquires of m that ever succeeded: the history the deque abbreviates. */
  function Grants(s0: Limits, es: seq<Event>, m: Model): seq<real> {
    if es == [] then []
    else if GrantedNow(After(s0, Front(es)), Last(es), m) then Grants(s0, Front(es), m) + [Last(es).now]
    else Grants(s0, Front(es), m)
  }

  /** The grants that are less than a minute old. */
  function Recent(grants: seq<real>, now: real): seq<real> {
    if grants == [] then [] else
      var front, last := grants[..|grants| - 1], grants[|grants| - 1];
      if now - last < 60.0 then Recent(front, now) + [last] else Recent(front, now)
  }

  function CountWithin(grants: seq<real>, from: real, to: real): nat {
    if grants == [] then 0
    else CountWithin(grants[..|grants| - 1], from, to)
         + if from <= grants[|grants| - 1] < to then 1 else 0
  }

  function CountOnDay(grants: seq<real>, day: int): nat {
    if grants == [] then 0
    else CountOnDay(grants[..|grants| - 1], day) + if UtcDay(grants[|grants| - 1]) == day then 1 else 0
  }

  // ---- lists of times ----------------------------------------------------------------------------

  lemma {:induction false} PruneCuts(w: seq<real>, now: real)
    ensures |Prune(w, now)| <= |w|
    ensures Prune(w, now) == w[|w| - |Prune(w, now)|..]
    ensures forall i :: 0 <= i < |w| - |Prune(w, now)| ==> now - w[i] >= 60.0
    ensures Prune(w, now) != [] ==> now - Prune(w, now)[0] < 60.0
  {
    if w != [] && now - w[0] >= 60.0 {
      PruneCuts(w[1..], now);
      forall i | 0 <= i < |w| - |Prune(w, now)| ensures now - w[i] >= 60.0 {
        if i > 0 {
          assert w[i] == w[1..][i - 1];
        }
      }
    }
  }

  /** In a nondecreasing list the recent entries are a tail. */
  lemma {:induction false} RecentIsTail(grants: seq<real>, now: real, k: nat)
    requires NonDecreasing(grants) && k <= |grants|
    requires forall i :: 0 <= i < k ==> now - grants[i] >= 60.0
    requires k < |grants| ==> now - grants[k] < 60.0
    ensures Recent(grants, now) == grants[k..]
  {
    if grants != [] {
      var front := grants[..|grants| - 1];
      if k == |grants| {
        AllOld(front, now);
      } else {
        assert NonDecreasing(front);
        RecentIsTail(front, now, k);
        assert grants[k] <= grants[|grants| - 1];
        assert grants[k..] == front[k..] + [grants[|grants| - 1]];
      }
    }
  }

  lemma {:induction false} AllOld(grants: seq<real>, now: real)
    requires forall i :: 0 <= i < |grants| ==> now - grants[i] >= 60.0
    ensures Recent(grants, now) == []
  {
    if grants != [] {
      AllOld(grants[..|grants| - 1], now);
    }
  }

  // ---- the deque refines the history -------------------------------------------------------------

  /** The deque is a tail of the history, and what it dropped is at least a minute old. */
  ghost predicate Abbreviates(window: seq<real>, grants: seq<real>, now: real) {
    && |window| <= |grants|
    && window == grants[|grants| - |window|..]
    && forall i :: 0 <= i < |grants| - |window| ==> now - grants[i] >= 60.0
  }

  lemma OrderlyFront(es: seq<Event>)
    requires Orderly(es) && es != []
    ensures Orderly(Front(es))
  {
  }

  lemma {:induction false} GrantsInOrder(s0: Limits, es: seq<Event>, m: Model)
    requires Orderly(es)
    ensures NonDecreasing(Grants(s0, es, m))
    ensures forall t :: t in Grants(s0, es, m) ==> es != [] && t <= Last(es).now
  {
    if es != [] {
      GrantsInOrder(s0, Front(es), m);
      var grants, e := Grants(s0, Front(es), m), Last(es);
      forall i | 0 <= i < |grants| ensures grants[i] <= e.now {
        assert grants[i] in grants;
        assert Last(Front(es)).now <= e.now;
      }
    }
  }

  lemma PrunedAbbreviates(window: seq<real>, grants: seq<real>, before: real, now: real)
    requires Abbreviates(window, grants, before) && before <= now
    ensures Abbreviates(Prune(window, now), grants, now)
  {
    PruneCuts(window, now);
    var p := Prune(window, now);
    var cut := |grants| - |window|;
    forall i | 0 <= i < |grants| - |p| ensures now - grants[i] >= 60.0 {
      if i >= cut {
        assert grants[i] == window[i - cut];
      }
    }
  }

  lemma StepAbbreviates(s: Limits, e: Event, m: Model, grants: seq<real>, before: real)
    requires !e.call.Reset? && before <= e.now && Abbreviates(s.Window(m), grants, before)
    ensures Abbreviates(Step(s, e).Window(m), if GrantedNow(s, e, m) then grants + [e.now] else grants, e.now)
  {
    StepWindow(s, e, m);
    PrunedAbbreviates(s.Window(m), grants, before, e.now);
    hide Step, Prune, GrantedNow;
    var p := Prune(s.Window(m), e.now);
    assert grants + [e.now] == grants[..|grants| - |p|] + (p + [e.now]);
  }

  lemma {:induction false} WindowAbbreviates(s0: Limits, es: seq<Event>, m: Model)
    requires Fresh(s0) && Orderly(es) && es != []
    ensures Abbreviates(After(s0, es).Window(m), Grants(s0, es, m), Last(es).now)
  {
    var s, e := After(s0, Front(es)), Last(es);
    var grants := Grants(s0, Front(es), m);
    if Front(es) == [] {
      StepAbbreviates(s, e, m, grants, e.now);
    } else {
      WindowAbbreviates(s0, Front(es), m);
      assert Last(Front(es)).now <= e.now;
      StepAbbreviates(s, e, m, grants, Last(Front(es)).now);
    }
  }

  /** After pruning, the deque holds exactly the grants of the last 60 seconds, in time order. */
  lemma PrunedWindowIsRecent(s0: Limits, es: seq<Event>, m: Model, now: real)
    requires Fresh(s0) && Orderly(es + [Event(Query(m), now)])
    ensures Prune(After(s0, es).Window(m), now) == Recent(Grants(s0, es, m), now)
    ensures NonDecreasing(Recent(Grants(s0, es, m), now))
  {
    var all := es + [Event(Query(m), now)];
    assert Front(all) == es;
    OrderlyFront(all);
    GrantsInOrder(s0, es, m);
    var grants := Grants(s0, es, m);
    var window := After(s0, es).Window(m);
    if es != [] {
      WindowAbbreviates(s0, es, m);
      assert es[|es| - 1] == all[|es| - 1] && all[|es|].now == now;
      PrunedAbbreviates(window, grants, Last(es).now, now);
    }
    PruneCuts(window, now);
    var k := |grants| - |Prune(window, now)|;
    RecentIsTail(grants, now, k);
  }

  /** A request that is within its daily quota is refused for "rpm" exactly when the per-minute limit's worth of
      requests really was granted during the last 60 seconds. */
  lemma RpmDenialIsExact(s0: Limits, es: seq<Event>, m: Model, slots: int, now: real)
    requires Fresh(s0) && Orderly(es + [Event(Query(m), now)])
    ensures var s := After(s0, es);
            Judge(s, m, slots, now) == DeniedRpm
            <==> s.UsedOn(m, UtcDay(now)) < s.Limit(m) && |Recent(Grants(s0, es, m), now)| >= s.Rpm(m)
  {
    PrunedWindowIsRecent(s0, es, m, now);
  }

  lemma {:induction false} ConfigFixed(s0: Limits, es: seq<Event>)
    ensures After(s0, es).config == s0.config
  {
    hide Step;
    if es != [] {
      ConfigFixed(s0, Front(es));
      StepConfig(After(s0, Front(es)), Last(es));
    }
  }

  lemma StepConfig(s: Limits, e: Event)
    ensures Step(s, e).config == s.config
  {
    hide Prune, NearLimit, Judge;
  }

  lemma CountWithinAppend(grants: seq<real>, t: real, from: real, to: real)
    ensures CountWithin(grants + [t], from, to) == CountWithin(grants, from, to) + if from <= t < to then 1 else 0
  {
    assert (grants + [t])[..|grants|] == grants;
  }

  /** The clock is read before the lock is taken, so a reading may lie behind those of calls that locked earlier,
      but by no more than skew; and nobody calls `reset`. */
  ghost predicate Skewed(es: seq<Event>, skew: real) {
    && (forall i, j :: 0 <= i < j < |es| ==> es[i].now - skew <= es[j].now)
    && (forall i :: 0 <= i < |es| ==> !es[i].call.Reset?)
  }

  ghost predicate SeenOld(grant: real, es: seq<Event>) {
    exists j :: 0 <= j < |es| && es[j].now - grant >= 60.0
  }

  /** Whatever the order of the readings, the deque is a tail of the history, and some call found each dropped grant
      a minute old. */
  ghost predicate DropsOld(window: seq<real>, grants: seq<real>, es: seq<Event>) {
    && |window| <= |grants| && window == grants[|grants| - |window|..]
    && forall i :: 0 <= i < |grants| - |window| ==> SeenOld(grants[i], es)
  }

  lemma SeenOldMore(grant: real, es: seq<Event>, e: Event)
    ensures SeenOld(grant, es) || e.now - grant >= 60.0 ==> SeenOld(grant, es + [e])
  {
    var more := es + [e];
    if SeenOld(grant, es) {
      var j :| 0 <= j < |es| && es[j].now - grant >= 60.0;
      assert more[j].now - grant >= 60.0;
    }
    assert more[|es|] == e;
  }

  lemma PruneDropsOld(window: seq<real>, grants: seq<real>, es: seq<Event>, e: Event)
    requires DropsOld(window, grants, es)
    ensures DropsOld(window, grants, es + [e]) && DropsOld(Prune(window, e.now), grants, es + [e])
  {
    hide Prune, SeenOld;
    PruneCuts(window, e.now);
    forall i | 0 <= i < |grants| - |Prune(window, e.now)| ensures SeenOld(grants[i], es + [e]) {
      SeenOldMore(grants[i], es, e);
      assert i >= |grants| - |window| ==> grants[i] == window[i - (|grants| - |window|)];
    }
  }

  lemma GrantDropsOld(window: seq<real>, grants: seq<real>, es: seq<Event>, t: real)
    requires DropsOld(window, grants, es)
    ensures DropsOld(window + [t], grants + [t], es)
  {
  }

  lemma {:induction false} WindowDropsOld(s0: Limits, es: seq<Event>, m: Model)
    requires Fresh(s0) && forall i :: 0 <= i < |es| ==> !es[i].call.Reset?
    ensures DropsOld(After(s0, es).Window(m), Grants(s0, es, m), es)
  {
    hide Step, GrantedNow, DropsOld;
    if es == [] {
      NothingDropped(m);
    } else {
      WindowDropsOld(s0, Front(es), m);
      var s, e, grants := After(s0, Front(es)), Last(es), Grants(s0, Front(es), m);
      StepWindow(s, e, m);
      PruneDropsOld(s.Window(m), grants, Front(es), e);
      GrantDropsOld(Prune(s.Window(m), e.now), grants, Front(es) + [e], e.now);
      assert Front(es) + [e] == es;
    }
  }

  lemma NothingDropped(m: Model)
    ensures DropsOld([], [], [])
  {
  }

  /** The grants of a span are all in the deque when a call of that span finds it pruned. */
  lemma {:induction false} SpanIsKept(
    window: seq<real>, grants: seq<real>, es: seq<Event>, from: real, to: real, k: nat)
    requires DropsOld(window, grants, es) && k <= |grants|
    requires forall g :: SeenOld(g, es) ==> !(from <= g < to)
    ensures CountWithin(grants[..k], from, to) <= Max(0, k - (|grants| - |window|))
  {
    if k > 0 {
      SpanIsKept(window, grants, es, from, to, k - 1);
      assert grants[..k][..k - 1] == grants[..k - 1];
      assert k - 1 < |grants| - |window| ==> SeenOld(grants[k - 1], es);
    }
  }

  /** If no reading lies more than skew behind an earlier lock holder's, any span of 60 - skew seconds holds at most
      `get_rpm(m)` successful acquires of m. */
  lemma {:induction false} RpmBoundWithSkew(s0: Limits, es: seq<Event>, m: Model, from: real, skew: real)
    requires Fresh(s0) && Skewed(es, skew) && skew >= 0.0
    ensures CountWithin(Grants(s0, es, m), from, from + 60.0 - skew) <= Max(0, s0.Rpm(m))
  {
    hide Step, DropsOld, CountWithin;
    if es == [] {
      assert CountWithin([], from, from + 60.0 - skew) == 0 by {
        CountNone(from, from + 60.0 - skew);
      }
    } else {
      RpmBoundWithSkew(s0, Front(es), m, from, skew);
      var s, e, grants := After(s0, Front(es)), Last(es), Grants(s0, Front(es), m);
      if GrantedNow(s, e, m) {
        CountWithinAppend(grants, e.now, from, from + 60.0 - skew);
        if from <= e.now < from + 60.0 - skew {
          WindowDropsOld(s0, Front(es), m);
          PruneDropsOld(s.Window(m), grants, Front(es), e);
          assert Front(es) + [e] == es;
          SpanIsKept(Prune(s.Window(m), e.now), grants, es, from, from + 60.0 - skew, |grants|);
          assert grants[..|grants|] == grants;
          ConfigFixed(s0, Front(es));
        }
      }
    }
  }

  function CountSince(grants: seq<real>, from: real): nat {
    if grants == [] then 0 else CountSince(Front(grants), from) + if Last(grants) > from then 1 else 0
  }

  lemma {:induction false} CountsTail(grants: seq<real>, from: real, n: nat)
    requires n <= |grants| && forall i :: |grants| - n <= i < |grants| ==> grants[i] > from
    ensures CountSince(grants, from) >= n
  {
    if n > 0 {
      CountsTail(Front(grants), from, n - 1);
    }
  }

  lemma {:induction false} CountsNoMore(grants: seq<real>, from: real, n: nat)
    requires n <= |grants| && forall i :: 0 <= i < |grants| - n ==> grants[i] <= from
    ensures CountSince(grants, from) <= n
  {
    if |grants| > n {
      if n > 0 {
        CountsNoMore(Front(grants), from, n - 1);
      } else {
        CountsNoMore(Front(grants), from, 0);
      }
    } else if n > 0 {
      CountsNoMore(Front(grants), from, n - 1);
    }
  }

  ghost predicate IsReading(t: real, es: seq<Event>) {
    exists k :: 0 <= k < |es| && es[k].now == t
  }

  lemma {:induction false} GrantsAreReadings(s0: Limits, es: seq<Event>, m: Model, t: real)
    requires t in Grants(s0, es, m)
    ensures IsReading(t, es)
  {
    hide After, GrantedNow;
    if t in Grants(s0, Front(es), m) {
      GrantsAreReadings(s0, Front(es), m, t);
      var k :| 0 <= k < |Front(es)| && Front(es)[k].now == t;
      assert es[k].now == t;
    } else {
      assert es[|es| - 1].now == t;
    }
  }

  ghost predicate InSkew(grants: seq<real>, skew: real) {
    forall i, j :: 0 <= i < j < |grants| ==> grants[i] - skew <= grants[j]
  }

  lemma InSkewAppend(grants: seq<real>, t: real, skew: real)
    requires InSkew(grants, skew) && forall g :: g in grants ==> g - skew <= t
    ensures InSkew(grants + [t], skew)
  {
    var more := grants + [t];
    forall i, j | 0 <= i < j < |more| ensures more[i] - skew <= more[j] {
      assert more[i] in grants;
    }
  }

  /** Grants come from readings, so they are as far out of order as those. */
  lemma {:induction false} GrantsSkewed(s0: Limits, es: seq<Event>, m: Model, skew: real)
    requires Skewed(es, skew)
    ensures InSkew(Grants(s0, es, m), skew)
  {
    hide After, GrantedNow, InSkew;
    if es == [] {
      NoSkew(skew);
    } else {
      GrantsSkewed(s0, Front(es), m, skew);
      forall g | g in Grants(s0, Front(es), m) ensures g - skew <= Last(es).now {
        GrantsAreReadings(s0, Front(es), m, g);
        var k :| 0 <= k < |Front(es)| && Front(es)[k].now == g;
        assert es[k].now - skew <= es[|es| - 1].now;
      }
      InSkewAppend(Grants(s0, Front(es), m), Last(es).now, skew);
    }
  }

  lemma NoSkew(skew: real)
    ensures InSkew([], skew)
  {
  }

  lemma DroppedIsOld(es: seq<Event>, e: Event, grant: real, skew: real)
    requires Skewed(es + [e], skew) && skew >= 0.0 && SeenOld(grant, es + [e])
    ensures grant <= e.now - 60.0 + skew
  {
    var all := es + [e];
    var j :| 0 <= j < |all| && all[j].now - grant >= 60.0;
    assert j < |es| ==> all[j].now - skew <= all[|es|].now;
  }

  /** The pruned deque holds every grant of the last 60 - skew seconds, and none older than 60 + skew. */
  lemma PrunedWithSkew(window: seq<real>, grants: seq<real>, es: seq<Event>, e: Event, skew: real)
    requires DropsOld(window, grants, es) && InSkew(grants, skew) && skew >= 0.0 && Skewed(es + [e], skew)
    ensures CountSince(grants, e.now - 60.0 + skew) <= |Prune(window, e.now)| <= CountSince(grants, e.now - 60.0 - skew)
  {
    hide CountSince, Prune, Skewed, SeenOld;
    var p := Prune(window, e.now);
    PruneDropsOld(window, grants, es, e);
    PruneCuts(window, e.now);
    forall i | 0 <= i < |grants| - |p| ensures grants[i] <= e.now - 60.0 + skew {
      DroppedIsOld(es, e, grants[i], skew);
    }
    CountsNoMore(grants, e.now - 60.0 + skew, |p|);
    assert p != [] ==> p[0] == grants[|grants| - |p|];
    CountsTail(grants, e.now - 60.0 - skew, |p|);
  }

  /** A refusal for "rpm" means that the limit's worth of requests was granted in the last 60 + skew seconds, and a
      request within its quota is refused when that many were granted in the last 60 - skew. */
  lemma RpmDenialWithSkew(s0: Limits, es: seq<Event>, m: Model, slots: int, now: real, skew: real)
    requires Fresh(s0) && skew >= 0.0 && Skewed(es + [Event(Query(m), now)], skew)
    ensures var s, grants := After(s0, es), Grants(s0, es, m);
            && (Judge(s, m, slots, now) == DeniedRpm ==> CountSince(grants, now - 60.0 - skew) >= s.Rpm(m))
            && (s.UsedOn(m, UtcDay(now)) < s.Limit(m) && CountSince(grants, now - 60.0 + skew) >= s.Rpm(m) ==>
                  Judge(s, m, slots, now) == DeniedRpm)
  {
    hide CountSince, Prune, After, Grants, UtcDay, DropsOld, InSkew, Skewed;
    SkewedFront(es, Event(Query(m), now), skew);
    WindowDropsOld(s0, es, m);
    GrantsSkewed(s0, es, m, skew);
    PrunedWithSkew(After(s0, es).Window(m), Grants(s0, es, m), es, Event(Query(m), now), skew);
  }

  lemma SkewedFront(es: seq<Event>, e: Event, skew: real)
    requires Skewed(es + [e], skew)
    ensures Skewed(es, skew) && forall i :: 0 <= i < |es| ==> !es[i].call.Reset?
  {
    forall i | 0 <= i < |es| ensures (es + [e])[i] == es[i] {
    }
  }

  lemma CountNone(from: real, to: real)
    ensures CountWithin([], from, to) == 0
  {
  }

  lemma StepInFlight(s: Limits, e: Event, m: Model)
    ensures Step(s, e).InFlight(m) == s.InFlight(m) +
      (if GrantedNow(s, e, m) then 1 else if e.call == Release(m) && s.InFlight(m) > 0 then -1 else 0)
  {
    hide Prune, NearLimit, UtcDay;
    match e.call
    case Acquire(k, slots) => AcquiredShifts(s, k, slots, e.now);
    case Release(k) => ReleasedShifts(s, k);
    case _ =>
  }

  /** However often `release` is called, no slot count is ever negative. */
  lemma {:induction false} NeverNegative(s0: Limits, es: seq<Event>, m: Model)
    requires Fresh(s0)
    ensures After(s0, es).InFlight(m) >= 0
  {
    hide Step;
    if es != [] {
      NeverNegative(s0, Front(es), m);
      StepInFlight(After(s0, Front(es)), Last(es), m);
    }
  }

  /** When readings come in lock order, in any span of 60 seconds at most `get_rpm(m)` acquires of m succeed. */
  lemma RpmBound(s0: Limits, es: seq<Event>, m: Model, from: real)
    requires Fresh(s0) && Orderly(es)
    ensures CountWithin(Grants(s0, es, m), from, from + 60.0) <= Max(0, s0.Rpm(m))
  {
    RpmBoundWithSkew(s0, es, m, from, 0.0);
  }

  // ---- the daily quota ---------------------------------------------------------------------------

  lemma {:induction false} NoneOnDay(grants: seq<real>, day: int)
    requires forall t :: t in grants ==> UtcDay(t) < day
    ensures CountOnDay(grants, day) == 0
  {
    if grants != [] {
      NoneOnDay(grants[..|grants| - 1], day);
    }
  }

  /** The counter covers the grants of the day it belongs to, and no grant is later than that day. */
  ghost predicate Covers(s: Limits, grants: seq<real>, m: Model) {
    && (s.resetDay.None? ==> grants == [])
    && (s.resetDay.Some? ==>
          && CountOnDay(grants, s.resetDay.value) <= s.Used(m)
          && forall t :: t in grants ==> UtcDay(t) <= s.resetDay.value)
  }

  lemma CountOnDayAppend(grants: seq<real>, t: real, day: int)
    ensures CountOnDay(grants + [t], day) == CountOnDay(grants, day) + if UtcDay(t) == day then 1 else 0
  {
    assert (grants + [t])[..|grants|] == grants;
  }

  lemma StepCovers(s: Limits, e: Event, m: Model, grants: seq<real>)
    requires !e.call.Reset? && Covers(s, grants, m) && s.Used(m) >= 0
    requires s.resetDay.Some? ==> s.resetDay.value <= UtcDay(e.now)
    ensures Covers(Step(s, e), if GrantedNow(s, e, m) then grants + [e.now] else grants, m)
    ensures Step(s, e).Used(m) >= 0
    ensures Step(s, e).resetDay.Some? ==> Step(s, e).resetDay.value <= UtcDay(e.now)
    ensures GrantedNow(s, e, m) ==> CountOnDay(grants, UtcDay(e.now)) < s.Limit(m)
  {
    hide Step, GrantedNow;
    StepUsed(s, e, m);
    var today := UtcDay(e.now);
    if s.resetDay != Some(today) {
      NoneOnDay(grants, today);
    }
    CountOnDayAppend(grants, e.now, today);
  }

  /** What the daily counter keeps over a run, and the resulting quota on every day. */
  lemma {:induction false} DailyInvariant(s0: Limits, es: seq<Event>, m: Model, day: int)
    requires Fresh(s0) && Orderly(es)
    ensures Covers(After(s0, es), Grants(s0, es, m), m)
    ensures After(s0, es).resetDay.Some? ==> es != [] && After(s0, es).resetDay.value <= UtcDay(Last(es).now)
    ensures After(s0, es).Used(m) >= 0
    ensures CountOnDay(Grants(s0, es, m), day) <= Max(0, s0.Limit(m))
  {
    if es != [] {
      OrderlyFront(es);
      DailyInvariant(s0, Front(es), m, day);
      ConfigFixed(s0, Front(es));
      var s, e := After(s0, Front(es)), Last(es);
      var grants := Grants(s0, Front(es), m);
      if Front(es) != [] {
        UtcDayMonotone(Last(Front(es)).now, e.now);
      }
      StepCovers(s, e, m, grants);
      CountOnDayAppend(grants, e.now, day);
    }
  }

  /** On no UTC day do more acquires of m succeed than its daily limit allows. */
  lemma DailyQuota(s0: Limits, es: seq<Event>, m: Model, day: int)
    requires Fresh(s0) && Orderly(es)
    ensures CountOnDay(Grants(s0, es, m), day) <= Max(0, s0.Limit(m))
  {
    DailyInvariant(s0, es, m, day);
  }
}
