/** Runs of the alert manager: when a rule fires, and what a firing alert says about its metric. */
module AlertRuns {
  import opened Prelude
  import opened AlertManagers

  ghost predicate DistinctIds(rules: seq<Rule>) {
    forall i, j :: 0 <= i < j < |rules| ==> rules[i].id != rules[j].id
  }

  function After(rules: seq<Rule>, ops: seq<Op>): State {
    if ops == [] then State(map[], map[], []) else Step(After(rules, ops[..|ops| - 1]), rules, ops[|ops| - 1])
  }

  /** The clock never runs back. */
  ghost predicate InOrder(ops: seq<Op>) {
    forall i, j :: 0 <= i < j < |ops| && ops[i].Evaluate? && ops[j].Evaluate? ==> ops[i].now <= ops[j].now
  }

  predicate Concerns(r: Rule, op: Op) {
    op.Evaluate? && r.enabled && r.metric == op.metric
  }

  predicate Holds(r: Rule, op: Op) {
    Concerns(r, op) ==> Met(r, op.value)
  }

  // ---- one rule among others ----------------------------------------------------------------------------

  /** The same rule on its own: when its condition began to hold, and when it last fired. */
  datatype Own = Own(start: Option<real>, last: Option<real>)

  function Fetch(m: map<string, real>, k: string): Option<real> {
    if k in m then Some(m[k]) else None
  }

  function OwnOf(s: State, id: string): Own {
    Own(Fetch(s.start, id), Fetch(s.last, id))
  }

  predicate OwnFires(w: Own, r: Rule, op: Op) {
    && Concerns(r, op) && Met(r, op.value)
    && (r.duration != 0 ==> w.start.Some? && op.now - w.start.value >= r.duration as real)
    && op.now - (if w.last.Some? then w.last.value else 0.0) >= r.cooldown as real
  }

  function Turn(w: Own, r: Rule, op: Op): Own {
    if !Concerns(r, op) then w
    else if !Met(r, op.value) then w.(start := None)
    else if OwnFires(w, r, op) then w.(last := Some(op.now))
    else if r.duration != 0 && w.start.None? then w.(start := Some(op.now))
    else w
  }

  function OwnAfter(r: Rule, ops: seq<Op>): Own {
    if ops == [] then Own(None, None) else Turn(OwnAfter(r, ops[..|ops| - 1]), r, ops[|ops| - 1])
  }

  predicate FiresAt(r: Rule, ops: seq<Op>, j: nat)
    requires j < |ops|
  {
    OwnFires(OwnAfter(r, ops[..j]), r, ops[j])
  }

  /** The times of the alerts of one rule, oldest first. */
  function AlertTimes(history: seq<Alert>, id: string): seq<real> {
    if history == [] then [] else
      var last := history[|history| - 1];
      var times := AlertTimes(history[..|history| - 1], id);
      if last.ruleId == id then times + [last.triggeredAt] else times
  }

  function FireTimes(r: Rule, ops: seq<Op>): seq<real> {
    if ops == [] then [] else
      var times, j := FireTimes(r, ops[..|ops| - 1]), |ops| - 1;
      if FiresAt(r, ops, j) then times + [ops[j].now] else times
  }

  lemma {:induction false} TimesUnchanged(a: seq<Alert>, b: seq<Alert>, id: string)
    requires |a| == |b|
    requires forall i :: 0 <= i < |a| ==> a[i].ruleId == b[i].ruleId && a[i].triggeredAt == b[i].triggeredAt
    ensures AlertTimes(a, id) == AlertTimes(b, id)
  {
    if a != [] {
      TimesUnchanged(a[..|a| - 1], b[..|b| - 1], id);
    }
  }

  lemma TimesGrow(history: seq<Alert>, a: Alert, id: string)
    ensures AlertTimes(history + [a], id) ==
      if a.ruleId == id then AlertTimes(history, id) + [a.triggeredAt] else AlertTimes(history, id)
  {
    assert (history + [a])[..|history|] == history;
  }

  lemma RuleStepIsTurn(s: State, r: Rule, op: Op)
    requires op.Evaluate?
    ensures OwnOf(RuleStep(s, r, op), r.id) == Turn(OwnOf(s, r.id), r, op)
    ensures AlertTimes(RuleStep(s, r, op).history, r.id) ==
      if OwnFires(OwnOf(s, r.id), r, op) then AlertTimes(s.history, r.id) + [op.now] else AlertTimes(s.history, r.id)
  {
    TimesGrow(s.history, Alert(r.id, Firing, op.value, op.now), r.id);
    TimesUnchanged(s.history, CloseAll(s.history, r.id), r.id);
    hide AlertTimes, CloseAll;
  }

  lemma OtherRuleStep(s: State, r: Rule, op: Op, id: string)
    requires op.Evaluate? && r.id != id
    ensures OwnOf(RuleStep(s, r, op), id) == OwnOf(s, id)
    ensures AlertTimes(RuleStep(s, r, op).history, id) == AlertTimes(s.history, id)
  {
    TimesGrow(s.history, Alert(r.id, Firing, op.value, op.now), id);
    TimesUnchanged(s.history, CloseAll(s.history, r.id), id);
    hide AlertTimes, CloseAll;
  }

  /** Among rules with distinct ids, evaluating all of them does to one rule what evaluating it alone does. */
  lemma {:induction false} RuleStepsProject(s: State, rules: seq<Rule>, op: Op, k: nat)
    requires op.Evaluate? && DistinctIds(rules) && k < |rules|
    ensures var t := RuleSteps(s, rules, op);
      && OwnOf(t, rules[k].id) == Turn(OwnOf(s, rules[k].id), rules[k], op)
      && AlertTimes(t.history, rules[k].id) ==
           if OwnFires(OwnOf(s, rules[k].id), rules[k], op) then AlertTimes(s.history, rules[k].id) + [op.now]
           else AlertTimes(s.history, rules[k].id)
  {
    hide AlertTimes, Turn, OwnFires, RuleStep, OwnOf;
    var n := |rules| - 1;
    var front := RuleSteps(s, rules[..n], op);
    if k < n {
      RuleStepsProject(s, rules[..n], op, k);
      OtherRuleStep(front, rules[n], op, rules[k].id);
    } else {
      RuleStepsOther(s, rules[..n], op, rules[n].id);
      RuleStepIsTurn(front, rules[n], op);
    }
  }

  lemma {:induction false} RuleStepsOther(s: State, rules: seq<Rule>, op: Op, id: string)
    requires op.Evaluate? && forall i :: 0 <= i < |rules| ==> rules[i].id != id
    ensures OwnOf(RuleSteps(s, rules, op), id) == OwnOf(s, id)
    ensures AlertTimes(RuleSteps(s, rules, op).history, id) == AlertTimes(s.history, id)
  {
    hide AlertTimes, RuleStep, OwnOf;
    if rules != [] {
      RuleStepsOther(s, rules[..|rules| - 1], op, id);
      OtherRuleStep(RuleSteps(s, rules[..|rules| - 1], op), rules[|rules| - 1], op, id);
    }
  }

  /** In every run, the alerts of a rule are the times it fires on its own. */
  lemma {:induction false} AlertsAreFirings(rules: seq<Rule>, ops: seq<Op>, k: nat)
    requires DistinctIds(rules) && k < |rules|
    ensures OwnOf(After(rules, ops), rules[k].id) == OwnAfter(rules[k], ops)
    ensures AlertTimes(After(rules, ops).history, rules[k].id) == FireTimes(rules[k], ops)
  {
    hide AlertTimes, Turn, OwnFires, RuleSteps;
    if ops == [] {
      NoAlerts(rules[k].id);
    } else {
      var front, op := ops[..|ops| - 1], ops[|ops| - 1];
      AlertsAreFirings(rules, front, k);
      var s := After(rules, front);
      if op.Evaluate? {
        RuleStepsProject(s, rules, op, k);
      } else {
        NotAnEvaluation(OwnAfter(rules[k], front), rules[k], op);
        TimesUnchanged(s.history, Step(s, rules, op).history, rules[k].id);
      }
    }
  }

  lemma NoAlerts(id: string)
    ensures AlertTimes([], id) == []
  {
  }

  lemma NotAnEvaluation(w: Own, r: Rule, op: Op)
    requires !op.Evaluate?
    ensures Turn(w, r, op) == w && !OwnFires(w, r, op)
  {
  }

  // ---- when a rule fires ---------------------------------------------------------------------------------

  ghost predicate IsLastFiring(r: Rule, ops: seq<Op>, last: Option<real>) {
    if last.None? then forall i :: 0 <= i < |ops| ==> !FiresAt(r, ops, i)
    else exists i :: 0 <= i < |ops| && FiresAt(r, ops, i) && ops[i].now == last.value
                       && forall k :: i < k < |ops| ==> !FiresAt(r, ops, k)
  }

  lemma FiresInPrefix(r: Rule, ops: seq<Op>, n: nat, i: nat)
    requires i < n <= |ops|
    ensures FiresAt(r, ops[..n], i) == FiresAt(r, ops, i)
  {
    assert ops[..n][..i] == ops[..i];
  }

  lemma {:induction false} LastFiring(r: Rule, ops: seq<Op>)
    ensures IsLastFiring(r, ops, OwnAfter(r, ops).last)
  {
    if ops != [] {
      var n := |ops| - 1;
      LastFiring(r, ops[..n]);
      forall i | 0 <= i < n ensures FiresAt(r, ops[..n], i) == FiresAt(r, ops, i) {
        FiresInPrefix(r, ops, n, i);
      }
      assert FiresAt(r, ops, n) == OwnFires(OwnAfter(r, ops[..n]), r, ops[n]);
      hide FiresAt, OwnAfter;
      assert OwnAfter(r, ops).last == if FiresAt(r, ops, n) then Some(ops[n].now) else OwnAfter(r, ops[..n]).last by {
        OwnUnfolds(r, ops);
      }
    }
  }

  lemma OwnUnfolds(r: Rule, ops: seq<Op>)
    requires ops != []
    ensures OwnAfter(r, ops) == Turn(OwnAfter(r, ops[..|ops| - 1]), r, ops[|ops| - 1])
  {
  }

  /** Every evaluation from i up to, not including, j found the condition of the rule true. */
  ghost predicate HoldsFrom(r: Rule, ops: seq<Op>, i: nat, j: nat)
    requires j <= |ops|
  {
    forall k :: i <= k < j ==> Holds(r, ops[k])
  }

  ghost predicate IsStart(r: Rule, ops: seq<Op>, start: Option<real>) {
    if start.None? then forall i :: 0 <= i < |ops| && Concerns(r, ops[i]) ==> !HoldsFrom(r, ops, i, |ops|)
    else exists i :: 0 <= i < |ops| && IsFirst(r, ops, i) && ops[i].now == start.value
  }

  /** The first evaluation of the stretch, up to the end, over which the condition held. */
  ghost predicate IsFirst(r: Rule, ops: seq<Op>, i: nat)
    requires i < |ops|
  {
    && Concerns(r, ops[i]) && HoldsFrom(r, ops, i, |ops|)
    && forall m :: 0 <= m < i && Concerns(r, ops[m]) ==> !HoldsFrom(r, ops, m, |ops|)
  }

  lemma {:induction false} StartOfStretch(r: Rule, ops: seq<Op>)
    requires r.duration != 0
    ensures IsStart(r, ops, OwnAfter(r, ops).start)
  {
    if ops != [] {
      var n := |ops| - 1;
      var front, w := ops[..n], OwnAfter(r, ops[..n]);
      StartOfStretch(r, front);
      forall i | 0 <= i <= n ensures HoldsFrom(r, ops, i, n + 1) <==> HoldsFrom(r, front, i, n) && Holds(r, ops[n]) {
        if HoldsFrom(r, ops, i, n + 1) {
          assert Holds(r, ops[n]) && forall k :: i <= k < n ==> Holds(r, ops[k]);
        }
      }
      hide HoldsFrom;
      if w.start.Some? {
        var i :| 0 <= i < n && IsFirst(r, front, i) && front[i].now == w.start.value;
        if Holds(r, ops[n]) {
          assert IsFirst(r, ops, i);
        }
      } else if Concerns(r, ops[n]) && Holds(r, ops[n]) {
        assert HoldsFrom(r, front, n, n) by {
          EmptyStretch(r, front, n);
        }
        assert IsFirst(r, ops, n);
      }
    }
  }

  lemma EmptyStretch(r: Rule, ops: seq<Op>, n: nat)
    requires n <= |ops|
    ensures HoldsFrom(r, ops, n, n)
  {
  }

  /** The condition held at every evaluation of the metric over a stretch of at least the duration that ends at j. */
  ghost predicate HeldFor(r: Rule, ops: seq<Op>, j: nat)
    requires j < |ops| && ops[j].Evaluate?
  {
    exists i :: 0 <= i < j && Concerns(r, ops[i]) && HoldsFrom(r, ops, i, j + 1)
                  && ops[j].now - ops[i].now >= r.duration as real
  }

  /** At least the cooldown has gone by since every earlier firing, or since the clock's zero when there was none. */
  ghost predicate Rested(r: Rule, ops: seq<Op>, j: nat)
    requires j < |ops| && ops[j].Evaluate?
  {
    && (forall i :: 0 <= i < j && FiresAt(r, ops, i) ==> ops[j].now - ops[i].now >= r.cooldown as real)
    && ((forall i :: 0 <= i < j ==> !FiresAt(r, ops, i)) ==> ops[j].now >= r.cooldown as real)
  }

  lemma RestedMeansCool(r: Rule, ops: seq<Op>, j: nat)
    requires InOrder(ops) && j < |ops| && ops[j].Evaluate?
    ensures Rested(r, ops, j) <==>
      var last := OwnAfter(r, ops[..j]).last;
      ops[j].now - (if last.Some? then last.value else 0.0) >= r.cooldown as real
  {
    var last := OwnAfter(r, ops[..j]).last;
    LastFiringBefore(r, ops, j);
    FiringEvaluates(r, ops);
    hide FiresAt, OwnAfter;
    if last.Some? {
      var i :| 0 <= i < j && FiresAt(r, ops, i) && ops[i].now == last.value && NoFiringFrom(r, ops, i + 1, j);
      assert forall k :: i < k < j ==> !FiresAt(r, ops, k);
    }
  }

  ghost predicate NoFiringFrom(r: Rule, ops: seq<Op>, i: nat, j: nat)
    requires j <= |ops|
  {
    forall k :: i <= k < j ==> !FiresAt(r, ops, k)
  }

  lemma LastFiringBefore(r: Rule, ops: seq<Op>, j: nat)
    requires j <= |ops|
    ensures var last := OwnAfter(r, ops[..j]).last;
      if last.None? then NoFiringFrom(r, ops, 0, j)
      else exists i :: 0 <= i < j && FiresAt(r, ops, i) && ops[i].now == last.value && NoFiringFrom(r, ops, i + 1, j)
  {
    LastFiring(r, ops[..j]);
    forall i | 0 <= i < j ensures FiresAt(r, ops[..j], i) == FiresAt(r, ops, i) {
      FiresInPrefix(r, ops, j, i);
    }
    FiringEvaluates(r, ops[..j]);
    hide FiresAt, OwnAfter;
  }

  lemma FiringEvaluates(r: Rule, ops: seq<Op>)
    ensures forall i :: 0 <= i < |ops| && FiresAt(r, ops, i) ==> ops[i].Evaluate?
  {
  }

  lemma HoldsBefore(r: Rule, ops: seq<Op>, i: nat, j: nat)
    requires j < |ops| && Holds(r, ops[j])
    ensures i < j ==> (HoldsFrom(r, ops, i, j + 1) <==> HoldsFrom(r, ops[..j], i, j))
  {
    if HoldsFrom(r, ops, i, j + 1) {
      assert forall k :: i <= k < j ==> Holds(r, ops[k]);
    }
  }

  lemma HeldMeansStart(r: Rule, ops: seq<Op>, j: nat)
    requires InOrder(ops) && j < |ops| && r.duration != 0 && Concerns(r, ops[j]) && Holds(r, ops[j])
    ensures HeldFor(r, ops, j) <==>
      var start := OwnAfter(r, ops[..j]).start; start.Some? && ops[j].now - start.value >= r.duration as real
  {
    var front, start := ops[..j], OwnAfter(r, ops[..j]).start;
    StartOfStretch(r, front);
    forall i | 0 <= i < j ensures HoldsFrom(r, ops, i, j + 1) <==> HoldsFrom(r, front, i, j) {
      HoldsBefore(r, ops, i, j);
    }
    hide HoldsFrom, OwnAfter, Holds;
    if start.Some? {
      var i :| 0 <= i < j && IsFirst(r, front, i) && front[i].now == start.value;
      if HeldFor(r, ops, j) {
        EarliestStart(r, ops, i, j);
      }
    }
  }

  /** No stretch that reaches the end begins before the first one. */
  lemma EarliestStart(r: Rule, ops: seq<Op>, i: nat, j: nat)
    requires InOrder(ops) && i < j < |ops| && ops[j].Evaluate? && Holds(r, ops[j])
    requires IsFirst(r, ops[..j], i) && HeldFor(r, ops, j)
    ensures ops[j].now - ops[i].now >= r.duration as real
  {
    var m :| 0 <= m < j && Concerns(r, ops[m]) && HoldsFrom(r, ops, m, j + 1)
             && ops[j].now - ops[m].now >= r.duration as real;
    HoldsBefore(r, ops, m, j);
    hide HoldsFrom, Holds;
    assert ops[..j][m] == ops[m] && m >= i;
  }

  /** The six comparisons; any other condition is never met. */
  predicate Compares(condition: string, value: real, threshold: real) {
    || (condition == "gt" && value > threshold)
    || (condition == "lt" && value < threshold)
    || (condition == "eq" && value == threshold)
    || (condition == "ne" && value != threshold)
    || (condition == "gte" && value >= threshold)
    || (condition == "lte" && value <= threshold)
  }

  lemma MetCompares(r: Rule, value: real)
    ensures Met(r, value) <==> Compares(r.condition, value, r.threshold)
  {
  }

  /** A rule fires exactly when its condition is met, has been for its duration, and its cooldown has passed. */
  lemma FiresExactly(r: Rule, ops: seq<Op>, j: nat)
    requires InOrder(ops) && j < |ops|
    ensures FiresAt(r, ops, j) <==>
      && Concerns(r, ops[j]) && Compares(r.condition, ops[j].value, r.threshold)
      && (r.duration != 0 ==> HeldFor(r, ops, j))
      && Rested(r, ops, j)
  {
    if Concerns(r, ops[j]) {
      MetCompares(r, ops[j].value);
    }
    hide Met, Compares;
    if Concerns(r, ops[j]) && Met(r, ops[j].value) {
      RestedMeansCool(r, ops, j);
      if r.duration != 0 {
        HeldMeansStart(r, ops, j);
      }
    }
    hide Rested, HeldFor, OwnAfter;
  }

  lemma {:induction false} TimesAreFirings(r: Rule, ops: seq<Op>, p: nat)
    requires p < |FireTimes(r, ops)|
    ensures exists i :: 0 <= i < |ops| && FiresAt(r, ops, i) && ops[i].now == FireTimes(r, ops)[p]
  {
    hide FiresAt;
    var n := |ops| - 1;
    if p < |FireTimes(r, ops[..n])| {
      TimesAreFirings(r, ops[..n], p);
      FiringEvaluates(r, ops[..n]);
      assert forall i :: 0 <= i < n ==> ops[..n][i] == ops[i];
      var i :| 0 <= i < n && FiresAt(r, ops[..n], i) && ops[i].now == FireTimes(r, ops[..n])[p];
      FiresInPrefix(r, ops, n, i);
    }
    FiringEvaluates(r, ops);
  }

  lemma {:induction false} FireTimesApart(r: Rule, ops: seq<Op>, p: nat, q: nat)
    requires InOrder(ops) && p < q < |FireTimes(r, ops)|
    ensures FireTimes(r, ops)[q] - FireTimes(r, ops)[p] >= r.cooldown as real
  {
    hide FiresAt;
    var n := |ops| - 1;
    if q < |FireTimes(r, ops[..n])| {
      FireTimesApart(r, ops[..n], p, q);
    } else {
      TimesAreFirings(r, ops[..n], p);
      FiringEvaluates(r, ops[..n]);
      assert forall i :: 0 <= i < n ==> ops[..n][i] == ops[i];
      var i :| 0 <= i < n && FiresAt(r, ops[..n], i) && ops[i].now == FireTimes(r, ops[..n])[p];
      FiresInPrefix(r, ops, n, i);
      FiresExactly(r, ops, n);
    }
  }

  /** Two alerts of one rule are at least its cooldown apart, whatever else happens, and the first one comes no
      earlier than the cooldown after the clock's zero. */
  lemma AlertsApart(rules: seq<Rule>, ops: seq<Op>, k: nat, p: nat, q: nat)
    requires DistinctIds(rules) && InOrder(ops) && k < |rules|
    requires p <= q < |AlertTimes(After(rules, ops).history, rules[k].id)|
    ensures var times := AlertTimes(After(rules, ops).history, rules[k].id);
      if p < q then times[q] - times[p] >= rules[k].cooldown as real
      else p == 0 ==> times[0] >= rules[k].cooldown as real
  {
    AlertsAreFirings(rules, ops, k);
    if p < q {
      FireTimesApart(rules[k], ops, p, q);
    } else if p == 0 {
      FirstAlert(rules[k], ops);
    }
  }

  lemma {:induction false} FirstAlert(r: Rule, ops: seq<Op>)
    requires InOrder(ops) && FireTimes(r, ops) != []
    ensures FireTimes(r, ops)[0] >= r.cooldown as real
  {
    hide FiresAt;
    var n := |ops| - 1;
    if FireTimes(r, ops[..n]) != [] {
      FirstAlert(r, ops[..n]);
    } else {
      NoFirings(r, ops[..n]);
      forall i | 0 <= i < n ensures !FiresAt(r, ops, i) {
        FiresInPrefix(r, ops, n, i);
      }
      FiresExactly(r, ops, n);
    }
  }

  lemma {:induction false} NoFirings(r: Rule, ops: seq<Op>)
    requires FireTimes(r, ops) == []
    ensures forall i :: 0 <= i < |ops| ==> !FiresAt(r, ops, i)
  {
    hide FiresAt;
    if ops != [] {
      var n := |ops| - 1;
      NoFirings(r, ops[..n]);
      forall i | 0 <= i < n ensures !FiresAt(r, ops, i) {
        FiresInPrefix(r, ops, n, i);
      }
    }
  }

  // ---- what a firing alert says ----------------------------------------------------------------------------

  ghost predicate Grown(a: seq<Alert>, b: seq<Alert>) {
    && |a| <= |b|
    && forall i :: 0 <= i < |a| ==>
         && a[i].ruleId == b[i].ruleId && a[i].triggeredAt == b[i].triggeredAt
         && (b[i].status.Firing? ==> a[i].status.Firing?)
  }

  /** Every alert of the rule from position n on was fired by this operation, by the state w of the rule. */
  ghost predicate FreshOnes(history: seq<Alert>, n: nat, w: Own, r: Rule, op: Op) {
    forall i :: n <= i < |history| && history[i].ruleId == r.id ==>
      OwnFires(w, r, op) && history[i].triggeredAt == op.now
  }

  ghost predicate NoneFiring(history: seq<Alert>, id: string) {
    forall i :: 0 <= i < |history| && history[i].ruleId == id ==> !history[i].status.Firing?
  }

  lemma StepGrows(s: State, r: Rule, op: Op)
    requires op.Evaluate?
    ensures Grown(s.history, RuleStep(s, r, op).history)
    ensures forall i :: |s.history| <= i < |RuleStep(s, r, op).history| ==> RuleStep(s, r, op).history[i].ruleId == r.id
    ensures FreshOnes(RuleStep(s, r, op).history, |s.history|, OwnOf(s, r.id), r, op)
    ensures Concerns(r, op) && !Met(r, op.value) ==> NoneFiring(RuleStep(s, r, op).history, r.id)
  {
  }

  lemma {:induction false} OthersGrow(s: State, rules: seq<Rule>, op: Op, id: string)
    requires op.Evaluate? && forall i :: 0 <= i < |rules| ==> rules[i].id != id
    ensures Grown(s.history, RuleSteps(s, rules, op).history)
    ensures forall i :: |s.history| <= i < |RuleSteps(s, rules, op).history| ==>
      RuleSteps(s, rules, op).history[i].ruleId != id
  {
    hide RuleStep, FreshOnes, NoneFiring;
    if rules != [] {
      OthersGrow(s, rules[..|rules| - 1], op, id);
      StepGrows(RuleSteps(s, rules[..|rules| - 1], op), rules[|rules| - 1], op);
    }
  }

  lemma {:induction false} RuleStepsGrow(s: State, rules: seq<Rule>, op: Op, k: nat)
    requires op.Evaluate? && DistinctIds(rules) && k < |rules|
    ensures var t := RuleSteps(s, rules, op).history;
      && Grown(s.history, t) && FreshOnes(t, |s.history|, OwnOf(s, rules[k].id), rules[k], op)
      && (Concerns(rules[k], op) && !Met(rules[k], op.value) ==> NoneFiring(t, rules[k].id))
  {
    hide RuleStep, OwnFires, OwnOf;
    var n := |rules| - 1;
    var front := RuleSteps(s, rules[..n], op);
    StepGrows(front, rules[n], op);
    if k < n {
      RuleStepsGrow(s, rules[..n], op, k);
    } else {
      OthersGrow(s, rules[..n], op, rules[n].id);
      RuleStepsOther(s, rules[..n], op, rules[n].id);
    }
  }

  ghost predicate StillMet(r: Rule, ops: seq<Op>, t: real) {
    exists j :: 0 <= j < |ops| && FiresAt(r, ops, j) && ops[j].now == t && HoldsFrom(r, ops, j, |ops|)
  }

  lemma StillMetStays(r: Rule, ops: seq<Op>, t: real)
    requires ops != [] && StillMet(r, ops[..|ops| - 1], t) && Holds(r, ops[|ops| - 1])
    ensures StillMet(r, ops, t)
  {
    var n := |ops| - 1;
    hide FiresAt;
    FiringEvaluates(r, ops[..n]);
    var j :| 0 <= j < n && FiresAt(r, ops[..n], j) && ops[..n][j].now == t && HoldsFrom(r, ops[..n], j, n);
    FiresInPrefix(r, ops, n, j);
    forall k | j <= k < |ops| ensures Holds(r, ops[k]) {
      assert k < n ==> ops[..n][k] == ops[k];
    }
    FiringEvaluates(r, ops);
    assert HoldsFrom(r, ops, j, |ops|);
  }

  /** An alert still firing was fired at a time since which every evaluation of its metric found the condition true. */
  lemma {:induction false} FiringMeansMet(rules: seq<Rule>, ops: seq<Op>, k: nat)
    requires DistinctIds(rules) && k < |rules|
    ensures var history := After(rules, ops).history;
      forall i :: i in FiringAlerts(history) && history[i].ruleId == rules[k].id ==>
        StillMet(rules[k], ops, history[i].triggeredAt)
  {
    if ops != [] {
      var n := |ops| - 1;
      var front, op, r := After(rules, ops[..n]), ops[n], rules[k];
      FiringMeansMet(rules, ops[..n], k);
      if op.Evaluate? {
        RuleStepsGrow(front, rules, op, k);
        AlertsAreFirings(rules, ops[..n], k);
      }
      hide RuleSteps, StillMet, OwnOf, OwnFires, OwnAfter;
      var now := After(rules, ops).history;
      forall i | i in FiringAlerts(now) && now[i].ruleId == r.id ensures StillMet(r, ops, now[i].triggeredAt) {
        if i < |front.history| {
          assert i in FiringAlerts(front.history);
          StillMetStays(r, ops, now[i].triggeredAt);
        } else {
          JustFired(r, ops);
        }
      }
    }
  }

  lemma JustFired(r: Rule, ops: seq<Op>)
    requires ops != [] && OwnFires(OwnAfter(r, ops[..|ops| - 1]), r, ops[|ops| - 1])
    ensures StillMet(r, ops, ops[|ops| - 1].now)
  {
    assert FiresAt(r, ops, |ops| - 1) && HoldsFrom(r, ops, |ops| - 1, |ops|);
  }
}
