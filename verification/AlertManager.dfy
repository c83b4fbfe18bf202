/** swarm/observability/alert_manager.py: alert rules with a duration and a cooldown. An alert is one object, held
    by the history and by the active alerts, so it is modelled by its position in the history, which also stands for
    its random id. The rules are fixed, and one `evaluate` reads the clock once. */
module AlertManagers {
  import opened Prelude

  datatype Rule = Rule(
    id: string, metric: string, condition: string, threshold: real, duration: int, enabled: bool, cooldown: int)

  datatype Status = Firing | Resolved | Silenced

  datatype Alert = Alert(ruleId: string, status: Status, metricValue: real, triggeredAt: real)

  /** When the condition of a rule began to hold, when the rule last fired, and every alert so far. */
  datatype State = State(start: map<string, real>, last: map<string, real>, history: seq<Alert>)

  datatype Op = Evaluate(metric: string, value: real, now: real) | Resolve(alert: nat) | Silence(alert: nat)

  predicate Met(r: Rule, value: real) {
    match r.condition
    case "gt" => value > r.threshold
    case "lt" => value < r.threshold
    case "eq" => value == r.threshold
    case "ne" => value != r.threshold
    case "gte" => value >= r.threshold
    case "lte" => value <= r.threshold
    case _ => false
  }

  /** The active alerts, which are exactly those not resolved. */
  function Active(history: seq<Alert>): set<nat> {
    set i | 0 <= i < |history| && !history[i].status.Resolved?
  }

  function FiringAlerts(history: seq<Alert>): set<nat> {
    set i | 0 <= i < |history| && history[i].status.Firing?
  }

  function Close(a: Alert, ruleId: string): Alert {
    if a.ruleId == ruleId && a.status.Firing? then a.(status := Resolved) else a
  }

  function CloseAll(history: seq<Alert>, ruleId: string): (r: seq<Alert>)
    ensures |r| == |history| && forall i :: 0 <= i < |r| ==> r[i] == Close(history[i], ruleId)
  {
    seq(|history|, i requires 0 <= i < |history| => Close(history[i], ruleId))
  }

  predicate CoolSince(last: map<string, real>, r: Rule, now: real) {
    now - Get(last, r.id, 0.0) >= r.cooldown as real
  }

  predicate Fires(s: State, r: Rule, op: Op) {
    && op.Evaluate? && r.enabled && r.metric == op.metric && Met(r, op.value)
    && (r.duration != 0 ==> r.id in s.start && op.now - s.start[r.id] >= r.duration as real)
    && CoolSince(s.last, r, op.now)
  }

  /** What `evaluate` does for one rule. */
  function RuleStep(s: State, r: Rule, op: Op): State
    requires op.Evaluate?
  {
    if !r.enabled || r.metric != op.metric then s
    else if !Met(r, op.value) then State(s.start - {r.id}, s.last, CloseAll(s.history, r.id))
    else if Fires(s, r, op) then
      State(s.start, s.last[r.id := op.now], s.history + [Alert(r.id, Firing, op.value, op.now)])
    else if r.duration != 0 && r.id !in s.start then s.(start := s.start[r.id := op.now])
    else s
  }

  function RuleSteps(s: State, rules: seq<Rule>, op: Op): State
    requires op.Evaluate?
  {
    if rules == [] then s else RuleStep(RuleSteps(s, rules[..|rules| - 1], op), rules[|rules| - 1], op)
  }

  /** Setting the status of an active alert. */
  function Marked(s: State, alert: nat, status: Status): State {
    if alert in Active(s.history) then s.(history := s.history[alert := s.history[alert].(status := status)]) else s
  }

  function Step(s: State, rules: seq<Rule>, op: Op): State {
    match op
    case Evaluate(_, _, _) => RuleSteps(s, rules, op)
    case Resolve(alert) => Marked(s, alert, Resolved)
    case Silence(alert) => Marked(s, alert, Silenced)
  }

  class AlertManager {
    const rules: seq<Rule>
    var conditionStart: map<string, real>
    var lastFired: map<string, real>
    var alertHistory: seq<Alert>
    var activeAlerts: set<nat>
    var totalAlerts: nat
    var firingAlerts: nat

    function Now(): State
      reads this
    {
      State(conditionStart, lastFired, alertHistory)
    }

    ghost predicate Valid()
      reads this
    {
      && activeAlerts == Active(alertHistory)
      && totalAlerts == |alertHistory|
      && firingAlerts == |FiringAlerts(alertHistory)|
    }

    constructor (rules: seq<Rule>)
      ensures Valid() && this.rules == rules && Now() == State(map[], map[], [])
    {
      this.rules := rules;
      conditionStart, lastFired, alertHistory := map[], map[], [];
      activeAlerts, totalAlerts, firingAlerts := {}, 0, 0;
    }

    method Evaluate(metric: string, value: real, now: real) returns (triggered: seq<nat>)
      requires Valid()
      modifies this
      ensures Valid() && Now() == Step(old(Now()), rules, Op.Evaluate(metric, value, now))
      ensures |old(alertHistory)| <= |alertHistory|
      ensures triggered == seq(|alertHistory| - |old(alertHistory)|, i => |old(alertHistory)| + i)
    {
      triggered := [];
      ghost var op := Op.Evaluate(metric, value, now);
      for i := 0 to |rules|
        invariant Valid() && Now() == RuleSteps(old(Now()), rules[..i], op)
        invariant |old(alertHistory)| <= |alertHistory|
        invariant triggered == seq(|alertHistory| - |old(alertHistory)|, i => |old(alertHistory)| + i)
      {
        var r := rules[i];
        assert rules[..i + 1][..i] == rules[..i];
        if !r.enabled || r.metric != metric {
          continue;
        }
        if Met(r, value) {
          if r.duration == 0 {
            if now - Get(lastFired, r.id, 0.0) >= r.cooldown as real {
              var alert := FireAlert(r, value, now);
              triggered := triggered + [alert];
              lastFired := lastFired[r.id := now];
            }
            continue;
          }
          if r.id !in conditionStart {
            conditionStart := conditionStart[r.id := now];
            continue;
          }
          if now - conditionStart[r.id] < r.duration as real {
            continue;
          }
          if now - Get(lastFired, r.id, 0.0) < r.cooldown as real {
            continue;
          }
          var alert := FireAlert(r, value, now);
          triggered := triggered + [alert];
          lastFired := lastFired[r.id := now];
        } else {
          conditionStart := conditionStart - {r.id};
          TryResolve(r.id);
        }
      }
      assert rules[..|rules|] == rules;
    }

    method FireAlert(r: Rule, value: real, now: real) returns (alert: nat)
      requires Valid()
      modifies this`alertHistory, this`activeAlerts, this`totalAlerts, this`firingAlerts
      ensures Valid() && alert == |old(alertHistory)|
      ensures alertHistory == old(alertHistory) + [Alert(r.id, Firing, value, now)]
    {
      alert := |alertHistory|;
      alertHistory := alertHistory + [Alert(r.id, Firing, value, now)];
      activeAlerts := activeAlerts + {alert};
      totalAlerts := totalAlerts + 1;
      firingAlerts := |FiringAlerts(alertHistory)|;
    }

    method TryResolve(ruleId: string)
      requires Valid()
      modifies this`alertHistory, this`activeAlerts, this`firingAlerts
      ensures Valid() && alertHistory == CloseAll(old(alertHistory), ruleId)
      ensures forall i :: 0 <= i < |alertHistory| ==>
        var a := old(alertHistory)[i];
        alertHistory[i] == if a.ruleId == ruleId && a.status == Firing then a.(status := Resolved) else a
    {
      var todo := activeAlerts;
      while todo != {}
        invariant Valid() && |alertHistory| == |old(alertHistory)| && todo <= Active(old(alertHistory))
        invariant forall i :: 0 <= i < |alertHistory| ==>
          alertHistory[i] == if i in todo then old(alertHistory)[i] else Close(old(alertHistory)[i], ruleId)
        decreases todo
      {
        var alert :| alert in todo;
        if alertHistory[alert].ruleId == ruleId && alertHistory[alert].status.Firing? {
          SetStatus(alert, Resolved);
        }
        todo := todo - {alert};
      }
    }

    /** Setting the status of one active alert, which leaves the table when resolved, and counting again. */
    method SetStatus(alert: nat, status: Status)
      requires Valid() && alert in activeAlerts && !status.Firing?
      modifies this`alertHistory, this`activeAlerts, this`firingAlerts
      ensures Valid() && alertHistory == old(alertHistory)[alert := old(alertHistory)[alert].(status := status)]
    {
      alertHistory := alertHistory[alert := alertHistory[alert].(status := status)];
      if status.Resolved? {
        activeAlerts := activeAlerts - {alert};
      }
      firingAlerts := |FiringAlerts(alertHistory)|;
    }

    method ResolveAlert(alert: nat) returns (ok: bool)
      requires Valid()
      modifies this`alertHistory, this`activeAlerts, this`firingAlerts
      ensures Valid() && (ok <==> alert in old(activeAlerts)) && Now() == Step(old(Now()), rules, Resolve(alert))
    {
      if alert !in activeAlerts {
        return false;
      }
      SetStatus(alert, Resolved);
      return true;
    }

    method SilenceAlert(alert: nat) returns (ok: bool)
      requires Valid()
      modifies this`alertHistory, this`activeAlerts, this`firingAlerts
      ensures Valid() && (ok <==> alert in old(activeAlerts)) && Now() == Step(old(Now()), rules, Silence(alert))
    {
      if alert !in activeAlerts {
        return false;
      }
      SetStatus(alert, Silenced);
      return true;
    }
  }
}
