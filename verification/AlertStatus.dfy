/** The status of every alert, in every run of the alert manager. */
module AlertStatus {
  import opened Prelude
  import opened AlertManagers
  import opened AlertRuns

  /** The operation evaluates some rule of that id and finds its condition false. */
  ghost predicate Ends(rules: seq<Rule>, op: Op, id: string) {
    op.Evaluate? && exists k :: 0 <= k < |rules| && rules[k].id == id && FoundFalse(rules[k], op)
  }

  predicate FoundFalse(r: Rule, op: Op) {
    op.Evaluate? && r.enabled && r.metric == op.metric && !Met(r, op.value)
  }

  predicate Marks(op: Op, i: nat) {
    (op.Resolve? || op.Silence?) && op.alert == i
  }

  /** What an operation does to an alert that is there: evaluating resolves it if it is FIRING and its rule's condition
      is found false; `resolve` and `silence` change it unless it is resolved already; nothing else touches it. */
  ghost predicate Moves(rules: seq<Rule>, op: Op, i: nat, a: Alert, b: Alert) {
    && b == a.(status := b.status)
    && b.status ==
         if op.Resolve? && op.alert == i then Resolved
         else if op.Silence? && op.alert == i && !a.status.Resolved? then Silenced
         else if a.status.Firing? && Ends(rules, op, a.ruleId) then Resolved
         else a.status
  }

  lemma RuleMoves(s: State, r: Rule, op: Op, i: nat)
    requires op.Evaluate? && i < |s.history|
    ensures var t := RuleStep(s, r, op).history;
      && i < |t| <= |s.history| + 1
      && t[i] == s.history[i].(status := t[i].status)
      && t[i].status ==
           (if s.history[i].status.Firing? && s.history[i].ruleId == r.id && FoundFalse(r, op) then Resolved
            else s.history[i].status)
      && (|t| > |s.history| ==> t[|s.history|] == Alert(r.id, Firing, op.value, op.now))
  {
  }

  lemma {:induction false} RulesMove(s: State, rules: seq<Rule>, op: Op, i: nat)
    requires op.Evaluate? && i < |s.history|
    ensures var t := RuleSteps(s, rules, op).history;
      i < |t| && Moves(rules, op, i, s.history[i], t[i])
  {
    if rules != [] {
      var n := |rules| - 1;
      var front := RuleSteps(s, rules[..n], op);
      RulesMove(s, rules[..n], op, i);
      RuleMoves(front, rules[n], op, i);
      var id := s.history[i].ruleId;
      hide RuleStep, FoundFalse;
      assert Ends(rules, op, id) <==> Ends(rules[..n], op, id) || (rules[n].id == id && FoundFalse(rules[n], op)) by {
        if Ends(rules, op, id) {
          var k :| 0 <= k < |rules| && rules[k].id == id && FoundFalse(rules[k], op);
          assert k < n ==> rules[..n][k] == rules[k];
        }
      }
    }
  }

  /** Every alert, at every operation. */
  lemma StatusStep(s: State, rules: seq<Rule>, op: Op, i: nat)
    requires i < |s.history|
    ensures i < |Step(s, rules, op).history| && Moves(rules, op, i, s.history[i], Step(s, rules, op).history[i])
  {
    if op.Evaluate? {
      RulesMove(s, rules, op, i);
    }
  }

  // ---- when an alert is FIRING ------------------------------------------------------------------------------

  lemma DistinctFront(rules: seq<Rule>)
    requires DistinctIds(rules) && rules != []
    ensures DistinctIds(Front(rules)) && forall k :: 0 <= k < |rules| - 1 ==> rules[k].id != Last(rules).id
  {
  }

  lemma OwnStep(s: State, r: Rule, op: Op)
    requires op.Evaluate?
    ensures |RuleStep(s, r, op).history| > |s.history| <==> OwnFires(OwnOf(s, r.id), r, op)
  {
  }

  /** With distinct ids, the alerts that an evaluation adds are FIRING, one for a rule that fires on its own. */
  lemma {:induction false} NewAlerts(s: State, rules: seq<Rule>, op: Op, i: nat) returns (k: nat)
    requires op.Evaluate? && DistinctIds(rules) && |s.history| <= i < |RuleSteps(s, rules, op).history|
    ensures k < |rules| && OwnFires(OwnOf(s, rules[k].id), rules[k], op)
    ensures RuleSteps(s, rules, op).history[i] == Alert(rules[k].id, Firing, op.value, op.now)
  {
    hide RuleStep, OwnFires, OwnOf, FoundFalse;
    var n := |rules| - 1;
    var front := RuleSteps(s, Front(rules), op);
    DistinctFront(rules);
    if i < |front.history| {
      k := NewAlerts(s, Front(rules), op, i);
      RuleMoves(front, rules[n], op, i);
    } else {
      k := n;
      OwnStep(front, rules[n], op);
      RuleStepsOther(s, Front(rules), op, rules[n].id);
      NewLast(front, rules[n], op);
    }
  }

  lemma NewLast(s: State, r: Rule, op: Op)
    requires op.Evaluate? && |RuleStep(s, r, op).history| > |s.history|
    ensures RuleStep(s, r, op).history == s.history + [Alert(r.id, Firing, op.value, op.now)]
  {
  }

  lemma EndsIsFoundFalse(rules: seq<Rule>, op: Op, k: nat)
    requires DistinctIds(rules) && k < |rules|
    ensures Ends(rules, op, rules[k].id) <==> !Holds(rules[k], op)
  {
    hide Met;
    if !Holds(rules[k], op) {
      assert rules[k].id == rules[k].id && FoundFalse(rules[k], op);
    }
  }

  /** Since it was fired by ops[n], every evaluation of the rule's metric found the condition true, and nobody resolved
      or silenced the alert. */
  ghost predicate Undisturbed(r: Rule, ops: seq<Op>, n: nat, i: nat) {
    forall j :: n < j < |ops| ==> Holds(r, ops[j]) && !Marks(ops[j], i)
  }

  /** The alert at position i was added by ops[n]. */
  predicate AddedBy(rules: seq<Rule>, ops: seq<Op>, n: nat, i: nat)
    requires n < |ops|
  {
    |After(rules, ops[..n]).history| <= i < |After(rules, ops[..n + 1]).history|
  }

  /** In every run: an alert was added because its rule fired at that moment, keeps rule, value and time for ever,
      and is FIRING exactly as long as every evaluation of its metric finds the condition true and nobody resolves
      or silences it. */
  lemma {:induction false} FiringExactly(rules: seq<Rule>, ops: seq<Op>, n: nat, i: nat) returns (k: nat)
    requires DistinctIds(rules) && n < |ops| && AddedBy(rules, ops, n, i)
    ensures k < |rules| && FiresAt(rules[k], ops, n) && ops[n].Evaluate?
    ensures i < |After(rules, ops).history|
    ensures var a := After(rules, ops).history[i];
      && a.ruleId == rules[k].id && a.metricValue == ops[n].value && a.triggeredAt == ops[n].now
      && (a.status.Firing? <==> Undisturbed(rules[k], ops, n, i))
  {
    hide RuleSteps, OwnFires, OwnOf, Holds, Marks, Ends;
    var m := |ops| - 1;
    var before, op := After(rules, ops[..m]), ops[m];
    assert ops[..m + 1] == ops;
    if n == m {
      assert op.Evaluate? by {
        assert !op.Evaluate? ==> |Step(before, rules, op).history| == |before.history|;
      }
      k := NewAlerts(before, rules, op, i);
      AlertsAreFirings(rules, ops[..m], k);
    } else {
      assert ops[..m][..n] == ops[..n] && ops[..m][..n + 1] == ops[..n + 1];
      k := FiringExactly(rules, ops[..m], n, i);
      FiresInPrefix(rules[k], ops, m, n);
      StatusStep(before, rules, op, i);
      EndsIsFoundFalse(rules, op, k);
      UndisturbedMore(rules[k], ops, n, i);
      MarksMeaning(op, i);
    }
  }

  lemma MarksMeaning(op: Op, i: nat)
    ensures Marks(op, i) <==> (op.Resolve? && op.alert == i) || (op.Silence? && op.alert == i)
  {
  }

  lemma UndisturbedMore(r: Rule, ops: seq<Op>, n: nat, i: nat)
    requires n < |ops| - 1
    ensures Undisturbed(r, ops, n, i) <==>
      Undisturbed(r, ops[..|ops| - 1], n, i) && Holds(r, ops[|ops| - 1]) && !Marks(ops[|ops| - 1], i)
  {
    hide Holds, Marks;
    var m := |ops| - 1;
    assert forall j :: 0 <= j < m ==> ops[..m][j] == ops[j];
    if Undisturbed(r, ops[..m], n, i) && Holds(r, ops[m]) && !Marks(ops[m], i) {
      forall j | n < j < |ops| ensures Holds(r, ops[j]) && !Marks(ops[j], i) {
        if j < m {
          assert Holds(r, ops[..m][j]) && !Marks(ops[..m][j], i);
        }
      }
    }
    if Undisturbed(r, ops, n, i) {
      forall j | n < j < m ensures Holds(r, ops[..m][j]) && !Marks(ops[..m][j], i) {
        assert Holds(r, ops[j]) && !Marks(ops[j], i);
      }
    }
  }

  /** And every alert was added by some operation. */
  lemma {:induction false} AddedSomewhere(rules: seq<Rule>, ops: seq<Op>, i: nat) returns (n: nat)
    requires i < |After(rules, ops).history|
    ensures n < |ops| && AddedBy(rules, ops, n, i)
  {
    hide Step;
    var m := |ops| - 1;
    assert ops[..m + 1] == ops;
    if i < |After(rules, ops[..m]).history| {
      n := AddedSomewhere(rules, ops[..m], i);
      assert ops[..m][..n] == ops[..n] && ops[..m][..n + 1] == ops[..n + 1];
    } else {
      n := m;
    }
  }
}
