/** swarm/resilience/recovery_engine.py: ordering the steps of a recovery plan. */
module RecoveryPlan {
  import opened Prelude
  import opened Walks

  datatype Step = Step(id: string, name: string, action: string, target: string, timeoutSeconds: real,
                       dependsOn: seq<string>)

  datatype PlanError =
    | UnknownDependency(step: string, dep: string)
    | DependencyCycle(stuck: seq<Step>)

  predicate IsReady(step: Step, completed: set<string>) {
    forall d :: d in step.dependsOn ==> d in completed
  }

  function Ids(steps: seq<Step>): set<string> {
    set s | s in steps :: s.id
  }

  ghost predicate DependenciesKnown(steps: seq<Step>) {
    forall s, d :: s in steps && d in s.dependsOn ==> d in Ids(steps)
  }

  ghost predicate DistinctIds(steps: seq<Step>) {
    forall i, j :: 0 <= i < j < |steps| ==> steps[i].id != steps[j].id
  }

  /** Every step comes after all the steps it depends on. */
  ghost predicate DependencyOrdered(steps: seq<Step>) {
    forall k :: 0 <= k < |steps| ==> IsReady(steps[k], Ids(steps[..k]))
  }

  ghost function PlanGraph(steps: seq<Step>): Graph {
    set s, d | s in steps && d in s.dependsOn :: (d, s.id)
  }

  // ---- the algorithm as a function ---------------------------------------------------------------

  /** `list.remove`: drops the first equal element. */
  function RemoveFirst(steps: seq<Step>, step: Step): (r: seq<Step>)
    ensures step in steps ==> |r| == |steps| - 1
    ensures step in steps ==> multiset(r) == multiset(steps) - multiset{step}
    ensures step !in steps ==> r == steps
  {
    if steps == [] then []
    else if steps[0] == step then
      assert steps == [steps[0]] + steps[1..];
      steps[1..]
    else
      assert steps == [steps[0]] + steps[1..];
      [steps[0]] + RemoveFirst(steps[1..], step)
  }

  datatype Sorting = Sorting(remaining: seq<Step>, completed: set<string>, ordered: seq<Step>)

  function Take(s: Sorting, step: Step): Sorting {
    Sorting(RemoveFirst(s.remaining, step), s.completed + {step.id}, s.ordered + [step])
  }

  /** One pass over a snapshot of the remaining steps. */
  function RunPass(snapshot: seq<Step>, s: Sorting): Sorting {
    if snapshot == [] then s else
      var before := RunPass(snapshot[..|snapshot| - 1], s);
      var step := snapshot[|snapshot| - 1];
      if IsReady(step, before.completed) then Take(before, step) else before
  }

  function Passes(s: Sorting): Result<seq<Step>, PlanError>
    decreases |s.remaining|
  {
    if s.remaining == [] then Ok(s.ordered) else
      var after := RunPass(s.remaining, s);
      if |after.remaining| < |s.remaining| then Passes(after) else Err(DependencyCycle(after.remaining))
  }

  function Start(steps: seq<Step>): Sorting {
    Sorting(steps, {}, [])
  }

  // ---- what every pass keeps ---------------------------------------------------------------------

  ghost predicate Sound(steps: seq<Step>, s: Sorting) {
    && multiset(s.ordered) + multiset(s.remaining) == multiset(steps)
    && s.completed == Ids(s.ordered)
    && DependencyOrdered(s.ordered)
  }

  lemma TakeSound(steps: seq<Step>, s: Sorting, step: Step)
    requires Sound(steps, s) && step in s.remaining && IsReady(step, s.completed)
    ensures Sound(steps, Take(s, step))
  {
    OrderedAppend(s.ordered, step);
    hide Ids, DependencyOrdered, IsReady, RemoveFirst;
  }

  lemma OrderedAppend(ordered: seq<Step>, step: Step)
    requires DependencyOrdered(ordered) && IsReady(step, Ids(ordered))
    ensures DependencyOrdered(ordered + [step]) && Ids(ordered + [step]) == Ids(ordered) + {step.id}
  {
    var longer := ordered + [step];
    forall k | 0 <= k < |longer| ensures IsReady(longer[k], Ids(longer[..k])) {
      assert longer[..k] == ordered[..k];
      assert ordered[..|ordered|] == ordered;
    }
  }

  lemma StartSound(steps: seq<Step>)
    ensures Sound(steps, Start(steps))
  {
  }

  /** A pass keeps soundness; a step it left behind was not ready when the pass began. */
  lemma {:induction false} PassSound(steps: seq<Step>, snapshot: seq<Step>, s: Sorting)
    requires Sound(steps, s) && multiset(snapshot) <= multiset(s.remaining)
    ensures var t := RunPass(snapshot, s);
            && Sound(steps, t)
            && s.completed <= t.completed
            && multiset(s.remaining) - multiset(snapshot) <= multiset(t.remaining)
            && |t.remaining| <= |s.remaining|
    ensures var t := RunPass(snapshot, s);
            |t.remaining| == |s.remaining| ==> t == s && forall x :: x in snapshot ==> !IsReady(x, s.completed)
  {
    if snapshot != [] {
      var front := snapshot[..|snapshot| - 1];
      var step := snapshot[|snapshot| - 1];
      assert snapshot == front + [step];
      PassSound(steps, front, s);
      var before := RunPass(front, s);
      assert multiset(before.remaining)[step] > 0;
      assert step in before.remaining;
      if IsReady(step, before.completed) {
        TakeSound(steps, before, step);
      }
    }
  }

  lemma {:induction false} PassesSound(steps: seq<Step>, s: Sorting)
    requires Sound(steps, s)
    ensures Passes(s).Ok? ==> multiset(Passes(s).value) == multiset(steps) && DependencyOrdered(Passes(s).value)
    ensures Passes(s).Err? ==> exists t :: Sound(steps, t) && t.remaining != []
                                           && Passes(s).error == DependencyCycle(t.remaining)
                                           && forall x :: x in t.remaining ==> !IsReady(x, t.completed)
    decreases |s.remaining|
  {
    if s.remaining != [] {
      PassSound(steps, s.remaining, s);
      var after := RunPass(s.remaining, s);
      if |after.remaining| < |s.remaining| {
        PassesSound(steps, after);
      }
    }
  }

  // ---- completeness ------------------------------------------------------------------------------

  lemma StepOf(steps: seq<Step>, id: string) returns (s: Step)
    requires id in Ids(steps)
    ensures s in steps && s.id == id
  {
    s :| s in steps && s.id == id;
  }

  lemma SameMembers(a: seq<Step>, b: seq<Step>)
    requires multiset(a) == multiset(b)
    ensures forall x :: x in a <==> x in b
    ensures Ids(a) == Ids(b) && PlanGraph(a) == PlanGraph(b)
  {
    forall x ensures x in a <==> x in b {
      assert x in multiset(a) <==> x in multiset(b);
    }
  }

  /** An unready step that is left over depends on another left-over step. */
  lemma StuckDependency(steps: seq<Step>, t: Sorting, s: Step) returns (d: string)
    requires DependenciesKnown(steps) && Sound(steps, t)
    requires s in t.remaining && !IsReady(s, t.completed)
    ensures d in Ids(t.remaining) && (d, s.id) in PlanGraph(steps)
  {
    LeftOver(steps, t);
    d :| d in s.dependsOn && d !in t.completed;
    var u := StepOf(steps, d);
  }

  lemma LeftOver(steps: seq<Step>, t: Sorting)
    requires Sound(steps, t)
    ensures forall x :: x in steps <==> x in t.ordered || x in t.remaining
  {
    forall x ensures x in steps <==> x in t.ordered || x in t.remaining {
      assert x in multiset(steps) <==> x in multiset(t.ordered) + multiset(t.remaining);
    }
  }

  /** Left-over steps that are all unready contain a cycle. */
  lemma StuckMeansCycle(steps: seq<Step>, t: Sorting)
    requires DependenciesKnown(steps)
    requires Sound(steps, t) && t.remaining != []
    requires forall x :: x in t.remaining ==> !IsReady(x, t.completed)
    ensures CycleFrom(PlanGraph(steps), Ids(steps))
  {
    forall b | b in Ids(t.remaining) ensures HasEdgeInto(PlanGraph(steps), Ids(t.remaining), b) {
      var s := StepOf(t.remaining, b);
      var d := StuckDependency(steps, t, s);
    }
    LeftOver(steps, t);
    ClosedSetHasCycle(PlanGraph(steps), Ids(t.remaining), t.remaining[0].id, Ids(steps));
  }

  /** An ordered list of steps with distinct ids is a topological order of their ids. */
  lemma OrderedHasNoCycle(ordered: seq<Step>)
    requires DependencyOrdered(ordered) && DistinctIds(ordered)
    ensures !CycleFrom(PlanGraph(ordered), Ids(ordered))
  {
    var order := seq(|ordered|, i requires 0 <= i < |ordered| => ordered[i].id);
    forall a, j | 0 <= j < |order| && (a, order[j]) in PlanGraph(ordered) ensures a in order[..j] {
      var s :| s in ordered && a in s.dependsOn && s.id == order[j];
      var k :| 0 <= k < |ordered| && ordered[k] == s;
      assert k == j;
      assert IsReady(ordered[j], Ids(ordered[..j]));
      var u := StepOf(ordered[..j], a);
      var m :| 0 <= m < j && ordered[m] == u;
      assert order[..j][m] == a;
    }
    forall r | r in Ids(ordered) ensures r in order {
      var s := StepOf(ordered, r);
      var k :| 0 <= k < |ordered| && ordered[k] == s;
      assert order[k] == r;
    }
    TopologicalHasNoCycle(PlanGraph(ordered), order, Ids(ordered));
  }

  /** Rearranging steps keeps their ids distinct. */
  lemma DistinctIdsPermuted(a: seq<Step>, b: seq<Step>)
    requires multiset(a) == multiset(b) && DistinctIds(a)
    ensures DistinctIds(b)
  {
    SameMembers(a, b);
    forall i, j | 0 <= i < j < |b| ensures b[i].id != b[j].id {
      if b[i].id == b[j].id {
        assert b[i] in a && b[j] in a;
        assert b[i] == b[j];
        TwoCopies(b, i, j);
        SingleCopy(a, b[i]);
      }
    }
  }

  lemma TwoCopies(s: seq<Step>, i: nat, j: nat)
    requires i < j < |s| && s[i] == s[j]
    ensures multiset(s)[s[i]] >= 2
  {
    assert s == s[..j] + [s[j]] + s[j + 1..];
    assert s[i] in s[..j];
  }

  lemma {:induction false} SingleCopy(s: seq<Step>, x: Step)
    requires DistinctIds(s)
    ensures multiset(s)[x] <= 1
  {
    if s != [] {
      var front := s[..|s| - 1];
      SingleCopy(front, x);
      assert s == front + [s[|s| - 1]];
      assert forall k :: 0 <= k < |front| ==> front[k] == s[k] && s[k].id != s[|s| - 1].id;
    }
  }

  // ---- main results ------------------------------------------------------------------------------

  /** With known dependencies the passes either order all the steps or the plan has a cycle, and for
      distinct ids they succeed exactly when it has none. */
  lemma PassesComplete(steps: seq<Step>)
    requires DependenciesKnown(steps)
    ensures var r := Passes(Start(steps));
            && (r.Ok? ==> multiset(r.value) == multiset(steps) && DependencyOrdered(r.value))
            && (r.Err? ==> CycleFrom(PlanGraph(steps), Ids(steps)))
            && (DistinctIds(steps) ==> (r.Ok? <==> !CycleFrom(PlanGraph(steps), Ids(steps))))
  {
    var r := Passes(Start(steps));
    PassesSound(steps, Start(steps));
    if r.Err? {
      var t :| Sound(steps, t) && t.remaining != [] && r.error == DependencyCycle(t.remaining)
               && forall x :: x in t.remaining ==> !IsReady(x, t.completed);
      StuckMeansCycle(steps, t);
    } else if DistinctIds(steps) {
      SameMembers(steps, r.value);
      DistinctIdsPermuted(steps, r.value);
      OrderedHasNoCycle(r.value);
    }
  }

  /** A pass over ordered steps takes each of them in turn. */
  lemma {:induction false} OrderedPass(steps: seq<Step>, k: nat)
    requires DependencyOrdered(steps) && k <= |steps|
    ensures RunPass(steps[..k], Start(steps)) == Sorting(steps[k..], Ids(steps[..k]), steps[..k])
  {
    if k > 0 {
      OrderedPass(steps, k - 1);
      assert IsReady(steps[k - 1], Ids(steps[..k - 1]));
      OneMoreStep(steps, k);
      hide Ids, DependencyOrdered, IsReady, RemoveFirst;
    }
  }

  lemma OneMoreStep(steps: seq<Step>, k: nat)
    requires 0 < k <= |steps|
    ensures steps[..k][..k - 1] == steps[..k - 1] && steps[..k] == steps[..k - 1] + [steps[k - 1]]
    ensures RemoveFirst(steps[k - 1..], steps[k - 1]) == steps[k..]
    ensures Ids(steps[..k]) == Ids(steps[..k - 1]) + {steps[k - 1].id}
  {
    assert steps[k - 1..][0] == steps[k - 1] && steps[k - 1..][1..] == steps[k..];
  }

  /** A plan already in dependency order comes back unchanged. */
  lemma OrderedIsFixed(steps: seq<Step>)
    requires DependencyOrdered(steps)
    ensures Passes(Start(steps)) == Ok(steps)
  {
    OrderedPass(steps, |steps|);
    assert steps[..|steps|] == steps;
  }

  /** Sorting a sorted plan changes nothing. */
  lemma SortingIsIdempotent(steps: seq<Step>)
    requires Passes(Start(steps)).Ok?
    ensures Passes(Start(Passes(Start(steps)).value)) == Passes(Start(steps))
  {
    PassesSound(steps, Start(steps));
    OrderedIsFixed(Passes(Start(steps)).value);
  }

  class RecoveryPlan {
    var steps: seq<Step>

    constructor (steps: seq<Step>)
      ensures this.steps == steps
    {
      this.steps := steps;
    }

    method AddStep(step: Step)
      modifies this
      ensures steps == old(steps) + [step]
    {
      steps := steps + [step];
    }

    /** Fails with an unknown dependency, or else exactly when the passes get stuck. */
    method ExecutionOrder() returns (r: Result<seq<Step>, PlanError>)
      ensures DependenciesKnown(steps) ==> r == Passes(Start(steps))
      ensures !DependenciesKnown(steps) ==> r.Err? && r.error.UnknownDependency?
                                            && r.error.dep !in Ids(steps)
      ensures r.Ok? ==> multiset(r.value) == multiset(steps) && DependencyOrdered(r.value)
      ensures DistinctIds(steps) ==>
                (r.Ok? <==> DependenciesKnown(steps) && !CycleFrom(PlanGraph(steps), Ids(steps)))
    {
      hide CycleFrom, PlanGraph, DistinctIds, DependencyOrdered, IsReady, Sound, RemoveFirst;
      var knownIds := Ids(steps);
      for i := 0 to |steps|
        invariant forall k, d :: 0 <= k < i && d in steps[k].dependsOn ==> d in knownIds
      {
        for j := 0 to |steps[i].dependsOn|
          invariant forall k :: 0 <= k < j ==> steps[i].dependsOn[k] in knownIds
        {
          if steps[i].dependsOn[j] !in knownIds {
            return Err(UnknownDependency(steps[i].id, steps[i].dependsOn[j]));
          }
        }
      }
      PassesComplete(steps);
      StartSound(steps);
      var completed: set<string> := {};
      var ordered: seq<Step> := [];
      var remaining := steps;
      while remaining != []
        invariant Sound(steps, Sorting(remaining, completed, ordered))
        invariant Passes(Start(steps)) == Passes(Sorting(remaining, completed, ordered))
        decreases |remaining|
      {
        ghost var before := Sorting(remaining, completed, ordered);
        PassSound(steps, remaining, before);
        var snapshot := remaining;
        var progress := false;
        for i := 0 to |snapshot|
          invariant RunPass(snapshot[..i], before) == Sorting(remaining, completed, ordered)
          invariant |remaining| <= |snapshot| && (progress <==> |remaining| < |snapshot|)
        {
          assert snapshot[..i + 1][..i] == snapshot[..i];
          if IsReady(snapshot[i], completed) {
            StillThere(steps, snapshot, before, i);
            ordered := ordered + [snapshot[i]];
            completed := completed + {snapshot[i].id};
            remaining := RemoveFirst(remaining, snapshot[i]);
            progress := true;
          }
        }
        assert snapshot[..|snapshot|] == snapshot;
        if !progress {
          return Err(DependencyCycle(remaining));
        }
      }
      return Ok(ordered);
    }
  }

  /** The step a pass is looking at has not been removed yet. */
  lemma StillThere(steps: seq<Step>, snapshot: seq<Step>, s: Sorting, i: nat)
    requires Sound(steps, s) && snapshot == s.remaining && i < |snapshot|
    ensures snapshot[i] in RunPass(snapshot[..i], s).remaining
  {
    assert snapshot == snapshot[..i] + [snapshot[i]] + snapshot[i + 1..];
    PassSound(steps, snapshot[..i], s);
    assert multiset(RunPass(snapshot[..i], s).remaining)[snapshot[i]] > 0;
  }
}
