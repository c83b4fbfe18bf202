/** Runs of swarm/resilience/task_queue.py:292-347 with one task: how often `fail` can put it back. */
module RetryScenario {
  import opened Prelude
  import opened TaskQueues
  import opened TaskQueueRuns

  /** The run left x alone in the queue, in memory and on disk. */
  ghost predicate Holds(es: seq<Event>, x: Item) {
    Proper(es) && After(es) == Node([x], [x], []) && Issued(es, x.id) == Some(CoreOf(x))
  }

  function FailNow(id: string): Event {
    Done(Fail(id, "", false, 0.0))
  }

  lemma OneMore(es: seq<Event>, e: Event)
    ensures Front(es + [e]) == es && Last(es + [e]) == e
  {
  }

  lemma Unfold(es: seq<Event>, e: Event, id: string, k: nat)
    ensures var more := es + [e];
      && After(more) == Step(After(es), e)
      && (Proper(more) <==> Proper(es) && ProperEvent(es, e))
      && Issued(more, id) == (if Enqueues(e, id) then Some(CoreOf(e.op.item)) else Issued(es, id))
      && HandOuts(more, id) == HandOuts(es, id) + (if HandsOut(After(es), e, id) then 1 else 0)
      && FailCount(more, id) == FailCount(es, id) + (if Fails(After(es), e, id) then 1 else 0)
      && Requeues(more, id) == Requeues(es, id) + (if RequeuesNow(After(es), e, id) then 1 else 0)
      && (Paired(more, id, k) <==> Paired(es, id, k) && FailCount(more, id) <= HandOuts(more, id) + k)
  {
    hide Step, HandsOut, Fails, RequeuesNow, ProperEvent;
    OneMore(es, e);
  }

  lemma EnqueueStep(x: Item)
    requires ValidPriority(x.priority)
    ensures Step(Node([], [], []), Done(Enqueue(x))) == Node([x], [x], [])
  {
    EffectsApplied(Node([], [], []), Enqueue(x));
  }

  lemma DequeueStep(x: Item)
    ensures Step(Node([x], [x], []), Done(Dequeue(0.0))) == Node([Started(x, 0.0)], [Started(x, 0.0)], [])
  {
    DequeuePlan(x);
    EffectsApplied(Node([x], [x], []), Dequeue(0.0));
    hide PlanOf, Started, Insert, Apply;
  }

  lemma DequeuePlan(x: Item)
    ensures PlanOf([x], Dequeue(0.0)) == Persisted([Started(x, 0.0)], [])
  {
    hide Started;
    assert [x][1..] == [];
  }

  lemma FailStep(x: Item)
    requires x.attempts < x.maxAttempts
    ensures Step(Node([x], [x], []), FailNow(x.id)) == Node([Requeued(x, "", 0.0)], [Requeued(x, "", 0.0)], [])
  {
    FailPlan(x);
    EffectsApplied(Node([x], [x], []), Fail(x.id, "", false, 0.0));
    hide PlanOf, Requeued, Insert, Apply;
  }

  lemma FailPlan(x: Item)
    requires x.attempts < x.maxAttempts
    ensures PlanOf([x], Fail(x.id, "", false, 0.0)) == Persisted([Requeued(x, "", 0.0)], [])
  {
    hide Requeued;
    assert [x][1..] == [];
  }

  /** A `fail` with attempts left puts the task back and spends none. */
  lemma Failing(es: seq<Event>, x: Item, k: nat)
    requires Holds(es, x) && x.attempts < x.maxAttempts && Paired(es, x.id, k)
    requires FailCount(es, x.id) < HandOuts(es, x.id) + k
    ensures var more, y := es + [FailNow(x.id)], Requeued(x, "", 0.0);
      && Holds(more, y) && Paired(more, x.id, k) && HandOuts(more, x.id) == HandOuts(es, x.id)
      && Requeues(more, x.id) == Requeues(es, x.id) + 1 && FailCount(more, x.id) == FailCount(es, x.id) + 1
  {
    hide Step;
    Unfold(es, FailNow(x.id), x.id, k);
    FailStep(x);
  }

  /** A `dequeue` hands it out and counts an attempt. */
  lemma Handing(es: seq<Event>, x: Item, k: nat)
    requires Holds(es, x) && Paired(es, x.id, k)
    ensures var more, y := es + [Done(Dequeue(0.0))], Started(x, 0.0);
      && Holds(more, y) && Paired(more, x.id, k) && HandOuts(more, x.id) == HandOuts(es, x.id) + 1
      && Requeues(more, x.id) == Requeues(es, x.id) && FailCount(more, x.id) == FailCount(es, x.id)
  {
    hide Step;
    Unfold(es, Done(Dequeue(0.0)), x.id, k);
    DequeueStep(x);
  }

  function Fresh(id: string, maxAttempts: int): Item {
    NewItem(id, "", "", "normal", maxAttempts, None, 0.0)
  }

  lemma Enqueued(id: string, maxAttempts: int)
    ensures var es := [Done(Enqueue(Fresh(id, maxAttempts)))];
      && Holds(es, Fresh(id, maxAttempts)) && Paired(es, id, 0)
      && HandOuts(es, id) == Requeues(es, id) == FailCount(es, id) == 0
  {
    var e := Done(Enqueue(Fresh(id, maxAttempts)));
    hide Step;
    Unfold([], e, id, 0);
    EnqueueStep(Fresh(id, maxAttempts));
    assert [] + [e] == [e];
  }

  /** After n rounds of `dequeue` and `fail`, n attempts are spent and the task was put back n times. */
  lemma {:induction false} Rounds(id: string, maxAttempts: int, n: nat) returns (es: seq<Event>, x: Item)
    requires n < maxAttempts
    ensures Holds(es, x) && x.id == id && x.maxAttempts == maxAttempts && x.attempts == n
    ensures Paired(es, id, 0) && HandOuts(es, id) == Requeues(es, id) == FailCount(es, id) == n
  {
    hide Holds, Paired;
    if n == 0 {
      Enqueued(id, maxAttempts);
      es, x := [Done(Enqueue(Fresh(id, maxAttempts)))], Fresh(id, maxAttempts);
    } else {
      es, x := Rounds(id, maxAttempts, n - 1);
      Handing(es, x, 0);
      es, x := es + [Done(Dequeue(0.0))], Started(x, 0.0);
      Failing(es, x, 0);
      es, x := es + [FailNow(id)], Requeued(x, "", 0.0);
    }
  }

  lemma {:induction false} PairedMore(es: seq<Event>, id: string, j: nat, k: nat)
    requires Paired(es, id, j) && j <= k
    ensures Paired(es, id, k)
  {
    if es != [] {
      PairedMore(Front(es), id, j, k);
    }
  }

  /** Then every further `fail` puts it back again. */
  lemma {:induction false} Unpaired(id: string, maxAttempts: int, k: nat) returns (es: seq<Event>, x: Item)
    requires maxAttempts >= 1
    ensures Holds(es, x) && x.id == id && x.maxAttempts == maxAttempts && x.attempts == maxAttempts - 1
    ensures Paired(es, id, k) && HandOuts(es, id) == maxAttempts - 1
    ensures FailCount(es, id) == Requeues(es, id) == maxAttempts - 1 + k
  {
    hide Holds, Paired;
    if k == 0 {
      es, x := Rounds(id, maxAttempts, maxAttempts - 1);
    } else {
      es, x := Unpaired(id, maxAttempts, k - 1);
      PairedMore(es, id, k - 1, k);
      Failing(es, x, k);
      es, x := es + [FailNow(id)], Requeued(x, "", 0.0);
    }
  }

  ghost predicate Retries(es: seq<Event>, id: string, maxAttempts: int) {
    Issued(es, id).Some? && Issued(es, id).value.maxAttempts == maxAttempts
  }

  /** In every run in which at most k calls of `fail` exceed the hand-outs. */
  ghost predicate StaysBelow(maxAttempts: int, k: nat, bound: int) {
    forall es, id :: Proper(es) && Paired(es, id, k) && Retries(es, id, maxAttempts) ==> Requeues(es, id) < bound
  }

  /** The bound on requeues is exact: max_attempts + k, and nothing less, holds for all runs with at most k unpaired
      calls. */
  lemma RetryBoundIsExact(maxAttempts: int, k: nat, bound: int)
    requires maxAttempts >= 1
    ensures StaysBelow(maxAttempts, k, bound) <==> maxAttempts + k <= bound
  {
    if maxAttempts + k <= bound {
      forall es, id | Proper(es) && Paired(es, id, k) && Retries(es, id, maxAttempts)
        ensures Requeues(es, id) < bound
      {
        RetryBound(es, id, k);
      }
    } else {
      var es, x := Unpaired("", maxAttempts, k);
      assert Requeues(es, "") >= bound;
    }
  }

  /** So `max_attempts` itself is respected exactly if every `fail` follows a new hand-out. */
  lemma PairingIsNeeded(maxAttempts: int, k: nat)
    requires maxAttempts >= 1
    ensures StaysBelow(maxAttempts, k, maxAttempts) <==> k == 0
  {
    RetryBoundIsExact(maxAttempts, k, maxAttempts);
  }
}
