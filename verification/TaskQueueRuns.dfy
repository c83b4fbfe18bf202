/** Whole runs of the task queue in one process, with crashes between any two file effects. */
module TaskQueueRuns {
  import opened Prelude
  import opened TaskQueues

  datatype Node = Node(mem: seq<Item>, file: seq<Item>, history: seq<Item>)

  /** Either an operation runs to its end, or the process dies after its first `written` file effects and the queue is
      opened again. */
  datatype Event = Done(op: Op) | Crash(op: Op, written: nat)

  function Apply(n: Node, effects: seq<Effect>): Node {
    var (file, history) := Written(n.file, n.history, effects);
    n.(file := file, history := history)
  }

  function Step(n: Node, e: Event): Node {
    var plan := PlanOf(n.mem, e.op);
    match e
    case Done(_) => Apply(n, plan.effects).(mem := plan.mem)
    case Crash(_, written) =>
      var after := Apply(n, if written < |plan.effects| then plan.effects[..written] else plan.effects);
      after.(mem := Load(after.file))
  }

  /** The state after a run that starts on an empty directory. */
  function After(es: seq<Event>): Node {
    if es == [] then Node([], [], []) else Step(After(Front(es)), Last(es))
  }

  // ---- what was asked of the queue ---------------------------------------------------------------

  /** The part of a task that no operation changes. */
  datatype Core = Core(taskType: string, payload: string, priority: string, maxAttempts: int, createdAt: real)

  function CoreOf(x: Item): Core {
    Core(x.taskType, x.payload, x.priority, x.maxAttempts, x.createdAt)
  }

  predicate Enqueues(e: Event, id: string) {
    e.op.Enqueue? && e.op.item.id == id && ValidPriority(e.op.item.priority)
  }

  /** The task given to some `enqueue` of this id, whether or not that call came back. */
  function Issued(es: seq<Event>, id: string): Option<Core> {
    if es == [] then None
    else if Enqueues(Last(es), id) then Some(CoreOf(Last(es).op.item))
    else Issued(Front(es), id)
  }

  /** The task whose `enqueue` returned. */
  function Accepted(es: seq<Event>, id: string): Option<Core> {
    if es == [] then None
    else if Enqueues(Last(es), id) && Last(es).Done? then Some(CoreOf(Last(es).op.item))
    else Accepted(Front(es), id)
  }

  /** Ids are fresh and items arrive as `enqueue` builds them. */
  ghost predicate Proper(es: seq<Event>) {
    es == [] || (Proper(Front(es)) && ProperEvent(Front(es), Last(es)))
  }

  predicate ProperEvent(es: seq<Event>, e: Event) {
    e.op.Enqueue? ==> Issued(es, e.op.item.id).None? && e.op.item.status == Pending && e.op.item.attempts == 0
  }

  predicate NoCrash(es: seq<Event>) {
    forall i :: 0 <= i < |es| ==> es[i].Done?
  }

  function Archived(history: seq<Item>, id: string): seq<Item> {
    if history == [] then []
    else
      var rest, last := Archived(history[..|history| - 1], id), history[|history| - 1];
      if last.id == id then rest + [last] else rest
  }

  lemma ArchivedAppend(history: seq<Item>, x: Item, id: string)
    ensures Archived(history + [x], id) == if x.id == id then Archived(history, id) + [x] else Archived(history, id)
  {
    assert (history + [x])[..|history|] == history;
  }

  // ---- order, in every run -----------------------------------------------------------------------

  ghost predicate Ordered(items: seq<Item>) {
    && Sorted(items) && UniqueIds(items)
    && forall i :: 0 <= i < |items| ==> items[i].status == Pending || items[i].status == Running
  }

  /** Memory is what the file holds, or what loading the file gives. */
  ghost predicate Mirrors(n: Node) {
    n.mem == n.file || n.mem == RecoverAll(n.file)
  }

  lemma RecoverOrdered(file: seq<Item>)
    requires Ordered(file)
    ensures Load(file) == RecoverAll(file) && Ordered(RecoverAll(file))
  {
    LoadKeepsOrder(file);
  }

  /** The two things one operation can write: nothing, or at most one history line and then the new memory. */
  lemma EffectsApplied(n: Node, op: Op)
    ensures var p := PlanOf(n.mem, op);
            && Apply(n, []) == n
            && (p.effects == [] ==> p.mem == n.mem)
            && (p.effects != [] ==> p.effects[|p.effects| - 1] == Replace(p.mem))
            && (|p.effects| == 1 ==> Apply(n, p.effects) == n.(file := p.mem))
            && (|p.effects| == 2 ==>
                  && p.effects[0].Append?
                  && Apply(n, p.effects[..1]) == n.(history := n.history + [p.effects[0].item])
                  && Apply(n, p.effects) == n.(file := p.mem, history := n.history + [p.effects[0].item]))
            && |p.effects| <= 2
  {
    var p := PlanOf(n.mem, op);
    if |p.effects| == 1 {
      assert p.effects[..0] == [];
    } else if |p.effects| == 2 {
      assert p.effects[..1][..0] == [] && p.effects[..1][0] == p.effects[0];
    }
  }

  /** The new file is the planned memory or the old file; the new memory is one of these, or the reloaded file. */
  lemma StepShape(n: Node, e: Event)
    ensures var p, t := PlanOf(n.mem, e.op), Step(n, e);
            && (t.file == n.file || t.file == p.mem)
            && (e.Done? ==> t.mem == p.mem && (t.file == p.mem || (p.mem == n.mem && t.file == n.file)))
            && (e.Crash? ==> t.mem == Load(t.file))
            && (t.history == n.history
                || (|p.effects| == 2 && p.effects[0].Append? && t.history == n.history + [p.effects[0].item]))
            && (e.Done? && |p.effects| == 2 ==> t.history != n.history)
            && (t.file != n.file && |p.effects| == 2 ==> t.history != n.history)
  {
    var p := PlanOf(n.mem, e.op);
    EffectsApplied(n, e.op);
    if e.Crash? && e.written < |p.effects| {
      assert p.effects[..e.written] == [] || p.effects[..e.written] == p.effects[..1];
    }
  }

  lemma StatusesAfter(items: seq<Item>, more: seq<Item>, x: Item)
    requires Ordered(items) && (x.status == Pending || x.status == Running)
    requires Sorted(more) && UniqueIds(more) && forall y :: y in more ==> y == x || y in items
    ensures Ordered(more)
  {
    forall i | 0 <= i < |more| ensures more[i].status == Pending || more[i].status == Running {
      assert more[i] in more;
    }
  }

  lemma RemoveOrdered(items: seq<Item>, id: string)
    requires Ordered(items)
    ensures Ordered(Remove(items, id)) && Find(Remove(items, id), id).None?
  {
    RemoveFacts(items, id, id);
    var r := Remove(items, id);
    forall i | 0 <= i < |r| ensures r[i].status == Pending || r[i].status == Running {
      assert r[i] in r;
    }
  }

  lemma PlanOrdered(mem: seq<Item>, op: Op)
    requires Ordered(mem)
    requires op.Enqueue? ==> Find(mem, op.item.id).None? && op.item.status == Pending
    ensures Ordered(PlanOf(mem, op).mem)
  {
    match op
    case Enqueue(item) =>
      InsertFacts(mem, item, item.id);
      if ValidPriority(item.priority) {
        StatusesAfter(mem, Insert(mem, item), item);
      }
    case Dequeue(now) =>
      if mem != [] {
        RemoveOrdered(mem, mem[0].id);
        var x := Started(mem[0], now);
        InsertFacts(mem[1..], x, x.id);
        StatusesAfter(mem[1..], Insert(mem[1..], x), x);
      }
    case Complete(id, result, now) => RemoveOrdered(mem, id);
    case Fail(id, error, deadLetter, now) =>
      RemoveOrdered(mem, id);
      if Find(mem, id).Some? {
        var i := FindIndex(mem, id);
        var x := Requeued(mem[i], error, now);
        InsertFacts(Remove(mem, id), x, id);
        StatusesAfter(Remove(mem, id), Insert(Remove(mem, id), x), x);
      }
    case Cancel(id, now) => RemoveOrdered(mem, id);
  }

  /** What a reader of one id sees after an operation. */
  lemma PlanFind(mem: seq<Item>, op: Op, id: string)
    requires Ordered(mem)
    requires op.Enqueue? ==> Find(mem, op.item.id).None?
    ensures Find(PlanOf(mem, op).mem, id) == FindAfter(mem, op, id)
  {
    hide Sorted, UniqueIds, Insert;
    match op
    case Enqueue(item) => InsertFacts(mem, item, id);
    case Dequeue(now) =>
      if mem != [] {
        RemoveFacts(mem, mem[0].id, id);
        RemoveFacts(mem, mem[0].id, mem[0].id);
        InsertFacts(mem[1..], Started(mem[0], now), id);
      }
    case Complete(k, result, now) => RemoveFacts(mem, k, id);
    case Fail(k, error, deadLetter, now) =>
      RemoveFacts(mem, k, id);
      RemoveFacts(mem, k, k);
      if Find(mem, k).Some? {
        var i := FindIndex(mem, k);
        InsertFacts(Remove(mem, k), Requeued(mem[i], error, now), id);
      }
    case Cancel(k, now) => RemoveFacts(mem, k, id);
  }

  function FindAfter(mem: seq<Item>, op: Op, id: string): Option<Item> {
    var x := Find(mem, id);
    match op
    case Enqueue(item) => if ValidPriority(item.priority) && item.id == id then Some(item) else x
    case Dequeue(now) => if mem != [] && mem[0].id == id then Some(Started(mem[0], now)) else x
    case Complete(k, _, _) => if k == id then None else x
    case Fail(k, error, deadLetter, now) =>
      if k == id && x.Some? && !GivesUp(x.value, deadLetter) then Some(Requeued(x.value, error, now))
      else if k == id then None else x
    case Cancel(k, _) => if k == id then None else x
  }

  // ---- no task is lost ---------------------------------------------------------------------------

  /** What every run keeps about one id. */
  ghost predicate Kept(es: seq<Event>, n: Node, id: string) {
    && (Find(n.file, id).Some? ==> Issued(es, id) == Some(CoreOf(Find(n.file, id).value)))
    && (forall x :: x in Archived(n.history, id) ==> Issued(es, id) == Some(CoreOf(x)))
    && (Accepted(es, id).Some? ==> Issued(es, id) == Accepted(es, id)
                                   && (Find(n.file, id).Some? || Archived(n.history, id) != []))
  }

  lemma MirrorsFind(n: Node, id: string)
    requires Mirrors(n) && Ordered(n.file)
    ensures Find(n.mem, id).Some? <==> Find(n.file, id).Some?
    ensures Find(n.mem, id).Some? ==> CoreOf(Find(n.mem, id).value) == CoreOf(Find(n.file, id).value)
    ensures Find(n.mem, id).Some? && Find(n.mem, id).value.status == Running ==> Find(n.mem, id) == Find(n.file, id)
    ensures Find(n.mem, id).Some? ==> Find(n.mem, id) == Find(n.file, id)
                                      || Find(n.mem, id).value == Recover(Find(n.file, id).value)
  {
    FindRecovered(n.file, id);
  }

  lemma {:induction false} FindHead(items: seq<Item>)
    requires items != []
    ensures Find(items, items[0].id) == Some(items[0])
  {
  }

  /** An operation leaves a task's core alone; it disappears from memory only with a history line of its own. */
  lemma PlanCore(mem: seq<Item>, op: Op, id: string)
    requires Ordered(mem) && (op.Enqueue? ==> Find(mem, op.item.id).None?)
    ensures var p, x := PlanOf(mem, op), Find(mem, id);
            && (!op.Enqueue? && Find(p.mem, id).Some? ==> x.Some? && CoreOf(Find(p.mem, id).value) == CoreOf(x.value))
            && (op.Enqueue? ==>
                  && |p.effects| < 2
                  && Find(p.mem, id) ==
                       (if ValidPriority(op.item.priority) && op.item.id == id then Some(op.item) else x))
            && (x.Some? && Find(p.mem, id).None? ==> |p.effects| == 2)
            && (|p.effects| == 2 ==>
                  && p.effects[0].Append? && Find(mem, p.effects[0].item.id).Some?
                  && CoreOf(p.effects[0].item) == CoreOf(Find(mem, p.effects[0].item.id).value)
                  && (p.effects[0].item.id != id ==> Find(p.mem, id) == x)
                  && Find(p.mem, p.effects[0].item.id).None?)
  {
    PlanFind(mem, op, id);
    match op
    case Enqueue(item) =>
    case Dequeue(now) =>
      if mem != [] {
        FindHead(mem);
      }
    case Complete(k, result, now) => CloseFacts(mem, op, k);
    case Fail(k, error, deadLetter, now) => CloseFacts(mem, op, k);
    case Cancel(k, now) => CloseFacts(mem, op, k);
  }

  lemma CloseFacts(mem: seq<Item>, op: Op, k: string)
    requires Ordered(mem) && !op.Enqueue?
    requires op.Complete? || op.Fail? || op.Cancel? ==> op.id == k
    ensures Find(mem, k).Some? ==> Find(mem, k).value.id == k
    ensures Find(PlanOf(mem, op).mem, k) == FindAfter(mem, op, k)
  {
    PlanFind(mem, op, k);
    if Find(mem, k).Some? {
      var i := FindIndex(mem, k);
    }
  }

  lemma StepKeepsTask(es: seq<Event>, n: Node, e: Event, id: string)
    requires Ordered(n.file) && Ordered(n.mem) && Mirrors(n) && ProperEvent(es, e)
    requires Kept(es, n, id) && (e.op.Enqueue? ==> Kept(es, n, e.op.item.id))
    ensures Kept(es + [e], Step(n, e), id)
  {
    hide Ordered, Step, PlanOf, Mirrors;
    var t := Step(n, e);
    assert Front(es + [e]) == es;
    MirrorsFind(n, id);
    if e.op.Enqueue? {
      MirrorsFind(n, e.op.item.id);
    }
    StepShape(n, e);
    PlanCore(n.mem, e.op, id);
    var p := PlanOf(n.mem, e.op);
    if t.history != n.history {
      ArchivedAppend(n.history, p.effects[0].item, id);
    }
  }

  lemma {:induction false} RunKeeps(es: seq<Event>, id: string)
    requires Proper(es)
    ensures var n := After(es);
            Ordered(n.file) && Ordered(n.mem) && Mirrors(n) && Kept(es, n, id)
  {
    hide Ordered, Mirrors, Kept, Step, ProperEvent;
    if es == [] {
      EmptyKept(id);
    } else {
      var n, e := After(Front(es)), Last(es);
      RunKeeps(Front(es), id);
      if e.op.Enqueue? {
        RunKeeps(Front(es), e.op.item.id);
      }
      StepKeepsOrder(Front(es), n, e);
      StepKeepsTask(Front(es), n, e, id);
      assert Front(es) + [e] == es;
    }
  }

  lemma EmptyKept(id: string)
    ensures Ordered([]) && Mirrors(Node([], [], [])) && Kept([], Node([], [], []), id)
  {
    assert RecoverAll([]) == [];
  }

  lemma StepKeepsOrder(es: seq<Event>, n: Node, e: Event)
    requires Ordered(n.file) && Ordered(n.mem) && Mirrors(n) && ProperEvent(es, e)
    requires e.op.Enqueue? ==> Kept(es, n, e.op.item.id)
    ensures var t := Step(n, e);
            Ordered(t.file) && Ordered(t.mem) && Mirrors(t)
  {
    hide Ordered, Step, PlanOf;
    if e.op.Enqueue? {
      MirrorsFind(n, e.op.item.id);
    }
    PlanOrdered(n.mem, e.op);
    StepShape(n, e);
    RecoverOrdered(Step(n, e).file);
  }

  /** No task is lost: in every reachable state, whatever crashed and when, a task whose `enqueue` returned is in the
      queue file or in the history, with its type, payload, priority, retry limit and creation time intact. */
  lemma NoTaskLost(es: seq<Event>, id: string)
    requires Proper(es) && Accepted(es, id).Some?
    ensures var n := After(es);
            || (Find(n.file, id).Some? && CoreOf(Find(n.file, id).value) == Accepted(es, id).value)
            || (Archived(n.history, id) != []
                && forall x :: x in Archived(n.history, id) ==> CoreOf(x) == Accepted(es, id).value)
  {
    RunKeeps(es, id);
  }

  lemma {:induction false} IssuedValid(es: seq<Event>, id: string)
    ensures Issued(es, id).Some? ==> ValidPriority(Issued(es, id).value.priority)
  {
    if es != [] {
      IssuedValid(Front(es), id);
    }
  }

  lemma FileValid(es: seq<Event>)
    requires Proper(es)
    ensures ValidPriorities(After(es).file) && ValidPriorities(After(es).mem)
  {
    var n := After(es);
    RunKeeps(es, "");
    forall i | 0 <= i < |n.file| ensures ValidPriority(n.file[i].priority) {
      RunKeeps(es, n.file[i].id);
      FindPresent(n.file, i);
      IssuedValid(es, n.file[i].id);
      hide After, ValidPriority, Sorted;
    }
    hide After, ValidPriority, Sorted;
  }

  ghost predicate UrgentFirst(items: seq<Item>) {
    forall i, j :: 0 <= i < j < |items| ==> ComesFirst(items[i], items[j])
  }

  lemma SortedByUrgency(items: seq<Item>)
    requires Sorted(items) && ValidPriorities(items)
    ensures UrgentFirst(items)
  {
    hide KeyLess, ComesFirst;
    forall i, j | 0 <= i < j < |items| ensures ComesFirst(items[i], items[j]) {
      assert KeyLess(items[i], items[j]);
      KeyIsUrgency(items[i], items[j]);
    }
  }

  /** The queue is strictly ordered, most urgent first and oldest first within a priority, in memory and on disk, holds
      only PENDING and RUNNING items, and reopening it gives the same order. */
  lemma AlwaysOrdered(es: seq<Event>)
    requires Proper(es)
    ensures var n := After(es);
      && Ordered(n.mem) && Ordered(n.file) && Load(n.file) == RecoverAll(n.file) && Mirrors(n)
      && UrgentFirst(n.mem) && UrgentFirst(n.file)
  {
    RunKeeps(es, "");
    FileValid(es);
    var n := After(es);
    hide After, Load;
    RecoverOrdered(n.file);
    SortedByUrgency(n.mem);
    SortedByUrgency(n.file);
  }

  /** What a `dequeue` hands out, in every reachable state: the most urgent task in memory, the oldest of its
      priority, now RUNNING with one more attempt; it stays in front. */
  lemma MostUrgentFirst(es: seq<Event>, now: real)
    requires Proper(es) && After(es).mem != []
    ensures var mem, after := After(es).mem, Step(After(es), Done(Dequeue(now))).mem;
      && |after| == |mem| && after[1..] == mem[1..] && after[0] == Started(mem[0], now)
      && after[0].id == mem[0].id && after[0].status == Running && after[0].attempts == mem[0].attempts + 1
      && after[0].priority in {"critical", "high", "normal", "low", "background"}
      && forall y :: y in mem ==>
           && AtLeastAsUrgent(after[0].priority, y.priority)
           && (y.priority == after[0].priority ==> after[0].createdAt <= y.createdAt)
  {
    AlwaysOrdered(es);
    FileValid(es);
    var mem := After(es).mem;
    DequeueKeepsPlace(mem, now);
    StepShape(After(es), Done(Dequeue(now)));
    hide After, Step, PlanOf, Load, Mirrors, KeyLess, StringLess, AtLeastAsUrgent;
    HeadIsUrgent(mem[0]);
    forall y | y in mem
      ensures AtLeastAsUrgent(mem[0].priority, y.priority)
      ensures y.priority == mem[0].priority ==> mem[0].createdAt <= y.createdAt
    {
      var i :| 0 <= i < |mem| && mem[i] == y;
      assert i > 0 ==> ComesFirst(mem[0], mem[i]);
    }
  }

  lemma HeadIsUrgent(x: Item)
    requires ValidPriority(x.priority)
    ensures AtLeastAsUrgent(x.priority, x.priority)
  {
  }

  // ---- exactly one place without crashes ---------------------------------------------------------

  /** The operation ended the task, in the way its history line tells. */
  predicate EndedBy(x: Item, op: Op) {
    match op
    case Complete(id, result, now) =>
      && x.id == id && x.status == Completed && x.completedAt == Some(now) && (result.Some? ==> x.outcome == result)
    case Fail(id, error, deadLetter, now) =>
      && x.id == id && x.status == DeadLetter && x.completedAt == Some(now) && x.lastError == Some(error)
      && (deadLetter || x.attempts >= x.maxAttempts)
    case Cancel(id, now) => x.id == id && x.status == Cancelled && x.completedAt == Some(now)
    case _ => false
  }

  lemma PlannedEnd(mem: seq<Item>, op: Op)
    ensures |PlanOf(mem, op).effects| == 2 ==>
      PlanOf(mem, op).effects[0].Append? && EndedBy(PlanOf(mem, op).effects[0].item, op)
  {
    if (op.Complete? || op.Fail? || op.Cancel?) && Find(mem, op.id).Some? {
      var i := FindIndex(mem, op.id);
    }
  }

  /** Every history line was written by an operation that ended its task: completed, cancelled, or failed with its
      attempts used up or on request. */
  lemma {:induction false} HistoryTellsTheEnd(es: seq<Event>, i: nat)
    requires i < |After(es).history|
    ensures exists j :: 0 <= j < |es| && EndedBy(After(es).history[i], es[j].op)
  {
    hide Step, EndedBy;
    if es != [] {
      var n, e := After(Front(es)), Last(es);
      StepShape(n, e);
      PlannedEnd(n.mem, e.op);
      if i < |n.history| {
        HistoryTellsTheEnd(Front(es), i);
        var j :| 0 <= j < |Front(es)| && EndedBy(n.history[i], Front(es)[j].op);
        assert EndedBy(After(es).history[i], es[j].op);
      } else {
        assert EndedBy(After(es).history[i], es[|es| - 1].op);
      }
    }
  }

  ghost predicate InOnePlace(es: seq<Event>, n: Node, id: string) {
    && n.mem == n.file
    && |Archived(n.history, id)| <= 1
    && (Find(n.file, id).Some? ==> Archived(n.history, id) == [])
    && (Issued(es, id).None? ==> Find(n.file, id).None? && Archived(n.history, id) == [])
    && (Accepted(es, id).Some? <==> Issued(es, id).Some?)
  }

  /** Without crashes the file mirrors memory and an accepted task is in exactly one of queue file and history, in the
      history exactly once. */
  lemma {:induction false} ExactlyOnePlace(es: seq<Event>, id: string)
    requires Proper(es) && NoCrash(es)
    ensures InOnePlace(es, After(es), id)
    ensures Accepted(es, id).Some? ==>
              (Find(After(es).file, id).Some? <==> |Archived(After(es).history, id)| != 1)
  {
    hide Ordered, Step, PlanOf;
    if es != [] {
      var n, e := After(Front(es)), Last(es);
      ExactlyOnePlace(Front(es), id);
      RunKeeps(es, id);
      RunKeeps(Front(es), id);
      if e.op.Enqueue? {
        ExactlyOnePlace(Front(es), e.op.item.id);
      }
      StepShape(n, e);
      PlanCore(n.mem, e.op, id);
      var p := PlanOf(n.mem, e.op);
      if Step(n, e).history != n.history {
        ArchivedAppend(n.history, p.effects[0].item, id);
      }
    }
  }

  // ---- the retry bound ---------------------------------------------------------------------------

  /** The event is a `fail` of this id that put the item back and wrote the queue file. */
  predicate RequeuesNow(n: Node, e: Event, id: string) {
    && e.op.Fail? && e.op.id == id
    && Find(n.mem, id).Some? && !GivesUp(Find(n.mem, id).value, e.op.deadLetter)
    && (e.Crash? ==> e.written >= 1)
  }

  function Requeues(es: seq<Event>, id: string): nat {
    if es == [] then 0
    else Requeues(Front(es), id) + if RequeuesNow(After(Front(es)), Last(es), id) then 1 else 0
  }

  /** A `dequeue` came back with this id. */
  predicate HandsOut(n: Node, e: Event, id: string) {
    e.op.Dequeue? && e.Done? && n.mem != [] && n.mem[0].id == id
  }

  function HandOuts(es: seq<Event>, id: string): nat {
    if es == [] then 0
    else HandOuts(Front(es), id) + if HandsOut(After(Front(es)), Last(es), id) then 1 else 0
  }

  /** A `fail` that finds this id, whether it comes back or not. */
  predicate Fails(n: Node, e: Event, id: string) {
    e.op.Fail? && e.op.id == id && Find(n.mem, id).Some?
  }

  function FailCount(es: seq<Event>, id: string): nat {
    if es == [] then 0
    else FailCount(Front(es), id) + if Fails(After(Front(es)), Last(es), id) then 1 else 0
  }

  /** At no point had there been more than k calls of `fail` beyond one for each time the id was handed out. */
  predicate Paired(es: seq<Event>, id: string, k: nat) {
    FailCount(es, id) <= HandOuts(es, id) + k && (es == [] || Paired(Front(es), id, k))
  }

  /** Each hand-out so far has been counted as an attempt. */
  ghost predicate Counted(es: seq<Event>, id: string) {
    && (Find(After(es).file, id).Some? ==> HandOuts(es, id) <= Find(After(es).file, id).value.attempts)
    && (Issued(es, id).None? ==> HandOuts(es, id) == 0 && Requeues(es, id) == 0)
    && Requeues(es, id) <= FailCount(es, id)
  }

  lemma NewFileItem(n: Node, e: Event, id: string)
    requires Ordered(n.file) && Ordered(n.mem) && Mirrors(n)
    requires e.op.Enqueue? ==> Find(n.mem, e.op.item.id).None?
    ensures Find(Step(n, e).file, id) == Find(n.file, id)
            || Find(Step(n, e).file, id) == FindAfter(n.mem, e.op, id)
    ensures RequeuesNow(n, e, id) ==> Find(Step(n, e).file, id) == FindAfter(n.mem, e.op, id)
    ensures (e.op.Fail? && e.op.id == id && Find(n.mem, id).Some? && !GivesUp(Find(n.mem, id).value, e.op.deadLetter)
             && !RequeuesNow(n, e, id)) ==> Find(Step(n, e).file, id) == Find(n.file, id)
  {
    hide Ordered, Mirrors;
    PlanFind(n.mem, e.op, id);
    EffectsApplied(n, e.op);
    StepShape(n, e);
  }

  lemma HandedOutItem(n: Node, e: Event, id: string)
    requires Ordered(n.mem) && HandsOut(n, e, id)
    ensures Find(Step(n, e).file, id) == FindAfter(n.mem, e.op, id)
  {
    hide Ordered, Insert;
    PlanFind(n.mem, e.op, id);
    EffectsApplied(n, e.op);
  }

  lemma {:induction false} AttemptsCount(es: seq<Event>, id: string)
    requires Proper(es)
    ensures Counted(es, id)
  {
    hide Ordered, Step, PlanOf, Mirrors;
    if es != [] {
      var n, e := After(Front(es)), Last(es);
      AttemptsCount(Front(es), id);
      RunKeeps(Front(es), id);
      MirrorsFind(n, id);
      if e.op.Enqueue? {
        RunKeeps(Front(es), e.op.item.id);
        MirrorsFind(n, e.op.item.id);
      }
      NewFileItem(n, e, id);
      if HandsOut(n, e, id) {
        HandedOutItem(n, e, id);
      }
      if n.mem != [] {
        FindHead(n.mem);
      }
    }
  }

  /** A `fail` that puts an item back has met fewer hand-outs than attempts allowed. */
  lemma RequeueBelowLimit(es: seq<Event>, id: string)
    requires Proper(es) && es != [] && RequeuesNow(After(Front(es)), Last(es), id)
    ensures Issued(es, id).Some? && HandOuts(es, id) < Issued(es, id).value.maxAttempts
  {
    hide Ordered, Step, PlanOf, Mirrors;
    AttemptsCount(Front(es), id);
    RunKeeps(Front(es), id);
    MirrorsFind(After(Front(es)), id);
  }

  /** If at no point more than k calls of `fail` for an id exceed its hand-outs, `fail` puts it back fewer than
      `max_attempts` + k times. With k = 0, every `fail` follows a new dequeue. Double hand-outs are covered, and
      crashes anywhere, also between a dequeue and its fail. */
  lemma {:induction false} RetryBound(es: seq<Event>, id: string, k: nat)
    requires Proper(es) && Paired(es, id, k) && Issued(es, id).Some?
    requires Issued(es, id).value.maxAttempts >= 1
    ensures Requeues(es, id) < Issued(es, id).value.maxAttempts + k
  {
    hide RequeuesNow;
    if RequeuesNow(After(Front(es)), Last(es), id) {
      RequeueBelowLimit(es, id);
      AttemptsCount(es, id);
    } else if Issued(Front(es), id).Some? {
      IssuedOnce(es, id);
      RetryBound(Front(es), id, k);
    } else {
      AttemptsCount(Front(es), id);
    }
  }

  lemma IssuedOnce(es: seq<Event>, id: string)
    requires Proper(es) && es != [] && Issued(Front(es), id).Some?
    ensures Issued(es, id) == Issued(Front(es), id)
  {
  }

  /** Calling `fail` only on RUNNING items is one way to pair them. */
  predicate OnlyRunningFails(es: seq<Event>, id: string) {
    if es == [] then true
    else
      var x := Find(After(Front(es)).mem, id);
      && OnlyRunningFails(Front(es), id)
      && (Last(es).op.Fail? && Last(es).op.id == id && x.Some? ==> x.value.status == Running)
  }

  lemma {:induction false} RunningFailsArePaired(es: seq<Event>, id: string)
    requires Proper(es) && OnlyRunningFails(es, id)
    ensures Paired(es, id, 0)
    ensures Find(After(es).mem, id).Some? && Find(After(es).mem, id).value.status == Running ==>
              FailCount(es, id) < HandOuts(es, id)
  {
    hide Ordered, Step, PlanOf, Mirrors;
    if es != [] {
      var n, e := After(Front(es)), Last(es);
      RunningFailsArePaired(Front(es), id);
      RunKeeps(Front(es), id);
      if e.op.Enqueue? {
        RunKeeps(Front(es), e.op.item.id);
        MirrorsFind(n, e.op.item.id);
      }
      if n.mem != [] {
        FindHead(n.mem);
      }
      NewMemoryItem(n, e, id);
    }
  }

  /** After an operation memory holds what was planned; after a crash nothing is RUNNING. */
  lemma NewMemoryItem(n: Node, e: Event, id: string)
    requires Ordered(n.file) && Ordered(n.mem) && Mirrors(n)
    requires e.op.Enqueue? ==> Find(n.mem, e.op.item.id).None? && e.op.item.status == Pending
    ensures e.Done? ==> Find(Step(n, e).mem, id) == FindAfter(n.mem, e.op, id)
    ensures e.Crash? && Find(Step(n, e).mem, id).Some? ==> Find(Step(n, e).mem, id).value.status == Pending
  {
    hide Mirrors, Step, PlanOf;
    PlanFind(n.mem, e.op, id);
    PlanOrdered(n.mem, e.op);
    StepShape(n, e);
    if e.Crash? {
      var file := Step(n, e).file;
      RecoverOrdered(file);
      FindRecovered(file, id);
      if Find(file, id).Some? {
        var i := FindIndex(file, id);
      }
    }
  }

  /** The discipline matters: a `fail` that follows no dequeue puts the item back without spending an attempt, as often
      as it is called. */
  lemma FailIsFree(mem: seq<Item>, id: string, error: string, now: real)
    requires Ordered(mem) && Find(mem, id).Some? && !GivesUp(Find(mem, id).value, false)
    ensures var again := Find(PlanOf(mem, Fail(id, error, false, now)).mem, id);
            && again.Some? && again.value.attempts == Find(mem, id).value.attempts
            && again.value.status == Pending && again.value.attempts < again.value.maxAttempts
            && again.value.lastError == Some(error) && again.value.startedAt.None?
  {
    PlanFind(mem, Fail(id, error, false, now), id);
  }
}
