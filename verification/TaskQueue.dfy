/** swarm/resilience/task_queue.py: a priority queue kept sorted in memory, a queue file that is replaced atomically
    and an append-only history. */
module TaskQueues {
  import opened Prelude

  datatype Status = Pending | Running | Completed | Failed | Cancelled | DeadLetter

  datatype Item = Item(
    id: string, taskType: string, payload: string, priority: string, maxAttempts: int, createdBy: Option<string>,
    createdAt: real, status: Status, startedAt: Option<real>, completedAt: Option<real>, attempts: int,
    lastError: Option<string>, assignedTo: Option<string>, outcome: Option<string>)

  function PriorityRank(priority: string): nat {
    match priority
    case "critical" => 0
    case "high" => 1
    case "normal" => 2
    case "low" => 3
    case "background" => 4
    case _ => 2
  }

  predicate ValidPriority(priority: string) {
    priority in {"critical", "high", "normal", "low", "background"}
  }

  // ---- the order of the queue --------------------------------------------------------------------

  predicate StringLess(a: string, b: string) {
    if b == "" then false
    else if a == "" then true
    else a[0] < b[0] || (a[0] == b[0] && StringLess(a[1..], b[1..]))
  }

  lemma {:induction false} StringOrder(a: string, b: string)
    ensures a != b <==> StringLess(a, b) || StringLess(b, a)
    ensures !(StringLess(a, b) && StringLess(b, a))
  {
    if a != "" && b != "" {
      StringOrder(a[1..], b[1..]);
      assert a == [a[0]] + a[1..] && b == [b[0]] + b[1..];
    }
  }

  lemma {:induction false} StringTransitive(a: string, b: string, c: string)
    requires StringLess(a, b) && StringLess(b, c)
    ensures StringLess(a, c)
  {
    if a != "" && a[0] == b[0] == c[0] {
      StringTransitive(a[1..], b[1..], c[1..]);
    }
  }

  /** The comparison of the key tuples (rank, created_at, id). */
  predicate KeyLess(a: Item, b: Item) {
    var ra, rb := PriorityRank(a.priority), PriorityRank(b.priority);
    ra < rb || (ra == rb && (a.createdAt < b.createdAt || (a.createdAt == b.createdAt && StringLess(a.id, b.id))))
  }

  lemma KeyOrder(a: Item, b: Item)
    requires a.id != b.id
    ensures KeyLess(a, b) <==> !KeyLess(b, a)
  {
    StringOrder(a.id, b.id);
  }

  lemma KeyTransitive(a: Item, b: Item, c: Item)
    requires KeyLess(a, b) && KeyLess(b, c)
    ensures KeyLess(a, c)
  {
    if StringLess(a.id, b.id) && StringLess(b.id, c.id) {
      StringTransitive(a.id, b.id, c.id);
    }
  }

  predicate SameKey(a: Item, b: Item) {
    a.id == b.id && a.priority == b.priority && a.createdAt == b.createdAt
  }

  /** Strictly sorted by key. */
  ghost predicate Sorted(items: seq<Item>) {
    forall i, j :: 0 <= i < j < |items| ==> KeyLess(items[i], items[j])
  }

  /** The five priorities, most urgent first. */
  predicate AtLeastAsUrgent(a: string, b: string) {
    match a
    case "critical" => true
    case "high" => b != "critical"
    case "normal" => b != "critical" && b != "high"
    case "low" => b == "low" || b == "background"
    case _ => a == b
  }

  /** x is handed out before y: more urgent, or as urgent and older, or as old and with a smaller id. */
  predicate ComesFirst(x: Item, y: Item) {
    && AtLeastAsUrgent(x.priority, y.priority)
    && (x.priority == y.priority ==> x.createdAt <= y.createdAt)
    && (x.priority == y.priority && x.createdAt == y.createdAt ==> StringLess(x.id, y.id))
  }

  /** The key tuples compare as urgency and age do. */
  lemma KeyIsUrgency(x: Item, y: Item)
    requires ValidPriority(x.priority) && ValidPriority(y.priority)
    ensures KeyLess(x, y) <==> ComesFirst(x, y)
  {
  }

  /** Strings compare at their first difference, and a proper prefix comes first. */
  lemma {:induction false} StringLessMeaning(a: string, b: string, i: nat)
    requires i <= |a| && i <= |b| && a[..i] == b[..i]
    ensures i == |a| < |b| ==> StringLess(a, b)
    ensures i < |a| && i < |b| && a[i] < b[i] ==> StringLess(a, b)
  {
    if i > 0 {
      assert a[0] == a[..i][0] == b[..i][0] == b[0];
      assert a[1..][..i - 1] == a[..i][1..] == b[..i][1..] == b[1..][..i - 1];
      StringLessMeaning(a[1..], b[1..], i - 1);
    }
  }

  ghost predicate ValidPriorities(items: seq<Item>) {
    forall i :: 0 <= i < |items| ==> ValidPriority(items[i].priority)
  }

  // ---- list operations ---------------------------------------------------------------------------

  /** `push`: before the first item with a larger key. */
  function Insert(items: seq<Item>, x: Item): seq<Item> {
    if items == [] then [x]
    else if KeyLess(x, items[0]) then [x] + items
    else [items[0]] + Insert(items[1..], x)
  }

  /** `remove`: drops the first item with that id. */
  function Remove(items: seq<Item>, id: string): seq<Item> {
    if items == [] then [] else if items[0].id == id then items[1..] else [items[0]] + Remove(items[1..], id)
  }

  function Find(items: seq<Item>, id: string): Option<Item> {
    if items == [] then None else if items[0].id == id then Some(items[0]) else Find(items[1..], id)
  }

  lemma {:induction false} FindIndex(items: seq<Item>, id: string) returns (i: nat)
    requires Find(items, id).Some?
    ensures i < |items| && items[i] == Find(items, id).value && items[i].id == id
  {
    if items[0].id == id {
      i := 0;
    } else {
      i := FindIndex(items[1..], id);
      i := i + 1;
    }
  }

  lemma SortedTail(items: seq<Item>)
    requires Sorted(items) && items != []
    ensures Sorted(items[1..])
    ensures forall i :: 0 <= i < |items[1..]| ==> KeyLess(items[0], items[1..][i])
  {
  }

  /** The item a search loop stops at, or the end of the list. */
  lemma {:induction false} FirstMatch(items: seq<Item>, id: string, i: nat)
    requires i <= |items| && forall k :: 0 <= k < i ==> items[k].id != id
    requires i < |items| ==> items[i].id == id
    ensures Find(items, id) == if i < |items| then Some(items[i]) else None
    ensures Remove(items, id) == if i < |items| then items[..i] + items[i + 1..] else items
  {
    if i > 0 {
      forall k | 0 <= k < i - 1 ensures items[1..][k].id != id {
        assert items[1..][k] == items[k + 1];
      }
      FirstMatch(items[1..], id, i - 1);
    }
  }

  ghost predicate UniqueIds(items: seq<Item>) {
    forall i, j :: 0 <= i < j < |items| ==> items[i].id != items[j].id
  }

  lemma {:induction false} FindAbsent(items: seq<Item>, id: string)
    requires forall i :: 0 <= i < |items| ==> items[i].id != id
    ensures Find(items, id).None?
  {
    if items != [] {
      forall i | 0 <= i < |items[1..]| ensures items[1..][i].id != id {
        assert items[1..][i] == items[i + 1];
      }
      FindAbsent(items[1..], id);
    }
  }

  lemma {:induction false} FindPresent(items: seq<Item>, i: nat)
    requires i < |items| && UniqueIds(items)
    ensures Find(items, items[i].id) == Some(items[i])
  {
    if i > 0 {
      assert items[1..][i - 1] == items[i];
      assert items[0].id != items[i].id;
      FindPresent(items[1..], i - 1);
    }
  }

  lemma NotInTail(items: seq<Item>)
    requires UniqueIds(items) && items != []
    ensures Find(items[1..], items[0].id).None?
  {
    forall i | 0 <= i < |items[1..]| ensures items[1..][i].id != items[0].id {
      assert items[1..][i] == items[i + 1];
    }
    FindAbsent(items[1..], items[0].id);
  }

  lemma Prepend(x: Item, tail: seq<Item>)
    requires Sorted(tail) && UniqueIds(tail)
    requires forall y :: y in tail ==> KeyLess(x, y) && x.id != y.id
    ensures Sorted([x] + tail) && UniqueIds([x] + tail)
  {
    var r := [x] + tail;
    forall i, j | 0 <= i < j < |r| ensures KeyLess(r[i], r[j]) && r[i].id != r[j].id {
      assert r[j] == tail[j - 1] && r[j] in tail;
      if i > 0 {
        assert r[i] == tail[i - 1];
      }
    }
  }

  /** What an insertion changes for a reader, and that it keeps the order. */
  lemma {:induction false} InsertFacts(items: seq<Item>, x: Item, id: string)
    requires Sorted(items) && UniqueIds(items) && Find(items, x.id).None?
    ensures Find(Insert(items, x), id) == if id == x.id then Some(x) else Find(items, id)
    ensures Sorted(Insert(items, x)) && UniqueIds(Insert(items, x))
    ensures forall y :: y in Insert(items, x) <==> y == x || y in items
  {
    hide KeyLess;
    if items != [] {
      if KeyLess(x, items[0]) {
        var r := [x] + items;
        assert r[1..] == items;
        forall i, j | 0 <= i < j < |r| ensures KeyLess(r[i], r[j]) {
          if i == 0 && j > 1 {
            KeyTransitive(x, items[0], items[j - 1]);
          }
        }
        forall j | 0 <= j < |items| ensures items[j].id != x.id {
          if items[j].id == x.id {
            FindPresent(items, j);
          }
        }
      } else {
        SortedTail(items);
        InsertFacts(items[1..], x, id);
        var tail := Insert(items[1..], x);
        assert ([items[0]] + tail)[1..] == tail;
        KeyOrder(x, items[0]);
        forall y | y in tail ensures KeyLess(items[0], y) && items[0].id != y.id {
          if y != x {
            var i :| 0 <= i < |items[1..]| && items[1..][i] == y;
            assert items[i + 1] == y;
          }
        }
        Prepend(items[0], tail);
        assert items == [items[0]] + items[1..];
      }
    }
  }

  lemma {:induction false} RemoveFacts(items: seq<Item>, gone: string, id: string)
    requires Sorted(items) && UniqueIds(items)
    ensures Find(Remove(items, gone), id) == if id == gone then None else Find(items, id)
    ensures Sorted(Remove(items, gone)) && UniqueIds(Remove(items, gone))
    ensures forall y :: y in Remove(items, gone) ==> y in items && y.id != gone
  {
    hide KeyLess;
    if items != [] {
      SortedTail(items);
      if items[0].id == gone {
        NotInTail(items);
        forall i | 0 <= i < |items[1..]| ensures items[1..][i].id != gone {
          assert items[1..][i] == items[i + 1];
        }
      } else {
        RemoveFacts(items[1..], gone, id);
        var tail := Remove(items[1..], gone);
        assert ([items[0]] + tail)[1..] == tail;
        forall y | y in tail ensures KeyLess(items[0], y) && items[0].id != y.id {
          assert y in items[1..];
          var i :| 0 <= i < |items[1..]| && items[1..][i] == y;
          assert items[i + 1] == y;
        }
        Prepend(items[0], tail);
      }
    }
  }

  // ---- recovery ----------------------------------------------------------------------------------

  function Recover(x: Item): Item {
    if x.status == Running then x.(status := Pending, attempts := x.attempts + 1) else x
  }

  /** `_load`: pushes every recovered line of the queue file. */
  function Load(file: seq<Item>): seq<Item> {
    if file == [] then [] else Insert(Load(file[..|file| - 1]), Recover(file[|file| - 1]))
  }

  function RecoverAll(file: seq<Item>): seq<Item> {
    seq(|file|, i requires 0 <= i < |file| => Recover(file[i]))
  }

  lemma {:induction false} InsertAtEnd(items: seq<Item>, x: Item)
    requires forall i :: 0 <= i < |items| ==> !KeyLess(x, items[i])
    ensures Insert(items, x) == items + [x]
  {
    if items != [] {
      forall i | 0 <= i < |items[1..]| ensures !KeyLess(x, items[1..][i]) {
        assert items[1..][i] == items[i + 1];
      }
      InsertAtEnd(items[1..], x);
    }
  }

  /** Recovery does not touch what the order looks at. */
  lemma RecoverKey(a: Item, b: Item)
    ensures KeyLess(Recover(a), Recover(b)) <==> KeyLess(a, b)
    ensures Recover(a).id == a.id
  {
  }

  /** Reloading a sorted file gives the same order, with RUNNING reset to PENDING. */
  lemma {:induction false} LoadKeepsOrder(file: seq<Item>)
    requires Sorted(file) && UniqueIds(file)
    ensures Load(file) == RecoverAll(file)
    ensures Sorted(Load(file)) && UniqueIds(Load(file))
  {
    hide KeyLess, Recover;
    if file != [] {
      var front, last := file[..|file| - 1], file[|file| - 1];
      LoadKeepsOrder(front);
      forall i | 0 <= i < |front| ensures !KeyLess(Recover(last), Load(front)[i]) {
        assert Load(front)[i] == Recover(file[i]);
        KeyOrder(file[i], last);
        RecoverKey(last, file[i]);
      }
      InsertAtEnd(Load(front), Recover(last));
      assert RecoverAll(file) == RecoverAll(front) + [Recover(last)];
    }
    var r := RecoverAll(file);
    forall i, j | 0 <= i < j < |r| ensures KeyLess(r[i], r[j]) && r[i].id != r[j].id {
      assert KeyLess(file[i], file[j]);
      RecoverKey(file[i], file[j]);
      RecoverKey(file[j], file[i]);
    }
  }

  /** A reopened queue counts one more attempt for each task that was running, and changes nothing else. */
  lemma LoadMeaning(file: seq<Item>, i: nat)
    requires Sorted(file) && UniqueIds(file) && i < |file|
    ensures |Load(file)| == |file| && Load(file)[i] ==
      if file[i].status == Running then file[i].(status := Pending, attempts := file[i].attempts + 1) else file[i]
  {
    LoadKeepsOrder(file);
  }

  lemma {:induction false} FindRecovered(file: seq<Item>, id: string)
    ensures Find(RecoverAll(file), id)
            == if Find(file, id).Some? then Some(Recover(Find(file, id).value)) else None
  {
    if file != [] {
      assert RecoverAll(file)[1..] == RecoverAll(file[1..]);
      FindRecovered(file[1..], id);
    }
  }

  // ---- the operations: new memory, and the file effects in order ---------------------------------

  datatype Effect = Replace(items: seq<Item>) | Append(item: Item)

  /** The contents of queue file and history after some effects. */
  function Written(file: seq<Item>, history: seq<Item>, effects: seq<Effect>): (seq<Item>, seq<Item>) {
    if effects == [] then (file, history) else
      var (f, h) := Written(file, history, effects[..|effects| - 1]);
      match effects[|effects| - 1]
      case Replace(items) => (items, h)
      case Append(item) => (f, h + [item])
  }

  lemma ArchiveThenPersist(file: seq<Item>, history: seq<Item>, x: Item, mem: seq<Item>)
    ensures Written(file, history, [Append(x)] + [Replace(mem)]) == (mem, history + [x])
  {
    var first: seq<Effect> := [Append(x)];
    assert (first + [Replace(mem)])[..1] == first && first[..0] == [];
    assert Written(file, history, first) == (file, history + [x]);
  }

  datatype Op =
    | Enqueue(item: Item)
    | Dequeue(now: real)
    | Complete(id: string, result: Option<string>, now: real)
    | Fail(id: string, error: string, deadLetter: bool, now: real)
    | Cancel(id: string, now: real)

  function NewItem(id: string, taskType: string, payload: string, priority: string, maxAttempts: int,
                   createdBy: Option<string>, now: real): Item {
    Item(id, taskType, payload, priority, maxAttempts, createdBy, now, Pending, None, None, 0, None, None, None)
  }

  function Started(x: Item, now: real): Item {
    x.(status := Running, startedAt := Some(now), attempts := x.attempts + 1,
       assignedTo := if x.assignedTo.None? || x.assignedTo.value == "" then Some("unknown") else x.assignedTo)
  }

  function Finished(x: Item, result: Option<string>, now: real): Item {
    x.(status := Completed, completedAt := Some(now), outcome := if result.Some? then result else x.outcome)
  }

  predicate GivesUp(x: Item, deadLetter: bool) {
    deadLetter || x.attempts >= x.maxAttempts
  }

  function Buried(x: Item, error: string, now: real): Item {
    x.(lastError := Some(error), completedAt := Some(now), status := DeadLetter)
  }

  function Requeued(x: Item, error: string, now: real): Item {
    x.(lastError := Some(error), completedAt := Some(now), status := Pending, startedAt := None)
  }

  function CancelledItem(x: Item, now: real): Item {
    x.(status := Cancelled, completedAt := Some(now))
  }

  datatype Plan = Plan(mem: seq<Item>, effects: seq<Effect>)

  function PlanOf(mem: seq<Item>, op: Op): Plan {
    match op
    case Enqueue(item) => if ValidPriority(item.priority) then Persisted(Insert(mem, item), []) else Plan(mem, [])
    case Dequeue(now) => if mem == [] then Plan(mem, []) else Persisted(Insert(mem[1..], Started(mem[0], now)), [])
    case Complete(id, result, now) =>
      var x := Find(mem, id);
      if x.None? then Plan(mem, []) else Persisted(Remove(mem, id), [Append(Finished(x.value, result, now))])
    case Fail(id, error, deadLetter, now) =>
      var x := Find(mem, id);
      if x.None? then Plan(mem, [])
      else if GivesUp(x.value, deadLetter) then
        Persisted(Remove(mem, id), [Append(Buried(x.value, error, now))])
      else Persisted(Insert(Remove(mem, id), Requeued(x.value, error, now)), [])
    case Cancel(id, now) =>
      var x := Find(mem, id);
      if x.None? then Plan(mem, []) else Persisted(Remove(mem, id), [Append(CancelledItem(x.value, now))])
  }

  /** Effects that end with `_persist`. */
  function Persisted(mem: seq<Item>, first: seq<Effect>): Plan {
    Plan(mem, first + [Replace(mem)])
  }

  /** A dequeued item goes back under the same key, so the queue keeps its place: the next dequeue meets it again. */
  lemma DequeueKeepsPlace(mem: seq<Item>, now: real)
    requires Sorted(mem) && UniqueIds(mem) && mem != []
    ensures PlanOf(mem, Dequeue(now)).mem == mem[0 := Started(mem[0], now)]
  {
    var x := Started(mem[0], now);
    if |mem| > 1 {
      assert KeyLess(mem[0], mem[1]);
      assert KeyLess(x, mem[1..][0]);
    }
    assert mem[0 := x] == [x] + mem[1..];
  }

  /** The item handed out comes before all others. */
  lemma HeadComesFirst(items: seq<Item>, now: real)
    requires Sorted(items) && ValidPriorities(items)
    ensures forall i :: 0 < i < |items| ==> ComesFirst(Started(items[0], now), items[i])
  {
    hide KeyLess, ComesFirst;
    forall i | 0 < i < |items| ensures ComesFirst(Started(items[0], now), items[i]) {
      assert KeyLess(items[0], items[i]);
      KeyIsUrgency(items[0], items[i]);
      SameUrgency(items[0], Started(items[0], now), items[i]);
    }
  }

  lemma SameUrgency(x: Item, y: Item, z: Item)
    requires SameKey(x, y)
    ensures ComesFirst(x, z) <==> ComesFirst(y, z)
  {
  }

  /** Hand-out is not exclusive: two dequeues in a row return the same task. */
  lemma DequeueTwice(mem: seq<Item>, first: real, second: real)
    requires Sorted(mem) && UniqueIds(mem) && mem != []
    ensures var m1 := PlanOf(mem, Dequeue(first)).mem;
            m1 != [] && m1[0].id == mem[0].id && Started(m1[0], second).attempts == mem[0].attempts + 2
  {
    DequeueKeepsPlace(mem, first);
  }

  /** Removing an item and pushing it back under its key restores its place. */
  lemma {:induction false} PushBack(items: seq<Item>, i: nat, x: Item)
    requires Sorted(items) && UniqueIds(items) && i < |items| && SameKey(items[i], x)
    ensures Insert(Remove(items, x.id), x) == items[i := x]
  {
    SortedTail(items);
    if i == 0 {
      if |items| > 1 {
        assert KeyLess(items[0], items[1]);
        assert KeyLess(x, items[1..][0]);
      }
      assert items[0 := x] == [x] + items[1..];
    } else {
      assert items[0].id != items[i].id;
      assert KeyLess(items[0], items[i]);
      KeyOrder(items[0], x);
      PushBack(items[1..], i - 1, x);
      var tail := Remove(items[1..], x.id);
      assert Remove(items, x.id) == [items[0]] + tail;
      assert ([items[0]] + tail)[1..] == tail;
      assert items[i := x] == [items[0]] + items[1..][i - 1 := x];
    }
  }

  // ---- the classes -------------------------------------------------------------------------------

  /** One turn of the scan in `push`: a larger key stops it, any other is passed over. */
  lemma InsertStops(tail: seq<Item>, x: Item)
    requires tail != [] && KeyLess(x, tail[0])
    ensures Insert(tail, x) == [x] + tail
  {
  }

  lemma InsertPasses(front: seq<Item>, head: Item, tail: seq<Item>, x: Item)
    requires !KeyLess(x, head)
    ensures front + Insert([head] + tail, x) == front + [head] + Insert(tail, x)
  {
    hide KeyLess;
    assert ([head] + tail)[1..] == tail;
    assert Insert([head] + tail, x) == [head] + Insert(tail, x);
  }

  class PriorityQueue {
    var items: seq<Item>

    constructor ()
      ensures items == []
    {
      items := [];
    }

    method Push(item: Item)
      modifies this
      ensures items == Insert(old(items), item)
    {
      var i := 0;
      while i < |items|
        invariant 0 <= i <= |items| && items == old(items)
        invariant Insert(items, item) == items[..i] + Insert(items[i..], item)
      {
        hide KeyLess, Insert;
        if KeyLess(item, items[i]) {
          InsertStops(items[i..], item);
          break;
        }
        InsertPasses(items[..i], items[i], items[i + 1..], item);
        assert items[i..] == [items[i]] + items[i + 1..] && items[..i + 1] == items[..i] + [items[i]];
        i := i + 1;
      }
      assert i == |items| ==> items[i..] == [];
      items := items[..i] + [item] + items[i..];
    }

    method Pop() returns (r: Option<Item>)
      modifies this
      ensures old(items) == [] ==> r == None && items == []
      ensures old(items) != [] ==> r == Some(old(items)[0]) && items == old(items)[1..]
    {
      if items == [] {
        return None;
      }
      r := Some(items[0]);
      items := items[1..];
    }

    method RemoveById(id: string) returns (ok: bool)
      modifies this
      ensures items == Remove(old(items), id) && (ok <==> Find(old(items), id).Some?)
    {
      var all := items;
      for i := 0 to |all|
        invariant items == all == old(items)
        invariant forall k :: 0 <= k < i ==> all[k].id != id
      {
        if all[i].id == id {
          FirstMatch(all, id, i);
          items := all[..i] + all[i + 1..];
          return true;
        }
      }
      FirstMatch(all, id, |all|);
      return false;
    }

    /** The search loop shared by `complete`, `fail`, `cancel` and `get`. */
    method Lookup(id: string) returns (r: Option<Item>)
      ensures r == Find(items, id)
    {
      for i := 0 to |items|
        invariant forall k :: 0 <= k < i ==> items[k].id != id
      {
        if items[i].id == id {
          FirstMatch(items, id, i);
          return Some(items[i]);
        }
      }
      FirstMatch(items, id, |items|);
      return None;
    }
  }

  /** The two files. The journal records the order in which they were written. */
  class Disk {
    var queueFile: seq<Item>
    var history: seq<Item>
    ghost var journal: seq<Effect>

    constructor ()
      ensures queueFile == [] && history == [] && journal == []
    {
      queueFile, history, journal := [], [], [];
    }

    method ReplaceQueue(items: seq<Item>)
      modifies this
      ensures queueFile == items && history == old(history) && journal == old(journal) + [Replace(items)]
    {
      queueFile := items;
      journal := journal + [Replace(items)];
    }

    method AppendHistory(item: Item)
      modifies this
      ensures queueFile == old(queueFile) && history == old(history) + [item]
      ensures journal == old(journal) + [Append(item)]
    {
      history := history + [item];
      journal := journal + [Append(item)];
    }
  }

  class TaskQueue {
    const queue: PriorityQueue
    const disk: Disk

    /** Opening the storage directory loads the queue file; nothing is written. */
    constructor (disk: Disk)
      ensures this.disk == disk && fresh(queue)
      ensures queue.items == Load(disk.queueFile)
    {
      this.disk := disk;
      queue := new PriorityQueue();
      new;
      for i := 0 to |disk.queueFile|
        invariant queue.items == Load(disk.queueFile[..i])
      {
        assert disk.queueFile[..i + 1][..i] == disk.queueFile[..i];
        var item := disk.queueFile[i];
        if item.status == Running {
          item := item.(status := Pending, attempts := item.attempts + 1);
        }
        queue.Push(item);
      }
      assert disk.queueFile[..|disk.queueFile|] == disk.queueFile;
    }

    /** Memory, files and journal moved as planned for op. */
    twostate predicate Did(op: Op)
      reads queue, disk
    {
      var plan := PlanOf(old(queue.items), op);
      && queue.items == plan.mem
      && disk.journal == old(disk.journal) + plan.effects
      && (disk.queueFile, disk.history) == Written(old(disk.queueFile), old(disk.history), plan.effects)
    }

    method Persist()
      modifies disk
      ensures disk.journal == old(disk.journal) + [Replace(queue.items)]
      ensures disk.queueFile == queue.items && disk.history == old(disk.history)
    {
      disk.ReplaceQueue(queue.items);
    }

    method Enqueue(taskType: string, payload: string, priority: string, maxAttempts: int, createdBy: Option<string>,
                   id: string, now: real) returns (r: Result<Item, string>)
      modifies queue, disk
      ensures Did(Op.Enqueue(NewItem(id, taskType, payload, priority, maxAttempts, createdBy, now)))
      ensures r == if ValidPriority(priority)
                   then Ok(NewItem(id, taskType, payload, priority, maxAttempts, createdBy, now))
                   else Err("invalid priority " + priority)
      ensures r.Ok? ==>
        && r.value.id == id && r.value.priority == priority && r.value.createdAt == now && r.value.status == Pending
        && r.value.attempts == 0 && r.value.maxAttempts == maxAttempts && r.value.payload == payload
    {
      if !ValidPriority(priority) {
        return Err("invalid priority " + priority);
      }
      var item := NewItem(id, taskType, payload, priority, maxAttempts, createdBy, now);
      queue.Push(item);
      Persist();
      return Ok(item);
    }

    method Dequeue(now: real) returns (r: Option<Item>)
      modifies queue, disk
      ensures Did(Op.Dequeue(now))
      ensures r == if old(queue.items) == [] then None else Some(Started(old(queue.items)[0], now))
      ensures Sorted(old(queue.items)) && ValidPriorities(old(queue.items)) ==>
        forall i :: 0 < i < |old(queue.items)| ==> ComesFirst(r.value, old(queue.items)[i])
    {
      if Sorted(queue.items) && ValidPriorities(queue.items) {
        HeadComesFirst(queue.items, now);
      }
      var popped := queue.Pop();
      if popped.None? {
        return None;
      }
      var item := Started(popped.value, now);
      queue.Push(item);
      Persist();
      return Some(item);
    }

    method Complete(id: string, result: Option<string>, now: real) returns (ok: bool)
      modifies queue, disk
      ensures Did(Op.Complete(id, result, now)) && (ok <==> Find(old(queue.items), id).Some?)
    {
      var item := queue.Lookup(id);
      if item.None? {
        return false;
      }
      disk.AppendHistory(Finished(item.value, result, now));
      var removed := queue.RemoveById(id);
      ArchiveThenPersist(old(disk.queueFile), old(disk.history), Finished(item.value, result, now), queue.items);
      Persist();
      return true;
    }

    method Fail(id: string, error: string, deadLetter: bool, now: real) returns (ok: bool)
      modifies queue, disk
      ensures Did(Op.Fail(id, error, deadLetter, now)) && (ok <==> Find(old(queue.items), id).Some?)
    {
      var item := queue.Lookup(id);
      if item.None? {
        return false;
      }
      var removed := queue.RemoveById(id);
      if deadLetter || item.value.attempts >= item.value.maxAttempts {
        disk.AppendHistory(Buried(item.value, error, now));
        ArchiveThenPersist(old(disk.queueFile), old(disk.history), Buried(item.value, error, now), queue.items);
      } else {
        queue.Push(Requeued(item.value, error, now));
      }
      Persist();
      return true;
    }

    method Cancel(id: string, now: real) returns (ok: bool)
      modifies queue, disk
      ensures Did(Op.Cancel(id, now)) && (ok <==> Find(old(queue.items), id).Some?)
    {
      var item := queue.Lookup(id);
      if item.None? {
        return false;
      }
      var removed := queue.RemoveById(id);
      disk.AppendHistory(CancelledItem(item.value, now));
      ArchiveThenPersist(old(disk.queueFile), old(disk.history), CancelledItem(item.value, now), queue.items);
      Persist();
      return true;
    }
  }
}
