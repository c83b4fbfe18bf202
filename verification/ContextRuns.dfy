/** swarm/intelligence/context_manager.py: what a restart brings back. Only `set` writes the state file, so whatever has
    taken an entry out of memory is undone by a restart exactly if no `set` has run since. */
module ContextRuns {
  import opened Prelude
  import opened ContextEntries
  import opened ContextManagers

  ghost predicate Run(states: seq<Store>, ops: seq<Op>) {
    && |states| == |ops| + 1
    && forall i :: 0 <= i < |ops| ==> Does(states[i], ops[i], states[i + 1])
  }

  function Last(states: seq<Store>): Store
    requires states != []
  {
    states[|states| - 1]
  }

  /** What a manager guarantees between calls. */
  ghost predicate Sound(st: Store) {
    OnePerKey(st.entries) && OnePerKey(st.saved) && Saved(st.entries, st.saved)
  }

  lemma ValidIsSound(m: HierarchicalContextManager)
    requires m.Valid()
    ensures Sound(m.Now())
  {
    hide ScopesAgree, AgentsAgree, OnePerKey, Saved;
    LookupIsSearch(m.entries, m.keyIndex, Global, "");
    assert OnePerKey(map[]) by {
      hide *;
      EmptyIsOnePerKey();
    }
  }

  lemma EmptyIsOnePerKey()
    ensures OnePerKey(map[])
  {
  }

  predicate Saves(ops: seq<Op>) {
    exists i :: 0 <= i < |ops| && ops[i].Put?
  }

  predicate Draws(op: Op, id: string) {
    op.Put? && op.newId == id
  }

  predicate Sets(op: Op, s: Scope, k: string) {
    op.Put? && op.q.scope == s && op.q.key == k
  }

  // ---- one step -----------------------------------------------------------------------------------------

  ghost predicate Absent(entries: Entries, s: Scope, k: string) {
    Find(entries, s, k).None?
  }

  /** What `set` stores: entries that were there, and one under its own key. */
  lemma PutAdds(before: Store, op: Op, after: Store)
    requires op.Put? && OnePerKey(before.entries) && Does(before, op, after)
    ensures forall id :: id in after.entries && id != op.newId ==>
              id in before.entries && SameKey(after.entries[id], before.entries[id])
    ensures op.newId in after.entries ==>
              && Find(before.entries, op.q.scope, op.q.key).None?
              && after.entries[op.newId].scope == op.q.scope && after.entries[op.newId].key == op.q.key
    ensures (forall id :: id in after.entries ==> after.entries[id].id == id) && Saved(after.entries, after.saved)
  {
    hide Find;
    var id :| SetDoes(before.entries, after.entries, op.q, op.newId, id, op.now);
    if Find(before.entries, op.q.scope, op.q.key).None? {
      EvictionShrinks(before.entries[op.newId := NewEntry(op.q, op.newId, op.now)], after.entries, op.q.scope);
    }
    hide Enforces;
  }

  lemma PutKeepsOne(before: Store, op: Op, after: Store)
    requires op.Put? && OnePerKey(before.entries) && Does(before, op, after)
    ensures OnePerKey(after.entries) && Saved(after.entries, after.saved)
  {
    PutAdds(before, op, after);
    hide Does;
    assert op.newId in after.entries ==>
      forall i :: i in before.entries ==> !Matches(before.entries, op.q.scope, op.q.key, i);
  }

  lemma StepKeepsSound(before: Store, op: Op, after: Store)
    requires Sound(before) && Does(before, op, after)
    ensures Sound(after)
  {
    if op.Put? {
      PutKeepsOne(before, op, after);
    } else {
      LeftKeeps(before.entries, op);
      LeftIds(before.entries, op);
      SavedStays(before.entries, after.entries, before.saved);
    }
  }

  lemma LeftIds(entries: Entries, op: Op)
    requires OnePerKey(entries) && !op.Put?
    ensures OnePerKey(Left(entries, op))
  {
    LeftKeeps(entries, op);
    var rest := Left(entries, op);
    if op.Ask? {
      forall id | id in rest ensures rest[id].id == id {
        GetLeaves(entries, SearchOrder(op.within), op.key, op.agent, op.now, id);
      }
    }
    hide Left;
  }

  /** A call that keeps none of the entries under a key leaves nothing there, unless it sets that key. */
  lemma StepWithout(before: Store, op: Op, after: Store, s: Scope, k: string)
    requires Sound(before) && Does(before, op, after)
    requires forall i :: Matches(before.entries, s, k, i) ==> i !in after.entries
    ensures !Sets(op, s, k) ==> Absent(after.entries, s, k)
    ensures after.saved == if op.Put? then after.entries else before.saved
  {
    if op.Put? {
      PutAdds(before, op, after);
    } else {
      LeftKeeps(before.entries, op);
    }
    hide Left, Enforces, OnePerKey, Saved;
    assert !Sets(op, s, k) ==> forall i :: Matches(after.entries, s, k, i) ==> Matches(before.entries, s, k, i);
  }

  lemma StaysOut(before: Store, op: Op, after: Store, id: string)
    requires Sound(before) && Does(before, op, after) && id !in before.entries && !Draws(op, id)
    ensures id !in after.entries
  {
    if op.Put? {
      PutAdds(before, op, after);
    } else {
      LeftKeeps(before.entries, op);
    }
  }

  // ---- what a restart brings back --------------------------------------------------------------------------

  ghost predicate Untouched(ops: seq<Op>, s: Scope, k: string) {
    forall i :: 0 <= i < |ops| ==> !Sets(ops[i], s, k)
  }

  /** What becomes of an entry that the first of these calls took out of memory. */
  ghost predicate Fate(st: Store, ops: seq<Op>, s: Scope, k: string, id: string) {
    && id !in st.entries
    && (if Saves(ops) then id !in st.saved else Matches(st.saved, s, k, id))
    && (Untouched(ops, s, k) ==> Absent(st.entries, s, k) && (Saves(ops) ==> Absent(st.saved, s, k)))
  }

  lemma SavesLast(ops: seq<Op>, op: Op)
    ensures Saves(ops + [op]) <==> Saves(ops) || op.Put?
  {
    var all := ops + [op];
    assert all[|ops|] == op;
    if i :| 0 <= i < |ops| && ops[i].Put? {
      assert all[i].Put?;
    }
  }

  lemma UntouchedLast(ops: seq<Op>, op: Op, s: Scope, k: string)
    ensures Untouched(ops + [op], s, k) <==> Untouched(ops, s, k) && !Sets(op, s, k)
  {
    var all := ops + [op];
    assert all[|ops|] == op && forall i :: 0 <= i < |ops| ==> all[i] == ops[i];
  }

  lemma Removal(before: Store, op: Op, after: Store, id: string)
    requires Sound(before) && Does(before, op, after) && id in before.entries && id !in after.entries
    ensures var e := before.entries[id]; Fate(after, [op], e.scope, e.key, id)
  {
    var e := before.entries[id];
    StepWithout(before, op, after, e.scope, e.key);
    SavesLast([], op);
    UntouchedLast([], op, e.scope, e.key);
    assert [] + [op] == [op];
    hide Does, Left, Saves, Untouched, Find, OnePerKey;
  }

  lemma FateGoesOn(before: Store, op: Op, after: Store, ops: seq<Op>, s: Scope, k: string, id: string)
    requires Sound(before) && Does(before, op, after) && Fate(before, ops, s, k, id) && !Draws(op, id)
    ensures Fate(after, ops + [op], s, k, id)
  {
    SavesLast(ops, op);
    UntouchedLast(ops, op, s, k);
    StaysOut(before, op, after, id);
    if Absent(before.entries, s, k) {
      StepWithout(before, op, after, s, k);
    }
    hide Left, Saves, Untouched, Find, OnePerKey, Saved, Sets;
  }

  lemma {:induction false} FateOfRun(states: seq<Store>, ops: seq<Op>, id: string)
    requires Run(states, ops) && ops != [] && Sound(states[0])
    requires id in states[0].entries && id !in states[1].entries
    requires forall i :: 0 <= i < |ops| ==> !Draws(ops[i], id)
    ensures Sound(Last(states))
    ensures var e := states[0].entries[id]; Fate(Last(states), ops, e.scope, e.key, id)
  {
    hide Sound, Does, Fate, Draws;
    var n := |ops| - 1;
    if n == 0 {
      assert ops == [ops[0]];
      StepKeepsSound(states[0], ops[0], states[1]);
      Removal(states[0], ops[0], states[1], id);
    } else {
      assert ops == ops[..n] + [ops[n]];
      FateOfRun(states[..n + 1], ops[..n], id);
      StepKeepsSound(states[n], ops[n], states[n + 1]);
      var e := states[0].entries[id];
      FateGoesOn(states[n], ops[n], states[n + 1], ops[..n], e.scope, e.key, id);
    }
  }

  /** However an entry went (deleted, cleared, expired, found expired by `get`, or evicted), it is back after a restart
      exactly if no `set` completed between the moment before it went and the restart; ids are never drawn twice. */
  lemma RestartUndoesRemoval(states: seq<Store>, ops: seq<Op>, id: string)
    requires Run(states, ops) && ops != [] && Sound(states[0])
    requires id in states[0].entries && id !in states[1].entries
    requires forall i :: 0 <= i < |ops| ==> !Draws(ops[i], id)
    ensures var e, back := states[0].entries[id], Last(states).saved;
      && (id in back <==> !Saves(ops))
      && (Find(back, e.scope, e.key) == Some(id) <==> !Saves(ops))
      && (Untouched(ops, e.scope, e.key) ==> (Find(back, e.scope, e.key).None? <==> Saves(ops)))
  {
    FateOfRun(states, ops, id);
    hide Run, Saves, Untouched, Saved;
  }

  // ---- on managers ------------------------------------------------------------------------------------------

  /** The agent index comes back whole exactly if no stored entry has an empty creator. */
  method Restart(m: HierarchicalContextManager) returns (n: HierarchicalContextManager)
    requires m.Valid()
    ensures n.Valid() && fresh(n) && n.file == m.file && n.Now() == Store(m.Now().saved, m.Now().saved)
    ensures AgentsExact(n.entries, n.agentIndex) <==> AgentIds(n.entries, "") == {}
  {
    hide ScopesAgree, KeysAgree, AgentsAgree, AgentsExact, GoodImage, Saved;
    n := new HierarchicalContextManager(m.file);
    ExactUnlessLost(n.entries, n.agentIndex, n.lost);
  }

  lemma SavedUnderKey(st: Store, s: Scope, k: string)
    requires Sound(st) && Find(st.entries, s, k).Some?
    ensures Find(st.saved, s, k) == Find(st.entries, s, k)
  {
    assert Matches(st.saved, s, k, Find(st.entries, s, k).value);
  }

  lemma DropDrops(before: Store, k: string, s: Scope, after: Store)
    requires Sound(before) && Does(before, Drop(k, s), after)
    ensures Absent(after.entries, s, k) && after.saved == before.saved && after.entries.Keys <= before.entries.Keys
  {
    StepWithout(before, Drop(k, s), after, s, k);
  }

  /** Nothing is asked of the file: a restart brings back what the last `set` wrote. */
  method DeleteThenRestart(m: HierarchicalContextManager, k: string, s: Scope)
    returns (ok: bool, n: HierarchicalContextManager)
    requires m.Valid()
    modifies m
    ensures n.Valid() && n.entries == old(m.Now()).saved
    ensures ok <==> old(Find(m.entries, s, k)).Some?
    ensures Find(m.entries, s, k).None? && (ok ==> Find(n.entries, s, k) == old(Find(m.entries, s, k)))
  {
    hide HierarchicalContextManager.Valid, Does, Sound, Find;
    ValidIsSound(m);
    ghost var was := m.Now();
    ok := m.Delete(k, s);
    DropDrops(was, k, s, m.Now());
    if ok {
      SavedUnderKey(was, s, k);
    }
    n := Restart(m);
  }

  /** A `set` in between that does not set the key again makes the deletion last. */
  method DeleteSetThenRestart(
    m: HierarchicalContextManager, k: string, s: Scope, q: Request, newId: string, now: real)
    returns (ok: bool, n: HierarchicalContextManager)
    requires m.Valid() && newId !in m.entries
    modifies m
    ensures n.Valid() && n.entries == m.entries
    ensures ok <==> old(Find(m.entries, s, k)).Some?
    ensures !Sets(Put(q, newId, now), s, k) ==> Find(n.entries, s, k).None?
  {
    hide HierarchicalContextManager.Valid, Does, SetDoes, Sound, Find, Sets;
    ValidIsSound(m);
    ghost var was := m.Now();
    ok := m.Delete(k, s);
    ValidIsSound(m);
    ghost var mid := m.Now();
    DropDrops(was, k, s, mid);
    var id := m.Set(q, newId, now);
    StepWithout(mid, Put(q, newId, now), m.Now(), s, k);
    n := Restart(m);
  }
}
