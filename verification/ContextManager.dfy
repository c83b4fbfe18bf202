/** swarm/intelligence/context_manager.py: the manager itself, whose entries are found through three indexes, and
    what `get` finds after `set`. Entries are values; ids are drawn by the caller. */
module ContextManagers {
  import opened Prelude
  import opened ContextEntries

  /** The arguments of `set`. */
  datatype Request = Request(
    key: string, value: string, scope: Scope, priority: Priority, createdBy: string, ttl: Option<int>)

  function NewEntry(q: Request, id: string, now: real): Entry {
    Created(id, q.key, q.value, q.scope, q.priority, q.createdBy, q.ttl, now)
  }

  function Changed(e: Entry, q: Request, now: real): Entry {
    Rewritten(e, q.value, q.priority, q.ttl, now)
  }

  /** What `set` does to the entries, with newId as the id of a new one. */
  ghost predicate SetDoes(before: Entries, after: Entries, q: Request, newId: string, id: string, now: real) {
    var found := Find(before, q.scope, q.key);
    if found.Some? then id == found.value && after == before[id := Changed(before[id], q, now)]
    else id == newId && Enforces(before[newId := NewEntry(q, newId, now)], after, q.scope)
  }

  function ExpiredIds(entries: Entries, now: real): set<string> {
    set id | id in entries && Expired(entries[id], now)
  }

  /** What is left when the expired entries go. */
  lemma ExpiredGo(entries: Entries, now: real)
    ensures var rest := Minus(entries, ExpiredIds(entries, now));
      && |ExpiredIds(entries, now)| == |entries| - |rest|
      && forall id :: id in rest <==> id in entries && InTime(entries[id].expiresAt, now)
  {
    var gone := ExpiredIds(entries, now);
    var rest := Minus(entries, gone);
    assert rest.Keys == entries.Keys - gone;
    SizeLeft(entries.Keys, gone);
  }

  lemma ScopeGoes(entries: Entries, s: Scope)
    ensures var rest := Minus(entries, ScopeIds(entries, s));
      && |ScopeIds(entries, s)| == |entries| - |rest|
      && forall id :: id in rest <==> id in entries && entries[id].scope != s
  {
    var gone := ScopeIds(entries, s);
    var rest := Minus(entries, gone);
    assert rest.Keys == entries.Keys - gone;
    SizeLeft(entries.Keys, gone);
  }

  lemma LoadStep(all: Entries, todo: set<string>, id: string)
    requires OnePerKey(all) && id in todo && todo <= all.Keys
    ensures Minus(all, todo)[id := all[id]] == Minus(all, todo - {id})
    ensures id !in Minus(all, todo) && Find(Minus(all, todo), all[id].scope, all[id].key).None? && all[id].id == id
  {
  }

  /** One turn of the load: an entry with an empty creator goes into two of the indexes only. */
  lemma LoadOne(
    entries: Entries, scopeIndex: ScopeIndex, keyIndex: KeyIndex, agentIndex: AgentIndex, lost: set<string>, e: Entry)
    requires e.id !in entries && Find(entries, e.scope, e.key).None?
    requires Indexed(entries, scopeIndex, keyIndex, agentIndex, lost) && lost == AgentIds(entries, "")
    ensures var left := if e.createdBy == "" then lost + {e.id} else lost;
      && Indexed(entries[e.id := e], With(scopeIndex, e.scope, e.id), KeyPut(keyIndex, e.scope, e.key, e.id),
                 if e.createdBy == "" then agentIndex else With(agentIndex, e.createdBy, e.id), left)
      && left == AgentIds(entries[e.id := e], "")
  {
    AddKeepsIndexes(entries, scopeIndex, keyIndex, agentIndex, lost, e);
    AddedCreator(entries, e);
    hide Indexed, With, KeyPut, Find, AgentIds;
  }

  lemma AddedCreator(entries: Entries, e: Entry)
    requires e.id !in entries
    ensures AgentIds(entries[e.id := e], "") == AgentIds(entries, "") + if e.createdBy == "" then {e.id} else {}
  {
  }

  lemma AgentIdsThere(entries: Entries, a: string)
    ensures AgentIds(entries, a) <= entries.Keys
  {
  }

  ghost predicate GoodImage(image: Image) {
    OnePerKey(image.entries) && image.totalCreates == image.totalExpires + |image.entries|
  }

  // ---- the operations on values -------------------------------------------------------------------------

  /** The calls that change something, with the id drawn and the moment. */
  datatype Op =
    | Put(q: Request, newId: string, now: real)
    | Ask(key: string, within: Option<Scope>, agent: Option<string>, now: real)
    | AskEntry(id: string, now: real)
    | Drop(key: string, scope: Scope)
    | DropId(id: string)
    | Clean(now: real)
    | Clear(scope: Scope)

  /** The entries in memory, and those a restart would load. */
  datatype Store = Store(entries: Entries, saved: Entries)

  function OnFile(file: Option<Image>): Entries {
    if file.Some? then file.value.entries else map[]
  }

  function SearchOrder(scope: Option<Scope>): seq<Scope> {
    if scope.Some? then [scope.value] else ALL_SCOPES
  }

  /** What any call but `set` leaves in memory. */
  ghost function Left(entries: Entries, op: Op): Entries
    requires !op.Put?
  {
    match op
    case Ask(k, scope, agent, now) => Reading(entries, SearchOrder(scope), k, agent, now).0
    case AskEntry(id, now) => if id in entries && Expired(entries[id], now) then Minus(entries, {id}) else entries
    case Drop(k, s) =>
      var found := Find(entries, s, k);
      if found.Some? then Minus(entries, {found.value}) else entries
    case DropId(id) => Minus(entries, {id})
    case Clean(now) => Minus(entries, ExpiredIds(entries, now))
    case Clear(s) => Minus(entries, ScopeIds(entries, s))
  }

  /** Only `set` writes the state file. */
  ghost predicate Does(before: Store, op: Op, after: Store) {
    if op.Put? then
      && op.newId !in before.entries && after.saved == after.entries
      && exists id :: SetDoes(before.entries, after.entries, op.q, op.newId, id, op.now)
    else after == Store(Left(before.entries, op), before.saved)
  }

  /** Every entry in memory is in the file under the same scope and key. */
  ghost predicate Saved(entries: Entries, saved: Entries) {
    forall id :: id in entries ==> id in saved && SameKey(entries[id], saved[id])
  }

  /** The entries of the smaller map are those of the larger, up to value, deadline and counters. */
  ghost predicate Within(after: Entries, before: Entries) {
    forall id :: id in after ==> id in before && SameKey(after[id], before[id])
  }

  lemma LeftKeeps(entries: Entries, op: Op)
    requires OnePerKey(entries) && !op.Put?
    ensures Within(Left(entries, op), entries)
  {
    if op.Ask? {
      var rest := Left(entries, op);
      forall id | id in rest ensures SameKey(rest[id], entries[id]) {
        GetLeaves(entries, SearchOrder(op.within), op.key, op.agent, op.now, id);
      }
    }
  }

  lemma SavedStays(before: Entries, after: Entries, saved: Entries)
    requires Saved(before, saved) && Within(after, before)
    ensures Saved(after, saved)
  {
  }

  class HierarchicalContextManager {
    var entries: Entries
    var scopeIndex: ScopeIndex
    var keyIndex: KeyIndex
    var agentIndex: AgentIndex
    /** The entries that a restart left out of the agent index. */
    ghost var lost: set<string>
    var totalCreates: nat
    var totalReads: nat
    var totalExpires: nat
    /** The state file. */
    var file: Option<Image>

    /** The indexes agree with the entries, and every entry ever created is still there or was counted when it went. */
    ghost predicate Consistent()
      reads this
    {
      && Indexed(entries, scopeIndex, keyIndex, agentIndex, lost) && lost <= entries.Keys
      && totalCreates == totalExpires + |entries|
      && (file.Some? ==> GoodImage(file.value))
    }

    /** This is so between calls. */
    ghost predicate Valid()
      reads this
    {
      Consistent() && Saved(entries, OnFile(file))
    }

    ghost function Now(): Store
      reads this
    {
      Store(entries, OnFile(file))
    }

    constructor (file: Option<Image>)
      requires file.Some? ==> GoodImage(file.value)
      ensures Valid() && this.file == file
      ensures entries == OnFile(file) && lost == AgentIds(entries, "")
      ensures totalReads == if file.Some? then file.value.totalReads else 0
    {
      this.file := file;
      entries, scopeIndex, keyIndex, agentIndex, lost := map[], map[], map[], map[], {};
      totalCreates, totalReads, totalExpires := 0, 0, 0;
      new;
      if file.Some? {
        LoadState();
      }
    }

    method LoadState()
      requires Consistent() && file.Some? && entries == map[] && lost == {}
      modifies this`entries, this`scopeIndex, this`keyIndex, this`agentIndex, this`lost
      modifies this`totalCreates, this`totalReads, this`totalExpires
      ensures Consistent() && entries == file.value.entries && lost == AgentIds(entries, "")
      ensures totalReads == file.value.totalReads
    {
      hide Indexed, Minus, With, KeyPut, OnePerKey, Find, AgentIds, Saved, OnFile;
      var image, todo := file.value, file.value.entries.Keys;
      MinusAll(image.entries);
      AgentIdsThere(entries, "");
      MinusNothing(image.entries, {});
      while todo != {}
        invariant todo <= image.entries.Keys && entries == Minus(image.entries, todo)
        invariant Indexed(entries, scopeIndex, keyIndex, agentIndex, lost) && lost == AgentIds(entries, "")
        decreases todo
      {
        var id :| id in todo;
        LoadStep(image.entries, todo, id);
        LoadEntry(image.entries[id]);
        todo := todo - {id};
      }
      totalCreates, totalReads, totalExpires := image.totalCreates, image.totalReads, image.totalExpires;
      AgentIdsThere(entries, "");
    }

    /** One turn of that loop. */
    method LoadEntry(e: Entry)
      requires Indexed(entries, scopeIndex, keyIndex, agentIndex, lost) && lost == AgentIds(entries, "")
      requires e.id !in entries && Find(entries, e.scope, e.key).None?
      modifies this`entries, this`scopeIndex, this`keyIndex, this`agentIndex, this`lost
      ensures entries == old(entries)[e.id := e]
      ensures Indexed(entries, scopeIndex, keyIndex, agentIndex, lost) && lost == AgentIds(entries, "")
    {
      hide Indexed, With, KeyPut, Find, AgentIds;
      LoadOne(entries, scopeIndex, keyIndex, agentIndex, lost, e);
      entries := entries[e.id := e];
      scopeIndex := With(scopeIndex, e.scope, e.id);
      keyIndex := KeyPut(keyIndex, e.scope, e.key, e.id);
      if e.createdBy != "" {
        agentIndex := With(agentIndex, e.createdBy, e.id);
      } else {
        lost := lost + {e.id};
      }
    }

    method ExpireEntry(id: string)
      requires Consistent()
      modifies this`entries, this`scopeIndex, this`keyIndex, this`agentIndex, this`lost, this`totalExpires
      ensures Consistent() && entries == Minus(old(entries), {id}) && lost == old(lost) * entries.Keys
      ensures entries.Keys <= old(entries.Keys)
    {
      hide Indexed, KeyPop, GoodImage;
      if id !in entries {
        MinusNothing(entries, {id});
        return;
      }
      var e := entries[id];
      DropKeepsIndexes(entries, scopeIndex, keyIndex, agentIndex, lost, id);
      entries := Minus(entries, {id});
      scopeIndex := Less(scopeIndex, e.scope, id);
      keyIndex := KeyPop(keyIndex, e.scope, e.key);
      agentIndex := Less(agentIndex, e.createdBy, id);
      lost := lost - {id};
      totalExpires := totalExpires + 1;
    }

    /** The ids of a scope, visited in any order. */
    method Listing(s: Scope) returns (ids: seq<string>)
      requires Consistent()
      ensures Lists(entries, s, ids)
    {
      ids := [];
      var todo := Prelude.Get(scopeIndex, s, {});
      while todo != {}
        invariant Distinct(ids) && forall id :: id in ids ==> id !in todo
        invariant forall id :: id in ids || id in todo <==> id in ScopeIds(entries, s)
        decreases todo
      {
        var id :| id in todo;
        ids, todo := ids + [id], todo - {id};
      }
    }

    method EnforceScopeLimit(s: Scope)
      requires Consistent()
      modifies this`entries, this`scopeIndex, this`keyIndex, this`agentIndex, this`lost, this`totalExpires
      ensures Consistent() && Enforces(old(entries), entries, s) && Evicts(old(entries), entries, s)
      ensures GivesUpLowest(old(entries), entries, s)
      ensures lost == old(lost) * entries.Keys
    {
      hide Indexed, Minus, Doomed, Evicts, GivesUpLowest, Ranked, GoodImage, ScopeIds, Distinct;
      var was := entries;
      var ids := Listing(s);
      SortRanks(was, s, ids);
      var order, excess := SortByRank(was, ids), Excess(|ids|, s);
      NoneDoomed(was, order);
      MinusNothing(was, {});
      var i := 0;
      while i < excess
        invariant i <= excess <= |order|
        invariant Consistent() && entries == Minus(was, Doomed(was, order[..i])) && lost == old(lost) * entries.Keys
      {
        DoomedStep(was, order, i);
        if !was[order[i]].priority.Critical? {
          ExpireEntry(order[i]);
        }
        i := i + 1;
      }
      EnforcedEvicts(was, s, ids);
      EvictionMeaning(was, entries, s);
    }

    method SaveState()
      requires Consistent()
      modifies this`file
      ensures Consistent() && file == Some(Image(entries, totalCreates, totalReads, totalExpires))
    {
      hide ScopesAgree, KeysAgree, AgentsAgree, OnePerKey, Lookup;
      LookupIsSearch(entries, keyIndex, Global, "");
      file := Some(Image(entries, totalCreates, totalReads, totalExpires));
    }

    method Add(e: Entry)
      requires Consistent() && e.id !in entries && Find(entries, e.scope, e.key).None?
      modifies this`entries, this`scopeIndex, this`keyIndex, this`agentIndex, this`totalCreates
      ensures Consistent() && entries == old(entries)[e.id := e] && totalCreates == old(totalCreates) + 1
    {
      hide Indexed, With, KeyPut, Find, GoodImage;
      AddKeepsIndexes(entries, scopeIndex, keyIndex, agentIndex, lost, e);
      entries := entries[e.id := e];
      scopeIndex := With(scopeIndex, e.scope, e.id);
      keyIndex := KeyPut(keyIndex, e.scope, e.key, e.id);
      agentIndex := With(agentIndex, e.createdBy, e.id);
      totalCreates := totalCreates + 1;
    }

    /** Replacing an entry by one with the same scope, key and creator. */
    method Update(e: Entry)
      requires Consistent() && e.id in entries
      requires entries[e.id].scope == e.scope && entries[e.id].key == e.key && entries[e.id].createdBy == e.createdBy
      modifies this`entries
      ensures Consistent() && entries == old(entries)[e.id := e]
    {
      hide Indexed, GoodImage;
      UpdateKeepsIndexes(entries, scopeIndex, keyIndex, agentIndex, lost, e);
      entries := entries[e.id := e];
    }

    /** The id under a key: the index and a search of all entries say the same. */
    method IdOf(s: Scope, k: string) returns (r: Option<string>)
      requires Consistent()
      ensures r == Find(entries, s, k) && OnePerKey(entries)
    {
      LookupIsSearch(entries, keyIndex, s, k);
      r := Lookup(keyIndex, s, k);
    }

    method Set(q: Request, newId: string, now: real) returns (id: string)
      requires Valid() && newId !in entries
      modifies this
      ensures Valid() && SetDoes(old(entries), entries, q, newId, id, now)
      ensures file.Some? && file.value.entries == entries && Does(old(Now()), Put(q, newId, now), Now())
      ensures lost == old(lost) * entries.Keys
      ensures Find(old(entries), q.scope, q.key).None? ==>
        GivesUpLowest(old(entries)[newId := NewEntry(q, newId, now)], entries, q.scope)
      ensures totalCreates == old(totalCreates) + (if Find(old(entries), q.scope, q.key).Some? then 0 else 1)
      ensures totalReads == old(totalReads)
    {
      hide Indexed, Minus, KeyPut, Lookup, Evicts, GivesUpLowest, GoodImage, Find;
      var found := IdOf(q.scope, q.key);
      if found.Some? && found.value in entries {
        Update(Changed(entries[found.value], q, now));
        SaveState();
        return found.value;
      }
      Add(NewEntry(q, newId, now));
      EnforceScopeLimit(q.scope);
      SaveState();
      return newId;
    }

    lemma LeftIsSaved(op: Op)
      requires Valid() && !op.Put?
      ensures Saved(Left(entries, op), OnFile(file))
    {
      hide ScopesAgree, AgentsAgree, GoodImage, Left, Saved;
      LookupIsSearch(entries, keyIndex, Global, "");
      LeftKeeps(entries, op);
      SavedStays(entries, Left(entries, op), OnFile(file));
    }

    method Get(k: string, scope: Option<Scope>, agent: Option<string>, default: string, now: real) returns (v: string)
      requires Valid()
      modifies this`entries, this`scopeIndex, this`keyIndex, this`agentIndex, this`lost
      modifies this`totalReads, this`totalExpires
      ensures Valid()
      ensures var (rest, hit) := Reading(old(entries), SearchOrder(scope), k, agent, now);
        && entries == rest
        && v == (if hit.Some? then rest[hit.value].value else default)
        && totalReads == old(totalReads) + (if hit.Some? then 1 else 0)
      ensures Does(old(Now()), Ask(k, scope, agent, now), Now()) && lost == old(lost) * entries.Keys
    {
      hide Consistent, Reading, Saved, OnFile, SearchOrder;
      LeftIsSaved(Ask(k, scope, agent, now));
      v := Search(k, SearchOrder(scope), agent, default, now);
    }

    /** The loop over the scopes to search. */
    method Search(k: string, scopes: seq<Scope>, agent: Option<string>, default: string, now: real)
      returns (v: string)
      requires Consistent()
      modifies this`entries, this`scopeIndex, this`keyIndex, this`agentIndex, this`lost
      modifies this`totalReads, this`totalExpires
      ensures Consistent() && lost == old(lost) * entries.Keys
      ensures var (rest, hit) := Reading(old(entries), scopes, k, agent, now);
        && entries == rest
        && v == (if hit.Some? then rest[hit.value].value else default)
        && totalReads == old(totalReads) + (if hit.Some? then 1 else 0)
    {
      hide Indexed, Minus, Reading, Lookup, Find, GoodImage, Expired, Visible;
      var i := 0;
      ReadingEnds(entries, scopes, k, agent, now);
      ghost var meaning := Reading(entries, scopes, k, agent, now);
      while i < |scopes|
        invariant i <= |scopes| && Consistent() && lost == old(lost) * entries.Keys
        invariant totalReads == old(totalReads)
        invariant Reading(entries, scopes[i..], k, agent, now) == meaning
      {
        ReadingTurn(entries, scopes, i, k, agent, now);
        var found := IdOf(scopes[i], k);
        if found.Some? && found.value in entries {
          var id := found.value;
          if Expired(entries[id], now) {
            ExpireEntry(id);
          } else if Visible(entries[id], agent) {
            v := entries[id].value;
            Update(Accessed(entries[id], now));
            totalReads := totalReads + 1;
            return v;
          }
        }
        i := i + 1;
      }
      ReadingEnds(entries, scopes, k, agent, now);
      return default;
    }

    method GetEntry(id: string, now: real) returns (r: Option<Entry>)
      requires Valid()
      modifies this`entries, this`scopeIndex, this`keyIndex, this`agentIndex, this`lost, this`totalExpires
      ensures Valid()
      ensures r == if id in old(entries) && !Expired(old(entries)[id], now) then Some(old(entries)[id]) else None
      ensures entries == if r.Some? then old(entries) else Minus(old(entries), {id})
      ensures Does(old(Now()), AskEntry(id, now), Now()) && lost == old(lost) * entries.Keys
    {
      hide Indexed, Minus;
      LeftIsSaved(AskEntry(id, now));
      if id in entries && Expired(entries[id], now) {
        ExpireEntry(id);
        return None;
      }
      if id !in entries {
        MinusNothing(entries, {id});
        return None;
      }
      return Some(entries[id]);
    }

    method Delete(k: string, s: Scope) returns (ok: bool)
      requires Valid()
      modifies this`entries, this`scopeIndex, this`keyIndex, this`agentIndex, this`lost, this`totalExpires
      ensures Valid()
      ensures var found := Find(old(entries), s, k);
        (ok <==> found.Some?) && entries == if ok then Minus(old(entries), {found.value}) else old(entries)
      ensures Does(old(Now()), Drop(k, s), Now()) && lost == old(lost) * entries.Keys
    {
      hide Indexed, Minus;
      LeftIsSaved(Drop(k, s));
      var found := IdOf(s, k);
      if found.Some? && found.value in entries {
        ExpireEntry(found.value);
        return true;
      }
      return false;
    }

    method DeleteById(id: string) returns (ok: bool)
      requires Valid()
      modifies this`entries, this`scopeIndex, this`keyIndex, this`agentIndex, this`lost, this`totalExpires
      ensures Valid() && entries == Minus(old(entries), {id}) && (ok <==> id in old(entries))
      ensures Does(old(Now()), DropId(id), Now()) && lost == old(lost) * entries.Keys
    {
      hide Indexed, Minus;
      LeftIsSaved(DropId(id));
      if id in entries {
        ExpireEntry(id);
        return true;
      }
      MinusNothing(entries, {id});
      return false;
    }

    method CleanupExpired(now: real) returns (removed: nat)
      requires Valid()
      modifies this`entries, this`scopeIndex, this`keyIndex, this`agentIndex, this`lost, this`totalExpires
      ensures Valid() && entries == Minus(old(entries), ExpiredIds(old(entries), now))
      ensures removed == |ExpiredIds(old(entries), now)| == |old(entries)| - |entries|
      ensures forall id :: id in entries <==> id in old(entries) && InTime(old(entries)[id].expiresAt, now)
      ensures Does(old(Now()), Clean(now), Now()) && lost == old(lost) * entries.Keys
    {
      hide Indexed, Minus, ExpiredIds, InTime, Saved, OnFile;
      ExpiredGo(entries, now);
      LeftIsSaved(Clean(now));
      var ids := ExpiredIds(entries, now);
      removed := |ids|;
      ExpireAll(ids);
    }

    method ClearScope(s: Scope) returns (removed: nat)
      requires Valid()
      modifies this`entries, this`scopeIndex, this`keyIndex, this`agentIndex, this`lost, this`totalExpires
      ensures Valid() && entries == Minus(old(entries), ScopeIds(old(entries), s))
      ensures removed == |ScopeIds(old(entries), s)| == |old(entries)| - |entries|
      ensures forall id :: id in entries <==> id in old(entries) && old(entries)[id].scope != s
      ensures Does(old(Now()), Clear(s), Now()) && lost == old(lost) * entries.Keys
    {
      hide KeysAgree, AgentsAgree, GoodImage;
      ScopeGoes(entries, s);
      LeftIsSaved(Clear(s));
      var ids := Prelude.Get(scopeIndex, s, {});
      removed := |ids|;
      ExpireAll(ids);
    }

    /** The loop that both of them run over their list of ids. */
    method ExpireAll(ids: set<string>)
      requires Consistent()
      modifies this`entries, this`scopeIndex, this`keyIndex, this`agentIndex, this`lost, this`totalExpires
      ensures Consistent() && entries == Minus(old(entries), ids) && lost == old(lost) * entries.Keys
    {
      hide Indexed, Minus, GoodImage;
      var todo := ids;
      MinusNothing(entries, ids - ids);
      while todo != {}
        invariant Consistent() && todo <= ids && entries == Minus(old(entries), ids - todo)
        invariant lost == old(lost) * entries.Keys
        decreases todo
      {
        var id :| id in todo;
        MinusTurn(old(entries), ids, todo, id);
        ExpireEntry(id);
        todo := todo - {id};
      }
      assert ids - todo == ids;
    }
  }

  // ---- what `get` finds -------------------------------------------------------------------------------

  ghost predicate Answers(entries: Entries, s: Scope, k: string, agent: Option<string>, now: real, id: string) {
    Matches(entries, s, k, id) && !Expired(entries[id], now) && Visible(entries[id], agent)
  }

  ghost predicate Readable(entries: Entries, s: Scope, k: string, agent: Option<string>, now: real) {
    exists id :: Answers(entries, s, k, agent, now, id)
  }

  /** `get` answers from the first scope, in the order searched, with a live entry the agent may see. */
  lemma {:induction false} GetMeaning(
    entries: Entries, scopes: seq<Scope>, k: string, agent: Option<string>, now: real)
    requires OnePerKey(entries)
    ensures var hit := Reading(entries, scopes, k, agent, now).1;
      && (hit.None? ==> forall i :: 0 <= i < |scopes| ==> !Readable(entries, scopes[i], k, agent, now))
      && (hit.Some? ==> exists i :: 0 <= i < |scopes| && Answers(entries, scopes[i], k, agent, now, hit.value)
                           && forall j :: 0 <= j < i ==> !Readable(entries, scopes[j], k, agent, now))
    decreases |scopes|
  {
    if scopes != [] {
      var found := Find(entries, scopes[0], k);
      if found.Some? && Answers(entries, scopes[0], k, agent, now, found.value) {
        assert Answers(entries, scopes[0], k, agent, now, found.value);
      } else {
        assert !Readable(entries, scopes[0], k, agent, now);
        var gone := found.Some? && Expired(entries[found.value], now);
        var left := if gone then Minus(entries, {found.value}) else entries;
        GetMeaning(left, scopes[1..], k, agent, now);
        forall i | 0 <= i < |scopes[1..]|
          ensures Readable(left, scopes[1..][i], k, agent, now) == Readable(entries, scopes[i + 1], k, agent, now)
        {
          SameReadable(entries, left, scopes[i + 1], k, agent, now);
        }
      }
    }
  }

  /** Without a scope GLOBAL answers first, then TASK, AGENT and EPHEMERAL. */
  lemma GetEverywhere(entries: Entries, k: string, agent: Option<string>, now: real)
    requires OnePerKey(entries)
    ensures var hit := Reading(entries, SearchOrder(None), k, agent, now).1;
      && (hit.None? <==> forall s: Scope :: !Readable(entries, s, k, agent, now))
      && (hit.Some? ==>
            exists s :: Answers(entries, s, k, agent, now, hit.value)
              && (!s.Global? ==> !Readable(entries, Global, k, agent, now))
              && (s.Agent? || s.Ephemeral? ==> !Readable(entries, Task, k, agent, now))
              && (s.Ephemeral? ==> !Readable(entries, Agent, k, agent, now)))
  {
    var scopes := SearchOrder(None);
    var hit := Reading(entries, scopes, k, agent, now).1;
    GetMeaning(entries, scopes, k, agent, now);
    hide Reading, Answers;
    assert scopes[0] == Global && scopes[1] == Task && scopes[2] == Agent && scopes[3] == Ephemeral;
    if hit.Some? {
      var i :| 0 <= i < |scopes| && Answers(entries, scopes[i], k, agent, now, hit.value)
               && forall j :: 0 <= j < i ==> !Readable(entries, scopes[j], k, agent, now);
      assert Readable(entries, scopes[i], k, agent, now);
    } else {
      forall s: Scope ensures !Readable(entries, s, k, agent, now) {
        assert s == scopes[0] || s == scopes[1] || s == scopes[2] || s == scopes[3];
      }
    }
  }

  /** It drops nothing but expired entries under that key, and changes only the counters of the entry it returns. */
  lemma {:induction false} GetLeaves(
    entries: Entries, scopes: seq<Scope>, k: string, agent: Option<string>, now: real, id: string)
    requires OnePerKey(entries) && id in entries
    ensures var (rest, hit) := Reading(entries, scopes, k, agent, now);
      if id in rest then
        rest[id] == if hit == Some(id) then entries[id].(accessCount := entries[id].accessCount + 1,
                                                         lastAccessed := Some(now))
                    else entries[id]
      else entries[id].key == k && Expired(entries[id], now)
    decreases |scopes|
  {
    if scopes != [] {
      var found := Find(entries, scopes[0], k);
      if found.Some? && Expired(entries[found.value], now) && found.value != id {
        GetLeaves(Minus(entries, {found.value}), scopes[1..], k, agent, now, id);
      } else if found.None? || !Visible(entries[found.value], agent) {
        GetLeaves(entries, scopes[1..], k, agent, now, id);
      }
    }
  }

  lemma SameReadable(a: Entries, b: Entries, s: Scope, k: string, agent: Option<string>, now: real)
    requires b.Keys <= a.Keys && forall id :: id in b ==> b[id] == a[id]
    requires forall id :: id in a && id !in b ==> Expired(a[id], now)
    ensures Readable(a, s, k, agent, now) == Readable(b, s, k, agent, now)
  {
    if id :| Answers(a, s, k, agent, now, id) {
      assert Answers(b, s, k, agent, now, id);
    }
    if id :| Answers(b, s, k, agent, now, id) {
      assert Answers(a, s, k, agent, now, id);
    }
  }

  lemma EvictionShrinks(before: Entries, after: Entries, s: Scope)
    requires Enforces(before, after, s)
    ensures forall id :: id in after ==> id in before && after[id] == before[id]
  {
  }

  /** After `set` no other entry matches the key. */
  lemma SetLeavesOne(before: Entries, after: Entries, q: Request, newId: string, id: string, now: real)
    requires OnePerKey(before) && newId !in before && SetDoes(before, after, q, newId, id, now)
    ensures Find(after, q.scope, q.key) == if id in after then Some(id) else None
    ensures Find(before, q.scope, q.key).Some? ==>
      id == Find(before, q.scope, q.key).value && id in after && after[id] == Changed(before[id], q, now)
    ensures Find(before, q.scope, q.key).None? ==> id == newId && (id in after ==> after[id] == NewEntry(q, newId, now))
  {
    hide Enforces;
    if Find(before, q.scope, q.key).None? {
      EvictionShrinks(before[newId := NewEntry(q, newId, now)], after, q.scope);
    }
    forall i | Matches(after, q.scope, q.key, i) ensures i == id {
      assert i != newId ==> Matches(before, q.scope, q.key, i);
    }
    assert id in after ==> Matches(after, q.scope, q.key, id);
  }

  lemma ReadingOne(entries: Entries, s: Scope, k: string, agent: Option<string>, now: real)
    ensures var found := Find(entries, s, k);
      Reading(entries, [s], k, agent, now).1 ==
        if found.Some? && Answers(entries, s, k, agent, now, found.value) then found else None
  {
    ReadingTurn(entries, [s], 0, k, agent, now);
  }

  predicate MayRead(s: Scope, creator: string, agent: Option<string>) {
    s.Global? || s.Task? || agent.None? || creator == agent.value
  }

  /** The lifetime of a new entry: as asked for, or by its scope. */
  predicate InLife(q: Request, now: real, later: real) {
    if q.ttl.Some? then later <= now + q.ttl.value as real else
      match q.scope
      case Global => true
      case Task => later <= now + 3600.0
      case Agent => later <= now + 1800.0
      case Ephemeral => later <= now + 300.0
  }

  predicate InTime(deadline: Option<real>, now: real) {
    deadline.Some? ==> now <= deadline.value
  }

  /** Setting a key that is there: a `get` in the same scope finds the new value exactly while the deadline has not
      passed and the agent may see it. Without a ttl the old deadline counts, so on an expired entry the new value
      is lost. */
  lemma SetAgainThenGet(
    before: Entries, after: Entries, q: Request, newId: string, id: string, now: real, agent: Option<string>,
    later: real)
    requires OnePerKey(before) && newId !in before && SetDoes(before, after, q, newId, id, now)
    requires Find(before, q.scope, q.key).Some?
    ensures var stored := before[Find(before, q.scope, q.key).value];
      var hit := Reading(after, [q.scope], q.key, agent, later).1;
      && (hit.Some? ==> hit.value == id && after[id].value == q.value)
      && after[id] == stored.(value := q.value, priority := q.priority, expiresAt := after[id].expiresAt,
                              ttl := if q.ttl.Some? then q.ttl else stored.ttl)
      && (hit.Some? <==>
            && (if q.ttl.Some? then later <= now + q.ttl.value as real else InTime(stored.expiresAt, later))
            && MayRead(q.scope, stored.createdBy, agent))
  {
    SetLeavesOne(before, after, q, newId, id, now);
    ReadingOne(after, q.scope, q.key, agent, later);
    hide Reading, SetDoes, Enforces, OnePerKey;
  }

  /** Setting a new key: the same with the scope's default ttl, provided the entry was not itself evicted. */
  lemma SetNewThenGet(
    before: Entries, after: Entries, q: Request, newId: string, id: string, now: real, agent: Option<string>,
    later: real)
    requires OnePerKey(before) && newId !in before && SetDoes(before, after, q, newId, id, now)
    requires Find(before, q.scope, q.key).None?
    ensures var hit := Reading(after, [q.scope], q.key, agent, later).1;
      && (hit.Some? ==> hit.value == id && after[id].value == q.value)
      && (newId in after ==>
            && after[newId].scope == q.scope && after[newId].key == q.key && after[newId].priority == q.priority
            && after[newId].createdBy == q.createdBy && after[newId].createdAt == now && after[newId].accessCount == 0)
      && (hit.Some? <==>
            && newId in after
            && InLife(q, now, later)
            && MayRead(q.scope, q.createdBy, agent))
  {
    SetLeavesOne(before, after, q, newId, id, now);
    ReadingOne(after, q.scope, q.key, agent, later);
    hide Reading, SetDoes, Enforces, OnePerKey;
  }

  /** The entries of a scope that rank strictly below e, and those that do not rank above it. */
  function Lower(entries: Entries, s: Scope, e: Entry): set<string> {
    set i | i in ScopeIds(entries, s) && !RankLe(e, entries[i])
  }

  function NotHigher(entries: Entries, s: Scope, e: Entry): set<string> {
    set i | i in ScopeIds(entries, s) && RankLe(entries[i], e)
  }

  /** What the state before says about a new entry. It is kept, whatever the visiting order, exactly if it is
      CRITICAL or enough others rank below it. It is itself evicted, whatever the order, so that `set` returns an id
      that is not stored, exactly if it is not CRITICAL and too few others rank no higher. */
  lemma NewEntryKept(before: Entries, q: Request, newId: string, now: real)
    requires newId !in before && Find(before, q.scope, q.key).None?
    ensures var e, others := NewEntry(q, newId, now), |ScopeIds(before, q.scope)|;
      && ((forall after :: SetDoes(before, after, q, newId, newId, now) ==> newId in after) <==>
            q.priority.Critical? || others < Limit(q.scope) + |Lower(before, q.scope, e)|)
      && ((forall after :: SetDoes(before, after, q, newId, newId, now) ==> newId !in after) <==>
            !q.priority.Critical? && others >= Limit(q.scope) + |NotHigher(before, q.scope, e)|)
  {
    hide RankLe, Limit, Enforced, Lists;
    var e := NewEntry(q, newId, now);
    var with := before[newId := e];
    AmongOthers(before, q.scope, e);
    hide ScopeIds, Below, NotAbove, Lower, NotHigher;
    SurvivesAlways(with, q.scope, newId);
    forall ids | Lists(with, q.scope, ids) ensures SetDoes(before, Enforced(with, q.scope, ids), q, newId, newId, now) {
    }
  }

  lemma AmongOthers(before: Entries, s: Scope, e: Entry)
    requires e.id !in before && e.scope == s
    ensures var with := before[e.id := e];
      && e.id in ScopeIds(with, s) && |ScopeIds(with, s)| == |ScopeIds(before, s)| + 1
      && Below(with, s, e.id) == Lower(before, s, e) && NotAbove(with, s, e.id) == NotHigher(before, s, e)
  {
    hide RankLe;
    SelfRank(e);
    assert ScopeIds(before[e.id := e], s) == ScopeIds(before, s) + {e.id};
  }
}
