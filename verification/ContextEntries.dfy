/** swarm/intelligence/context_manager.py: the entries of the context manager, its three indexes and its eviction by
    rank, on values. */
module ContextEntries {
  import opened Prelude

  datatype Scope = Global | Task | Agent | Ephemeral

  datatype Priority = Critical | High | Medium | Low

  datatype Entry = Entry(
    id: string, scope: Scope, priority: Priority, key: string, value: string, createdAt: real, createdBy: string,
    ttl: Option<int>, expiresAt: Option<real>, accessCount: nat, lastAccessed: Option<real>)

  type Entries = map<string, Entry>

  /** The state file. */
  datatype Image = Image(entries: Entries, totalCreates: nat, totalReads: nat, totalExpires: nat)

  function DefaultTtl(s: Scope): Option<int> {
    match s
    case Global => None
    case Task => Some(3600)
    case Agent => Some(1800)
    case Ephemeral => Some(300)
  }

  function Limit(s: Scope): nat {
    match s
    case Global => 200
    case Task => 100
    case Agent => 50
    case Ephemeral => 20
  }

  const ALL_SCOPES := [Global, Task, Agent, Ephemeral]

  predicate Expired(e: Entry, now: real) {
    e.expiresAt.Some? && now > e.expiresAt.value
  }

  predicate Visible(e: Entry, agent: Option<string>) {
    e.scope.Global? || e.scope.Task? || agent.None? || e.createdBy == agent.value
  }

  function Deadline(ttl: Option<int>, now: real): Option<real> {
    if ttl.Some? then Some(now + ttl.value as real) else None
  }

  function Created(
    id: string, key: string, value: string, scope: Scope, priority: Priority, creator: string, ttl: Option<int>,
    now: real): Entry
  {
    var ttl := if ttl.Some? then ttl else DefaultTtl(scope);
    Entry(id, scope, priority, key, value, now, creator, ttl, Deadline(ttl, now), 0, None)
  }

  /** Without a new ttl the old deadline stays, even when it has passed. */
  function Rewritten(e: Entry, value: string, priority: Priority, ttl: Option<int>, now: real): Entry {
    var e := e.(value := value, priority := priority);
    if ttl.Some? then e.(ttl := ttl, expiresAt := Deadline(ttl, now)) else e
  }

  function Accessed(e: Entry, now: real): Entry {
    e.(accessCount := e.accessCount + 1, lastAccessed := Some(now))
  }

  // ---- the entries without any index ---------------------------------------------------------------

  predicate Matches(entries: Entries, s: Scope, k: string, id: string) {
    id in entries && entries[id].scope == s && entries[id].key == k
  }

  ghost function Find(entries: Entries, s: Scope, k: string): (r: Option<string>)
    ensures r.Some? ==> Matches(entries, s, k, r.value)
    ensures r.None? ==> forall id :: !Matches(entries, s, k, id)
  {
    if exists id :: Matches(entries, s, k, id) then
      var id :| Matches(entries, s, k, id);
      Some(id)
    else None
  }

  predicate SameKey(a: Entry, b: Entry) {
    a.scope == b.scope && a.key == b.key
  }

  ghost predicate OnePerKey(entries: Entries) {
    && (forall id :: id in entries ==> entries[id].id == id)
    && (forall i, j :: i in entries && j in entries && SameKey(entries[i], entries[j]) ==> i == j)
  }

  function ScopeIds(entries: Entries, s: Scope): set<string> {
    set id | id in entries && entries[id].scope == s
  }

  function AgentIds(entries: Entries, a: string): set<string> {
    set id | id in entries && entries[id].createdBy == a
  }

  function Minus(entries: Entries, ids: set<string>): Entries {
    entries - ids
  }

  lemma MinusNothing(entries: Entries, ids: set<string>)
    requires ids !! entries.Keys
    ensures Minus(entries, ids) == entries
  {
  }

  lemma MinusAll(entries: Entries)
    ensures Minus(entries, entries.Keys) == map[]
  {
  }

  lemma MinusTurn(entries: Entries, ids: set<string>, todo: set<string>, id: string)
    requires id in todo && todo <= ids
    ensures Minus(Minus(entries, ids - todo), {id}) == Minus(entries, ids - (todo - {id}))
  {
    assert ids - (todo - {id}) == ids - todo + {id};
  }

  /** What `get` does to the entries, and the entry it returns. */
  ghost function Reading(entries: Entries, scopes: seq<Scope>, k: string, agent: Option<string>, now: real)
    : (r: (Entries, Option<string>))
    ensures r.0.Keys <= entries.Keys
    ensures r.1.Some? ==> r.1.value in r.0 && r.0[r.1.value].value == entries[r.1.value].value
    decreases |scopes|
  {
    if scopes == [] then (entries, None) else
      var found := Find(entries, scopes[0], k);
      if found.None? then Reading(entries, scopes[1..], k, agent, now)
      else if Expired(entries[found.value], now) then Reading(Minus(entries, {found.value}), scopes[1..], k, agent, now)
      else if !Visible(entries[found.value], agent) then Reading(entries, scopes[1..], k, agent, now)
      else (entries[found.value := Accessed(entries[found.value], now)], found)
  }

  /** One turn of the search. */
  lemma ReadingTurn(entries: Entries, scopes: seq<Scope>, i: nat, k: string, agent: Option<string>, now: real)
    requires i < |scopes|
    ensures Reading(entries, scopes[i..], k, agent, now) ==
      var found := Find(entries, scopes[i], k);
      if found.None? then Reading(entries, scopes[i + 1..], k, agent, now)
      else if Expired(entries[found.value], now) then
        Reading(Minus(entries, {found.value}), scopes[i + 1..], k, agent, now)
      else if !Visible(entries[found.value], agent) then Reading(entries, scopes[i + 1..], k, agent, now)
      else (entries[found.value := Accessed(entries[found.value], now)], found)
  {
    assert scopes[i..][0] == scopes[i] && scopes[i..][1..] == scopes[i + 1..];
  }

  lemma ReadingEnds(entries: Entries, scopes: seq<Scope>, k: string, agent: Option<string>, now: real)
    ensures Reading(entries, scopes[|scopes|..], k, agent, now) == (entries, None) && scopes[0..] == scopes
  {
  }

  // ---- the indexes ------------------------------------------------------------------------------------

  type ScopeIndex = map<Scope, set<string>>
  type KeyIndex = map<Scope, map<string, string>>
  type AgentIndex = map<string, set<string>>

  function Lookup(keyIndex: KeyIndex, s: Scope, k: string): Option<string> {
    if s in keyIndex && k in keyIndex[s] then Some(keyIndex[s][k]) else None
  }

  ghost predicate ScopesAgree(entries: Entries, scopeIndex: ScopeIndex) {
    forall s: Scope :: Get(scopeIndex, s, {}) == ScopeIds(entries, s)
  }

  ghost predicate KeysAgree(entries: Entries, keyIndex: KeyIndex) {
    && (forall s: Scope, k: string :: Lookup(keyIndex, s, k).Some? ==>
          Matches(entries, s, k, Lookup(keyIndex, s, k).value))
    && (forall id :: id in entries ==>
          entries[id].id == id && Lookup(keyIndex, entries[id].scope, entries[id].key) == Some(id))
  }

  /** The agent index holds the ids of each creator, all but the lost ones: entries with an empty creator, which a
      restart loads without indexing them. */
  ghost predicate AgentsAgree(entries: Entries, agentIndex: AgentIndex, lost: set<string>) {
    && lost <= AgentIds(entries, "")
    && forall a: string :: Get(agentIndex, a, {}) == AgentIds(entries, a) - lost
  }

  ghost predicate Indexed(
    entries: Entries, scopeIndex: ScopeIndex, keyIndex: KeyIndex, agentIndex: AgentIndex, lost: set<string>)
  {
    ScopesAgree(entries, scopeIndex) && KeysAgree(entries, keyIndex) && AgentsAgree(entries, agentIndex, lost)
  }

  ghost predicate AgentsExact(entries: Entries, agentIndex: AgentIndex) {
    forall a: string :: Get(agentIndex, a, {}) == AgentIds(entries, a)
  }

  /** The agent index is exact just when nothing is lost. */
  lemma ExactUnlessLost(entries: Entries, agentIndex: AgentIndex, lost: set<string>)
    requires AgentsAgree(entries, agentIndex, lost)
    ensures AgentsExact(entries, agentIndex) <==> lost == {}
  {
    if AgentsExact(entries, agentIndex) {
      assert Get(agentIndex, "", {}) == AgentIds(entries, "");
      assert forall id :: id in lost ==> id in AgentIds(entries, "") - lost;
    }
  }

  function With<K(==)>(index: map<K, set<string>>, k: K, id: string): map<K, set<string>> {
    index[k := Get(index, k, {}) + {id}]
  }

  function Less<K(==)>(index: map<K, set<string>>, k: K, id: string): map<K, set<string>> {
    index[k := Get(index, k, {}) - {id}]
  }

  function KeyPut(keyIndex: KeyIndex, s: Scope, k: string, id: string): KeyIndex {
    keyIndex[s := Get(keyIndex, s, map[])[k := id]]
  }

  function KeyPop(keyIndex: KeyIndex, s: Scope, k: string): KeyIndex {
    keyIndex[s := Get(keyIndex, s, map[]) - {k}]
  }

  /** The key index gives what searching all entries gives, and no two entries share a scope and a key. */
  lemma LookupIsSearch(entries: Entries, keyIndex: KeyIndex, s: Scope, k: string)
    requires KeysAgree(entries, keyIndex)
    ensures Lookup(keyIndex, s, k) == Find(entries, s, k)
    ensures OnePerKey(entries)
  {
    forall i, j | i in entries && j in entries && SameKey(entries[i], entries[j]) ensures i == j
    {
      assert Lookup(keyIndex, entries[i].scope, entries[i].key) == Some(i);
    }
    var found := Find(entries, s, k);
    if found.Some? {
      assert found.value in entries;
    }
  }

  lemma DropIds(
    entries: Entries, scopeIndex: ScopeIndex, agentIndex: AgentIndex, lost: set<string>, id: string)
    requires id in entries && ScopesAgree(entries, scopeIndex) && AgentsAgree(entries, agentIndex, lost)
    ensures var e := entries[id];
      && ScopesAgree(Minus(entries, {id}), Less(scopeIndex, e.scope, id))
      && AgentsAgree(Minus(entries, {id}), Less(agentIndex, e.createdBy, id), lost - {id})
  {
    var e, rest := entries[id], Minus(entries, {id});
    forall s: Scope
      ensures ScopeIds(rest, s) == if s == e.scope then ScopeIds(entries, s) - {id} else ScopeIds(entries, s)
    {
    }
    forall a: string
      ensures AgentIds(rest, a) == if a == e.createdBy then AgentIds(entries, a) - {id} else AgentIds(entries, a)
    {
    }
    hide ScopeIds, AgentIds;
  }

  lemma KeyPopAgrees(entries: Entries, keyIndex: KeyIndex, id: string)
    requires id in entries && KeysAgree(entries, keyIndex)
    ensures KeysAgree(Minus(entries, {id}), KeyPop(keyIndex, entries[id].scope, entries[id].key))
  {
    var e, rest := entries[id], Minus(entries, {id});
    var popped := KeyPop(keyIndex, e.scope, e.key);
    forall s: Scope, k: string
      ensures Lookup(popped, s, k) == if s == e.scope && k == e.key then None else Lookup(keyIndex, s, k)
    {
    }
    forall i | i in rest ensures rest[i].id == i && Lookup(popped, rest[i].scope, rest[i].key) == Some(i) {
      assert Lookup(keyIndex, entries[i].scope, entries[i].key) == Some(i);
    }
  }

  lemma AddScopes(entries: Entries, scopeIndex: ScopeIndex, e: Entry)
    requires e.id !in entries && ScopesAgree(entries, scopeIndex)
    ensures ScopesAgree(entries[e.id := e], With(scopeIndex, e.scope, e.id))
  {
    var more := entries[e.id := e];
    forall s: Scope
      ensures ScopeIds(more, s) == if s == e.scope then ScopeIds(entries, s) + {e.id} else ScopeIds(entries, s)
    {
    }
    hide ScopeIds;
  }

  lemma AddAgents(entries: Entries, agentIndex: AgentIndex, lost: set<string>, e: Entry)
    requires e.id !in entries && AgentsAgree(entries, agentIndex, lost)
    ensures AgentsAgree(entries[e.id := e], With(agentIndex, e.createdBy, e.id), lost)
    ensures e.createdBy == "" ==> AgentsAgree(entries[e.id := e], agentIndex, lost + {e.id})
  {
    var more := entries[e.id := e];
    forall a: string
      ensures AgentIds(more, a) == if a == e.createdBy then AgentIds(entries, a) + {e.id} else AgentIds(entries, a)
    {
    }
    hide AgentIds;
  }

  lemma KeyPutAgrees(entries: Entries, keyIndex: KeyIndex, e: Entry)
    requires e.id !in entries && KeysAgree(entries, keyIndex) && Find(entries, e.scope, e.key).None?
    ensures KeysAgree(entries[e.id := e], KeyPut(keyIndex, e.scope, e.key, e.id))
  {
    var more, put := entries[e.id := e], KeyPut(keyIndex, e.scope, e.key, e.id);
    forall s: Scope, k: string
      ensures Lookup(put, s, k) == if s == e.scope && k == e.key then Some(e.id) else Lookup(keyIndex, s, k)
    {
    }
    forall i | i in more ensures more[i].id == i && Lookup(put, more[i].scope, more[i].key) == Some(i) {
      if i != e.id {
        assert !Matches(entries, e.scope, e.key, i);
      }
    }
  }

  /** Rewriting an entry in place needs no change of the indexes. */
  lemma UpdateKeepsIndexes(
    entries: Entries, scopeIndex: ScopeIndex, keyIndex: KeyIndex, agentIndex: AgentIndex, lost: set<string>, e: Entry)
    requires e.id in entries
    requires entries[e.id].scope == e.scope && entries[e.id].key == e.key && entries[e.id].createdBy == e.createdBy
    requires Indexed(entries, scopeIndex, keyIndex, agentIndex, lost)
    ensures Indexed(entries[e.id := e], scopeIndex, keyIndex, agentIndex, lost)
    ensures |entries[e.id := e]| == |entries|
  {
    var more := entries[e.id := e];
    assert more.Keys == entries.Keys;
    assert KeysAgree(more, keyIndex);
    hide KeysAgree;
    forall s: Scope ensures ScopeIds(more, s) == ScopeIds(entries, s) {
    }
    forall a: string ensures AgentIds(more, a) == AgentIds(entries, a) {
    }
    hide ScopeIds, AgentIds;
  }

  lemma DropKeepsIndexes(
    entries: Entries, scopeIndex: ScopeIndex, keyIndex: KeyIndex, agentIndex: AgentIndex, lost: set<string>,
    id: string)
    requires id in entries && Indexed(entries, scopeIndex, keyIndex, agentIndex, lost)
    ensures var e := entries[id];
      Indexed(Minus(entries, {id}), Less(scopeIndex, e.scope, id), KeyPop(keyIndex, e.scope, e.key),
              Less(agentIndex, e.createdBy, id), lost - {id})
    ensures |Minus(entries, {id})| == |entries| - 1
  {
    DropIds(entries, scopeIndex, agentIndex, lost, id);
    KeyPopAgrees(entries, keyIndex, id);
    assert Minus(entries, {id}).Keys == entries.Keys - {id};
    hide ScopesAgree, KeysAgree, AgentsAgree, Minus, Less, KeyPop;
  }

  /** Loading an entry with an empty creator leaves the agent index alone and loses the entry to it. */
  lemma AddKeepsIndexes(
    entries: Entries, scopeIndex: ScopeIndex, keyIndex: KeyIndex, agentIndex: AgentIndex, lost: set<string>, e: Entry)
    requires e.id !in entries && Find(entries, e.scope, e.key).None?
    requires Indexed(entries, scopeIndex, keyIndex, agentIndex, lost)
    ensures Indexed(entries[e.id := e], With(scopeIndex, e.scope, e.id), KeyPut(keyIndex, e.scope, e.key, e.id),
                    With(agentIndex, e.createdBy, e.id), lost)
    ensures e.createdBy == "" ==>
      Indexed(entries[e.id := e], With(scopeIndex, e.scope, e.id), KeyPut(keyIndex, e.scope, e.key, e.id), agentIndex,
              lost + {e.id})
    ensures |entries[e.id := e]| == |entries| + 1
  {
    AddScopes(entries, scopeIndex, e);
    AddAgents(entries, agentIndex, lost, e);
    KeyPutAgrees(entries, keyIndex, e);
    hide ScopesAgree, KeysAgree, AgentsAgree, With, KeyPut;
  }

  // ---- eviction -----------------------------------------------------------------------------------------

  function PriorityOrder(p: Priority): nat {
    match p
    case Low => 0
    case Medium => 1
    case High => 2
    case Critical => 3
  }

  predicate RankLe(a: Entry, b: Entry) {
    || PriorityOrder(a.priority) < PriorityOrder(b.priority)
    || (a.priority == b.priority && a.accessCount <= b.accessCount)
  }

  /** a may be given up while b stays: LOW before MEDIUM before HIGH, and within these the one read less often. */
  predicate GivenUpFirst(a: Entry, b: Entry) {
    && !(a.priority.Critical? && !b.priority.Critical?)
    && !(a.priority.High? && (b.priority.Medium? || b.priority.Low?))
    && !(a.priority.Medium? && b.priority.Low?)
    && (a.priority == b.priority ==> a.accessCount <= b.accessCount)
  }

  lemma RankMeaning(a: Entry, b: Entry)
    ensures RankLe(a, b) <==> GivenUpFirst(a, b)
  {
  }

  predicate WithinLimit(s: Scope, n: nat) {
    match s
    case Global => n <= 200
    case Task => n <= 100
    case Agent => n <= 50
    case Ephemeral => n <= 20
  }

  ghost predicate Ranked(entries: Entries, order: seq<string>)
    requires forall id :: id in order ==> id in entries
  {
    forall i, j :: 0 <= i < j < |order| ==> RankLe(entries[order[i]], entries[order[j]])
  }

  function InsertByRank(entries: Entries, id: string, order: seq<string>): (r: seq<string>)
    requires id in entries && forall i :: i in order ==> i in entries
    ensures forall i :: i in r <==> i == id || i in order
  {
    if order == [] then [id]
    else if RankLe(entries[id], entries[order[0]]) then [id] + order
    else
      assert order == [order[0]] + order[1..];
      [order[0]] + InsertByRank(entries, id, order[1..])
  }

  lemma {:induction false} InsertKeepsRank(entries: Entries, id: string, order: seq<string>)
    requires id in entries && forall i :: i in order ==> i in entries
    requires id !in order && Distinct(order) && Ranked(entries, order)
    ensures Distinct(InsertByRank(entries, id, order)) && Ranked(entries, InsertByRank(entries, id, order))
  {
    if order != [] && RankLe(entries[id], entries[order[0]]) {
      forall j | 0 <= j < |order| ensures RankLe(entries[id], entries[order[j]]) {
        assert j > 0 ==> RankLe(entries[order[0]], entries[order[j]]);
      }
    } else if order != [] {
      var first, rest := order[0], order[1..];
      assert RankLe(entries[first], entries[id]);
      hide RankLe;
      InsertKeepsRank(entries, id, rest);
      var inserted := InsertByRank(entries, id, rest);
      forall j | 0 <= j < |inserted| ensures inserted[j] != first && RankLe(entries[first], entries[inserted[j]]) {
        if inserted[j] != id {
          assert inserted[j] in rest;
          var i :| 0 <= i < |rest| && rest[i] == inserted[j];
          assert order[i + 1] == rest[i];
        }
      }
    }
  }

  /** Python's `list.sort` on the ids of a scope. */
  function SortByRank(entries: Entries, ids: seq<string>): (r: seq<string>)
    requires forall id :: id in ids ==> id in entries
    ensures forall id :: id in r <==> id in ids
  {
    if ids == [] then [] else
      assert ids == [ids[0]] + ids[1..];
      InsertByRank(entries, ids[0], SortByRank(entries, ids[1..]))
  }

  lemma {:induction false} SortIsRanked(entries: Entries, ids: seq<string>)
    requires Distinct(ids) && forall id :: id in ids ==> id in entries
    ensures Distinct(SortByRank(entries, ids)) && Ranked(entries, SortByRank(entries, ids))
    ensures |SortByRank(entries, ids)| == |ids|
  {
    if ids != [] {
      SortIsRanked(entries, ids[1..]);
      InsertKeepsRank(entries, ids[0], SortByRank(entries, ids[1..]));
      InsertLength(entries, ids[0], SortByRank(entries, ids[1..]));
    }
  }

  lemma InsertLength(entries: Entries, id: string, order: seq<string>)
    requires id in entries && forall i :: i in order ==> i in entries
    ensures |InsertByRank(entries, id, order)| == |order| + 1
  {
  }

  /** The entries of the list that a full scope gives up. */
  function Doomed(entries: Entries, order: seq<string>): set<string> {
    set id | id in order && id in entries && !entries[id].priority.Critical?
  }

  /** A visiting order of the ids of a scope. */
  ghost predicate Lists(entries: Entries, s: Scope, ids: seq<string>) {
    && Distinct(ids)
    && (forall id :: id in ids ==> id in entries)
    && forall id :: id in ScopeIds(entries, s) <==> id in ids
  }

  function Excess(n: nat, s: Scope): nat {
    Max(0, n - Limit(s))
  }

  /** What enforcing the limit of a scope leaves when its ids are visited in the order of the list. */
  ghost function Enforced(entries: Entries, s: Scope, ids: seq<string>): Entries
    requires Lists(entries, s, ids)
  {
    SortIsRanked(entries, ids);
    Minus(entries, Doomed(entries, SortByRank(entries, ids)[..Excess(|ids|, s)]))
  }

  /** Python's sets have no order of their own: any visiting order can occur. */
  ghost predicate Enforces(before: Entries, after: Entries, s: Scope) {
    exists ids :: Lists(before, s, ids) && after == Enforced(before, s, ids)
  }

  ghost predicate NoneCritical(entries: Entries, gone: set<string>)
    requires gone <= entries.Keys
  {
    forall id :: id in gone ==> !entries[id].priority.Critical?
  }

  ghost predicate Fits(entries: Entries, kept: set<string>, s: Scope)
    requires kept <= entries.Keys
  {
    |kept| <= Limit(s) || forall id :: id in kept ==> entries[id].priority.Critical?
  }

  ghost predicate RanksLow(entries: Entries, gone: set<string>, kept: set<string>)
    requires gone <= entries.Keys && kept <= entries.Keys
  {
    forall i, j :: i in gone && j in kept ==> RankLe(entries[i], entries[j])
  }

  /** What that means, whatever the visiting order: nothing CRITICAL goes, the rest of the scope fits or is all
      CRITICAL, no more than the excess goes, and what goes ranks no higher than what stays. */
  ghost predicate Evicts(before: Entries, after: Entries, s: Scope) {
    var members, gone := ScopeIds(before, s), before.Keys - after.Keys;
    && after == Minus(before, gone) && gone <= members
    && NoneCritical(before, gone)
    && Fits(before, members - gone, s)
    && |gone| <= Excess(|members|, s)
    && RanksLow(before, gone, members - gone)
  }

  /** The same in the terms of a user: the scope loses its least important entries, never a CRITICAL one, and no more
      than it must to get within its limit or down to its CRITICAL entries; nothing else changes. */
  ghost predicate GivesUpLowest(before: Entries, after: Entries, s: Scope) {
    OnlyLoses(before, after, s) && LosesLowest(before, after, s) && LosesAsNeeded(before, after, s)
  }

  ghost predicate OnlyLoses(before: Entries, after: Entries, s: Scope) {
    && (forall id :: id in after ==> id in before && after[id] == before[id])
    && (forall id :: id in before && id !in after ==> before[id].scope == s && !before[id].priority.Critical?)
  }

  ghost predicate LosesLowest(before: Entries, after: Entries, s: Scope) {
    forall i, j :: i in before && i !in after && j in after && after[j].scope == s ==> GivenUpFirst(before[i], after[j])
  }

  ghost predicate LosesAsNeeded(before: Entries, after: Entries, s: Scope) {
    && (WithinLimit(s, |ScopeIds(after, s)|)
        || forall id :: id in after && after[id].scope == s ==> after[id].priority.Critical?)
    && (after != before ==> !WithinLimit(s, |ScopeIds(after, s)| + 1))
  }

  lemma EvictionMeaning(before: Entries, after: Entries, s: Scope)
    requires Evicts(before, after, s)
    ensures GivesUpLowest(before, after, s)
  {
    EvictionLeaves(before, after, s);
    EvictionOrder(before, after, s);
    EvictionSizes(before, after, s);
    hide Evicts, OnlyLoses, LosesLowest, LosesAsNeeded;
  }

  lemma EvictionLeaves(before: Entries, after: Entries, s: Scope)
    requires Evicts(before, after, s)
    ensures OnlyLoses(before, after, s)
  {
    hide Fits, RanksLow, Limit;
  }

  lemma EvictionSizes(before: Entries, after: Entries, s: Scope)
    requires Evicts(before, after, s)
    ensures LosesAsNeeded(before, after, s)
  {
    var members, gone := ScopeIds(before, s), before.Keys - after.Keys;
    hide RanksLow, NoneCritical;
    KeptOf(before, s, gone);
    SizeLeft(members, gone);
    LimitMeaning(s, |members - gone|);
    LimitMeaning(s, |members - gone| + 1);
    if after != before {
      assert gone != {} by {
        hide Fits, ScopeIds, Limit;
        if gone == {} {
          MinusNothing(before, gone);
        }
      }
    }
    hide Limit, WithinLimit;
  }

  lemma LimitMeaning(s: Scope, n: nat)
    ensures n <= Limit(s) <==> WithinLimit(s, n)
  {
  }

  lemma EvictionOrder(before: Entries, after: Entries, s: Scope)
    requires Evicts(before, after, s)
    ensures LosesLowest(before, after, s)
  {
    hide RankLe, GivenUpFirst, Fits, NoneCritical, Limit;
    forall i, j | i in before && i !in after && j in after && after[j].scope == s
      ensures GivenUpFirst(before[i], after[j])
    {
      assert RankLe(before[i], before[j]);
      RankMeaning(before[i], before[j]);
    }
  }

  lemma NoneDoomed(entries: Entries, order: seq<string>)
    ensures Doomed(entries, order[..0]) == {}
  {
  }

  lemma DoomedStep(entries: Entries, order: seq<string>, i: nat)
    requires i < |order| && order[i] in entries
    ensures var before := Minus(entries, Doomed(entries, order[..i]));
      Minus(entries, Doomed(entries, order[..i + 1])) ==
        if entries[order[i]].priority.Critical? then before else Minus(before, {order[i]})
  {
    assert order[..i + 1] == order[..i] + [order[i]];
    DoomedGrows(entries, order[..i], order[i]);
  }

  lemma {:induction false} DoomedSize(entries: Entries, order: seq<string>)
    ensures |Doomed(entries, order)| <= |order|
    ensures Distinct(order) && (forall id :: id in order ==> id in entries && !entries[id].priority.Critical?)
      ==> |Doomed(entries, order)| == |order|
  {
    if order != [] {
      var front, last := order[..|order| - 1], order[|order| - 1];
      assert order == front + [last];
      DoomedSize(entries, front);
      DoomedGrows(entries, front, last);
    }
  }

  lemma DoomedGrows(entries: Entries, order: seq<string>, id: string)
    ensures Doomed(entries, order + [id]) ==
      if id in entries && !entries[id].priority.Critical? then Doomed(entries, order) + {id} else Doomed(entries, order)
  {
  }

  lemma ListedSize(order: seq<string>, ids: set<string>)
    requires Distinct(order) && forall id :: id in ids <==> id in order
    ensures |ids| == |order|
  {
    if order != [] {
      var front, last := order[..|order| - 1], order[|order| - 1];
      assert order == front + [last];
      ListedSize(front, ids - {last});
    }
  }

  /** The ids of a scope, lowest rank first. */
  ghost predicate Ranking(entries: Entries, s: Scope, order: seq<string>) {
    Lists(entries, s, order) && Ranked(entries, order)
  }

  lemma SortRanks(entries: Entries, s: Scope, ids: seq<string>)
    requires Lists(entries, s, ids)
    ensures Ranking(entries, s, SortByRank(entries, ids)) && |SortByRank(entries, ids)| == |ids|
  {
    hide Ranked, ScopeIds;
    SortIsRanked(entries, ids);
  }

  /** Giving up the head of the ranked list, CRITICAL entries excepted, is an eviction. */
  lemma DoomedEvicts(entries: Entries, s: Scope, order: seq<string>)
    requires Ranking(entries, s, order)
    ensures Evicts(entries, Minus(entries, Doomed(entries, order[..Excess(|order|, s)])), s)
  {
    var excess := Excess(|order|, s);
    var gone := Doomed(entries, order[..excess]);
    DoomedAreListed(entries, s, order, excess);
    KeptOf(entries, s, gone);
    DoomedIsSmall(entries, s, order);
    DoomedRankLow(entries, s, order, excess);
    DoomedSuffice(entries, s, order);
    hide Ranking, Doomed, ScopeIds, Excess, Minus, NoneCritical, Fits, RanksLow;
  }

  lemma DoomedIsSmall(entries: Entries, s: Scope, order: seq<string>)
    requires Ranking(entries, s, order)
    ensures |Doomed(entries, order[..Excess(|order|, s)])| <= Excess(|ScopeIds(entries, s)|, s)
    ensures |ScopeIds(entries, s)| == |order|
  {
    hide Ranked, ScopeIds, Doomed, Limit;
    ListedSize(order, ScopeIds(entries, s));
    DoomedSize(entries, order[..Excess(|order|, s)]);
  }

  lemma DoomedRankLow(entries: Entries, s: Scope, order: seq<string>, excess: nat)
    requires Ranking(entries, s, order) && excess <= |order|
    requires Doomed(entries, order[..excess]) <= entries.Keys && ScopeIds(entries, s) <= entries.Keys
    ensures RanksLow(entries, Doomed(entries, order[..excess]), ScopeIds(entries, s) - Doomed(entries, order[..excess]))
  {
    hide Ranked, RankLe, Distinct, ScopeIds, Doomed;
    forall i, j | i in Doomed(entries, order[..excess]) && j in ScopeIds(entries, s) - Doomed(entries, order[..excess])
      ensures RankLe(entries[i], entries[j])
    {
      RankedApart(entries, order, excess, i, j);
    }
  }

  lemma DoomedSuffice(entries: Entries, s: Scope, order: seq<string>)
    requires Ranking(entries, s, order) && ScopeIds(entries, s) <= entries.Keys
    ensures Fits(entries, ScopeIds(entries, s) - Doomed(entries, order[..Excess(|order|, s)]), s)
  {
    hide Ranked, Distinct, ScopeIds, Limit, Doomed;
    var excess := Excess(|order|, s);
    var gone := Doomed(entries, order[..excess]);
    DoomedAreListed(entries, s, order, excess);
    ListedSize(order, ScopeIds(entries, s));
    SizeLeft(ScopeIds(entries, s), gone);
    if id :| id in ScopeIds(entries, s) - gone && !entries[id].priority.Critical? {
      NoneSpared(entries, order, excess, id);
    }
  }

  lemma SizeLeft(a: set<string>, b: set<string>)
    requires b <= a
    ensures |a - b| == |a| - |b|
  {
  }

  lemma KeptOf(entries: Entries, s: Scope, gone: set<string>)
    requires gone <= ScopeIds(entries, s)
    ensures ScopeIds(Minus(entries, gone), s) == ScopeIds(entries, s) - gone
    ensures entries.Keys - Minus(entries, gone).Keys == gone
    ensures forall id :: id in ScopeIds(entries, s) ==> id in entries
  {
  }

  lemma DoomedAreListed(entries: Entries, s: Scope, order: seq<string>, excess: nat)
    requires Lists(entries, s, order) && excess <= |order|
    ensures Doomed(entries, order[..excess]) <= ScopeIds(entries, s) <= entries.Keys
    ensures NoneCritical(entries, Doomed(entries, order[..excess]))
  {
    hide ScopeIds, Distinct;
    forall id | id in Doomed(entries, order[..excess]) ensures id in order {
      var k :| 0 <= k < excess && order[..excess][k] == id;
      assert order[k] == id;
    }
    forall id | id in ScopeIds(entries, s) ensures id in entries {
      assert id in order;
    }
  }

  lemma RankedApart(entries: Entries, order: seq<string>, excess: nat, i: string, j: string)
    requires Distinct(order) && excess <= |order|
    requires (forall id :: id in order ==> id in entries) && Ranked(entries, order)
    requires i in Doomed(entries, order[..excess]) && j in order && j !in Doomed(entries, order[..excess])
    ensures RankLe(entries[i], entries[j])
  {
    var p :| 0 <= p < excess && order[p] == i;
    var q :| 0 <= q < |order| && order[q] == j;
    if q < excess {
      assert order[..excess][q] == j;
    } else {
      assert RankLe(entries[order[p]], entries[order[q]]);
    }
  }

  /** An entry that is not CRITICAL survives only behind a head without CRITICAL ones. */
  lemma NoneSpared(entries: Entries, order: seq<string>, excess: nat, id: string)
    requires Distinct(order) && excess <= |order|
    requires (forall id :: id in order ==> id in entries) && Ranked(entries, order)
    requires id in order && id !in Doomed(entries, order[..excess]) && !entries[id].priority.Critical?
    ensures |Doomed(entries, order[..excess])| == excess
  {
    var head := order[..excess];
    var q :| 0 <= q < |order| && order[q] == id;
    forall k | 0 <= k < excess ensures order[k] in head {
      assert head[k] == order[k];
    }
    forall i | i in head ensures i in entries && !entries[i].priority.Critical? {
      var p :| 0 <= p < excess && head[p] == i;
      assert RankLe(entries[order[p]], entries[order[q]]);
    }
    DoomedSize(entries, head);
  }

  /** The other entries of the scope that rank strictly below id. */
  function Below(entries: Entries, s: Scope, id: string): set<string>
    requires id in entries
  {
    set i | i in ScopeIds(entries, s) && !RankLe(entries[id], entries[i])
  }

  /** The other entries of the scope that do not rank above id. */
  function NotAbove(entries: Entries, s: Scope, id: string): set<string>
    requires id in entries
  {
    set i | i in ScopeIds(entries, s) && i != id && RankLe(entries[i], entries[id])
  }

  /** Which entries any eviction keeps or drops, going by its meaning alone. */
  lemma WhoSurvives(before: Entries, after: Entries, s: Scope, id: string)
    requires Evicts(before, after, s) && id in ScopeIds(before, s)
    ensures before[id].priority.Critical? || |ScopeIds(before, s)| <= Limit(s) + |Below(before, s, id)| ==> id in after
    ensures !before[id].priority.Critical? && |ScopeIds(before, s)| > Limit(s) + |NotAbove(before, s, id)| ==>
              id !in after
  {
    if id !in after {
      GoneHasBelow(before, after, s, id);
    } else if !before[id].priority.Critical? {
      KeptHasNotAbove(before, after, s, id);
    }
  }

  lemma GoneHasBelow(before: Entries, after: Entries, s: Scope, id: string)
    requires Evicts(before, after, s) && id in before && id !in after
    ensures |Below(before, s, id)| < |ScopeIds(before, s)| - Limit(s)
  {
    BelowAreGone(before, after, s, id);
    hide RankLe, Limit, ScopeIds, Below, NoneCritical, Fits, RanksLow, Minus;
    SubsetSize(Below(before, s, id) + {id}, before.Keys - after.Keys);
  }

  lemma BelowAreGone(before: Entries, after: Entries, s: Scope, id: string)
    requires Evicts(before, after, s) && id in before && id !in after
    ensures Below(before, s, id) <= before.Keys - after.Keys && id !in Below(before, s, id)
  {
    hide RankLe, Fits, NoneCritical, Limit, Minus;
    SelfRank(before[id]);
  }

  lemma SelfRank(e: Entry)
    ensures RankLe(e, e)
  {
  }

  lemma KeptHasNotAbove(before: Entries, after: Entries, s: Scope, id: string)
    requires Evicts(before, after, s) && id in ScopeIds(before, s) && id in after && !before[id].priority.Critical?
    ensures |ScopeIds(before, s)| <= Limit(s) + |NotAbove(before, s, id)|
  {
    hide RankLe, Limit, Minus, NoneCritical;
    var members, gone := ScopeIds(before, s), before.Keys - after.Keys;
    SizeLeft(members, gone);
    assert id in members - gone;
    SubsetSize(gone, NotAbove(before, s, id));
  }

  // ---- which orders can occur -----------------------------------------------------------------------------

  lemma EnforcedEvicts(entries: Entries, s: Scope, ids: seq<string>)
    requires Lists(entries, s, ids)
    ensures Evicts(entries, Enforced(entries, s, ids), s)
  {
    hide Evicts, Ranking;
    SortRanks(entries, s, ids);
    DoomedEvicts(entries, s, SortByRank(entries, ids));
  }

  /** Sorting leaves a ranked list alone, so every ranking comes from some visiting order: itself. */
  lemma {:induction false} RankedIsSorted(entries: Entries, order: seq<string>)
    requires (forall id :: id in order ==> id in entries) && Ranked(entries, order)
    ensures SortByRank(entries, order) == order
  {
    if order != [] {
      RankedIsSorted(entries, order[1..]);
      assert |order| > 1 ==> RankLe(entries[order[0]], entries[order[1]]);
    }
  }

  lemma {:induction false} SomeListing(ids: set<string>) returns (order: seq<string>)
    ensures Distinct(order) && forall id :: id in ids <==> id in order
  {
    order := [];
    if ids != {} {
      var id :| id in ids;
      var rest := SomeListing(ids - {id});
      order := rest + [id];
    }
  }

  lemma RankedListing(entries: Entries, ids: set<string>) returns (order: seq<string>)
    requires ids <= entries.Keys
    ensures Distinct(order) && forall id :: id in ids <==> id in order
    ensures Ranked(entries, order) && |order| == |ids|
  {
    var listed := SomeListing(ids);
    SortIsRanked(entries, listed);
    order := SortByRank(entries, listed);
    ListedSize(order, ids);
  }

  lemma RankTransitive(a: Entry, b: Entry, c: Entry)
    requires RankLe(a, b) && RankLe(b, c)
    ensures RankLe(a, c)
  {
  }

  /** The others can be split at id in any way that ranks allow: some ranking lists exactly the first part before it. */
  lemma RankingAround(entries: Entries, s: Scope, id: string, first: set<string>) returns (order: seq<string>)
    requires id in ScopeIds(entries, s) && first <= ScopeIds(entries, s) - {id}
    requires forall i :: i in first ==> RankLe(entries[i], entries[id])
    requires forall i :: i in ScopeIds(entries, s) - first - {id} ==> RankLe(entries[id], entries[i])
    ensures Ranking(entries, s, order) && |first| < |order| && order[|first|] == id
  {
    hide RankLe, Ranked, Distinct, ScopeIds;
    InScope(entries, s);
    var low := RankedListing(entries, first);
    var high := RankedListing(entries, ScopeIds(entries, s) - first - {id});
    RankedAround(entries, low, id, high);
    order := low + [id] + high;
    DistinctAround(low, id, high);
  }

  lemma InScope(entries: Entries, s: Scope)
    ensures ScopeIds(entries, s) <= entries.Keys
  {
  }

  lemma DistinctAround(low: seq<string>, id: string, high: seq<string>)
    requires Distinct(low) && Distinct(high) && id !in low && id !in high && forall i :: i in low ==> i !in high
    ensures Distinct(low + [id] + high)
    ensures forall i :: i in low + [id] + high <==> i in low || i == id || i in high
  {
    var all := low + [id] + high;
    forall p, q | 0 <= p < q < |all| ensures all[p] != all[q] {
      assert p < |low| ==> all[p] in low;
      assert q > |low| ==> all[q] in high;
    }
  }

  lemma RankedAround(entries: Entries, low: seq<string>, id: string, high: seq<string>)
    requires id in entries && (forall i :: i in low ==> i in entries) && forall i :: i in high ==> i in entries
    requires Ranked(entries, low) && Ranked(entries, high)
    requires forall i :: i in low ==> RankLe(entries[i], entries[id])
    requires forall i :: i in high ==> RankLe(entries[id], entries[i])
    ensures forall i :: i in low + [id] + high ==> i in entries
    ensures Ranked(entries, low + [id] + high)
  {
    hide RankLe;
    var all := low + [id] + high;
    forall p, q | 0 <= p < q < |all| ensures RankLe(entries[all[p]], entries[all[q]]) {
      if p < |low| < q {
        RankTransitive(entries[all[p]], entries[id], entries[all[q]]);
      }
    }
  }

  lemma DoomedAt(entries: Entries, order: seq<string>, k: nat, excess: nat)
    requires Distinct(order) && k < |order| && excess <= |order| && order[k] in entries
    ensures order[k] in Doomed(entries, order[..excess]) <==> k < excess && !entries[order[k]].priority.Critical?
  {
    if k < excess {
      assert order[..excess][k] == order[k];
    }
  }

  /** Some visiting order puts exactly the first part before id, so that id goes exactly if that leaves it in the
      head. */
  lemma EnforcedAround(entries: Entries, s: Scope, id: string, first: set<string>) returns (ids: seq<string>)
    requires id in ScopeIds(entries, s) && first <= ScopeIds(entries, s) - {id}
    requires forall i :: i in first ==> RankLe(entries[i], entries[id])
    requires forall i :: i in ScopeIds(entries, s) - first - {id} ==> RankLe(entries[id], entries[i])
    ensures Lists(entries, s, ids)
    ensures id !in Enforced(entries, s, ids) <==>
              |ScopeIds(entries, s)| > Limit(s) + |first| && !entries[id].priority.Critical?
  {
    hide RankLe, Ranked;
    ids := RankingAround(entries, s, id, first);
    RankedIsSorted(entries, ids);
    ListedSize(ids, ScopeIds(entries, s));
    DoomedAt(entries, ids, |first|, Excess(|ids|, s));
  }

  lemma SplitsBelow(entries: Entries, s: Scope, id: string)
    requires id in ScopeIds(entries, s)
    ensures var first := Below(entries, s, id);
      && first <= ScopeIds(entries, s) - {id}
      && (forall i :: i in first ==> RankLe(entries[i], entries[id]))
      && forall i :: i in ScopeIds(entries, s) - first - {id} ==> RankLe(entries[id], entries[i])
  {
  }

  lemma SplitsNotAbove(entries: Entries, s: Scope, id: string)
    requires id in ScopeIds(entries, s)
    ensures var first := NotAbove(entries, s, id);
      && first <= ScopeIds(entries, s) - {id}
      && (forall i :: i in first ==> RankLe(entries[i], entries[id]))
      && forall i :: i in ScopeIds(entries, s) - first - {id} ==> RankLe(entries[id], entries[i])
  {
  }

  /** An entry is kept for every visiting order exactly if it is CRITICAL or at least as many entries rank below it
      as there are entries too many; it is evicted for every visiting order exactly if it is not CRITICAL and fewer
      others rank no higher. In between it depends on the order. */
  lemma SurvivesAlways(entries: Entries, s: Scope, id: string)
    requires id in ScopeIds(entries, s)
    ensures (forall ids :: Lists(entries, s, ids) ==> id in Enforced(entries, s, ids)) <==>
      entries[id].priority.Critical? || |ScopeIds(entries, s)| <= Limit(s) + |Below(entries, s, id)|
    ensures (forall ids :: Lists(entries, s, ids) ==> id !in Enforced(entries, s, ids)) <==>
      !entries[id].priority.Critical? && |ScopeIds(entries, s)| > Limit(s) + |NotAbove(entries, s, id)|
  {
    hide RankLe, Lists, Enforced, Evicts, Below, NotAbove;
    SplitsBelow(entries, s, id);
    var early := EnforcedAround(entries, s, id, Below(entries, s, id));
    SplitsNotAbove(entries, s, id);
    var late := EnforcedAround(entries, s, id, NotAbove(entries, s, id));
    forall ids | Lists(entries, s, ids)
      ensures entries[id].priority.Critical? || |ScopeIds(entries, s)| <= Limit(s) + |Below(entries, s, id)| ==>
                id in Enforced(entries, s, ids)
      ensures !entries[id].priority.Critical? && |ScopeIds(entries, s)| > Limit(s) + |NotAbove(entries, s, id)| ==>
                id !in Enforced(entries, s, ids)
    {
      EnforcedEvicts(entries, s, ids);
      WhoSurvives(entries, Enforced(entries, s, ids), s, id);
    }
  }
}
