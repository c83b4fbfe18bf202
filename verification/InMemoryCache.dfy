/** swarm/enterprise/core/cache_manager.py: the in-memory LRU cache with expiry. The ordered dictionary is the list
    of its cells, least recently touched first. */
module InMemoryCaches {
  import opened Prelude

  /** An expiry of 0 means never. */
  datatype Cell = Cell(key: string, value: string, expiresAt: real)

  predicate Expired(c: Cell, now: real) {
    c.expiresAt != 0.0 && now > c.expiresAt
  }

  ghost predicate UniqueKeys(items: seq<Cell>) {
    forall i, j :: 0 <= i < j < |items| ==> items[i].key != items[j].key
  }

  /** The position of a key, or the length when it is absent. */
  function IndexOf(items: seq<Cell>, k: string): (r: nat)
    ensures r <= |items| && (r < |items| ==> items[r].key == k)
    ensures forall i :: 0 <= i < r ==> items[i].key != k
  {
    if items == [] then 0 else if items[0].key == k then 0 else
      var r := IndexOf(items[1..], k) + 1;
      assert forall i :: 0 < i < r ==> items[i] == items[1..][i - 1];
      r
  }

  predicate Has(items: seq<Cell>, k: string) {
    IndexOf(items, k) < |items|
  }

  function At(items: seq<Cell>, k: string): Cell
    requires Has(items, k)
  {
    items[IndexOf(items, k)]
  }

  function Without(items: seq<Cell>, k: string): seq<Cell> {
    if Has(items, k) then items[..IndexOf(items, k)] + items[IndexOf(items, k) + 1..] else items
  }

  /** Dropping from the front until at most max cells are left. */
  function Evict(items: seq<Cell>, max: nat): seq<Cell> {
    if |items| > max then items[|items| - max..] else items
  }

  function NewCell(k: string, v: string, ttl: int, now: real): Cell {
    Cell(k, v, if ttl > 0 then now + ttl as real else 0.0)
  }

  predicate Hits(items: seq<Cell>, k: string, now: real) {
    Has(items, k) && !Expired(At(items, k), now)
  }

  function AfterGet(items: seq<Cell>, k: string, now: real): seq<Cell> {
    if !Has(items, k) then items
    else if Expired(At(items, k), now) then Without(items, k)
    else Without(items, k) + [At(items, k)]
  }

  function AfterSet(items: seq<Cell>, c: Cell, max: nat): seq<Cell> {
    Evict(Without(items, c.key) + [c], max)
  }

  lemma EvictMore(items: seq<Cell>, n: nat)
    requires 0 < n <= |items|
    ensures |Evict(items, n)| == n && Evict(items, n)[1..] == Evict(items, n - 1)
    ensures Evict(items, |items|) == items
  {
  }

  class InMemoryCache {
    const maxSize: int
    var items: seq<Cell>
    var hits: nat
    var misses: nat

    constructor (maxSize: int)
      ensures this.maxSize == maxSize && items == [] && hits == misses == 0
    {
      this.maxSize := maxSize;
      items, hits, misses := [], 0, 0;
    }

    method Get(k: string, now: real) returns (r: Option<string>)
      modifies this
      ensures items == AfterGet(old(items), k, now)
      ensures r == if Hits(old(items), k, now) then Some(At(old(items), k).value) else None
      ensures hits == old(hits) + (if r.Some? then 1 else 0)
      ensures misses == old(misses) + (if r.None? then 1 else 0)
    {
      if !Has(items, k) {
        misses := misses + 1;
        return None;
      }
      var cell := At(items, k);
      if cell.expiresAt != 0.0 && now > cell.expiresAt {
        items := Without(items, k);
        misses := misses + 1;
        return None;
      }
      items := Without(items, k) + [cell];
      hits := hits + 1;
      return Some(cell.value);
    }

    /** With a negative bound the eviction loop empties the cache and then raises KeyError; None stands for that. */
    method Set(k: string, v: string, ttl: int, now: real) returns (r: Option<bool>)
      modifies this`items
      ensures items == AfterSet(old(items), NewCell(k, v, ttl, now), Max(0, maxSize))
      ensures r == if maxSize >= 0 then Some(true) else None
    {
      var expiresAt := if ttl > 0 then now + ttl as real else 0.0;
      items := Without(items, k) + [Cell(k, v, expiresAt)];
      ghost var stored := items;
      while |items| > maxSize
        invariant items == stored || (|items| >= Max(0, maxSize) && items == Evict(stored, |items|))
        decreases |items|
      {
        if items == [] {
          return None;
        }
        EvictMore(stored, |items|);
        items := items[1..];
      }
      return Some(true);
    }

    method Delete(k: string) returns (ok: bool)
      modifies this`items
      ensures items == Without(old(items), k) && (ok <==> Has(old(items), k))
    {
      ok := Has(items, k);
      items := Without(items, k);
    }

    method Clear()
      modifies this`items
      ensures items == []
    {
      items := [];
    }
  }

  // ---- runs next to an unbounded map -------------------------------------------------------------

  datatype Op = Get(key: string) | Set(cell: Cell) | Delete(key: string) | Clear

  datatype Event = Event(op: Op, now: real)

  function Step(items: seq<Cell>, e: Event, max: nat): seq<Cell> {
    match e.op
    case Get(k) => AfterGet(items, k, e.now)
    case Set(c) => AfterSet(items, c, max)
    case Delete(k) => Without(items, k)
    case Clear => []
  }

  function After(es: seq<Event>, max: nat): seq<Cell> {
    if es == [] then [] else Step(After(Front(es), max), Last(es), max)
  }

  /** What a map without a size bound would hold for k: the latest `set`, unless deleted, cleared or found expired. */
  function Live(es: seq<Event>, k: string): Option<Cell> {
    if es == [] then None else
      var before := Live(Front(es), k);
      match Last(es).op
      case Get(j) => if j == k && before.Some? && Expired(before.value, Last(es).now) then None else before
      case Set(c) => if c.key == k then Some(c) else before
      case Delete(j) => if j == k then None else before
      case Clear => None
  }

  /** The step touches j: it stores it or hits it. */
  predicate Touches(items: seq<Cell>, e: Event, j: string) {
    (e.op.Set? && e.op.cell.key == j) || (e.op.Get? && e.op.key == j && Hits(items, j, e.now))
  }

  /** The keys other than k that were touched since k was. */
  function TouchedSince(es: seq<Event>, max: nat, k: string): set<string> {
    if es == [] then {} else
      var items, before := After(Front(es), max), TouchedSince(Front(es), max, k);
      if Touches(items, Last(es), k) then {}
      else if Last(es).op.Set? then before + {Last(es).op.cell.key}
      else if Last(es).op.Get? && Touches(items, Last(es), Last(es).op.key) then before + {Last(es).op.key}
      else before
  }

  /** The keys behind k in the list were touched since k was, those before it were not. */
  ghost predicate InTouchOrder(items: seq<Cell>, k: string, touched: set<string>) {
    && (forall i, j :: 0 <= i < j < |items| && items[i].key == k ==> items[j].key in touched)
    && (forall i, j :: 0 <= i < j < |items| && items[j].key == k ==> items[i].key !in touched)
  }

  lemma WithoutAt(items: seq<Cell>, gone: string)
    ensures |Without(items, gone)| == if Has(items, gone) then |items| - 1 else |items|
    ensures forall i :: 0 <= i < |Without(items, gone)| ==>
      Without(items, gone)[i] == items[if i < IndexOf(items, gone) then i else i + 1]
  {
    hide IndexOf, UniqueKeys;
  }

  lemma WithoutFacts(items: seq<Cell>, gone: string)
    requires UniqueKeys(items)
    ensures |Without(items, gone)| == if Has(items, gone) then |items| - 1 else |items|
    ensures UniqueKeys(Without(items, gone)) && !Has(Without(items, gone), gone)
    ensures forall c :: c in Without(items, gone) <==> c in items && c.key != gone
  {
    hide Without;
    WithoutAt(items, gone);
    var r, p := Without(items, gone), IndexOf(items, gone);
    forall c | c in items && c.key != gone ensures c in r {
      var i :| 0 <= i < |items| && items[i] == c;
      assert c == r[if i < p then i else i - 1];
    }
  }

  lemma WithoutKeepsOrder(items: seq<Cell>, gone: string, k: string, touched: set<string>)
    requires InTouchOrder(items, k, touched)
    ensures InTouchOrder(Without(items, gone), k, touched)
  {
    hide Without;
    WithoutAt(items, gone);
  }

  /** Lookups only depend on which cells there are. */
  lemma SameLookup(a: seq<Cell>, b: seq<Cell>, k: string)
    requires UniqueKeys(a) && UniqueKeys(b)
    requires forall c: Cell :: c.key == k ==> (c in a <==> c in b)
    ensures Has(a, k) <==> Has(b, k)
    ensures Has(a, k) ==> At(a, k) == At(b, k)
  {
    if Has(a, k) {
      assert At(a, k) in b;
      var i :| 0 <= i < |b| && b[i] == At(a, k);
      assert i == IndexOf(b, k);
    }
    if Has(b, k) {
      assert At(b, k) in a;
    }
  }

  lemma AppendFacts(items: seq<Cell>, c: Cell, k: string, touched: set<string>)
    requires UniqueKeys(items) && !Has(items, c.key)
    ensures UniqueKeys(items + [c])
    ensures InTouchOrder(items, k, touched) && k != c.key ==> InTouchOrder(items + [c], k, touched + {c.key})
    ensures k == c.key ==> InTouchOrder(items + [c], k, {})
  {
  }

  lemma EvictAt(items: seq<Cell>, max: nat)
    ensures |Evict(items, max)| <= max && |Evict(items, max)| <= |items|
    ensures forall i :: 0 <= i < |Evict(items, max)| ==>
      Evict(items, max)[i] == items[|items| - |Evict(items, max)| + i]
  {
  }

  lemma EvictFacts(items: seq<Cell>, max: nat, k: string, touched: set<string>)
    requires UniqueKeys(items) && InTouchOrder(items, k, touched)
    ensures UniqueKeys(Evict(items, max)) && InTouchOrder(Evict(items, max), k, touched)
    ensures |Evict(items, max)| <= max
    ensures forall c :: c in Evict(items, max) ==> c in items
  {
    hide Evict;
    EvictAt(items, max);
  }

  /** A key is pushed out of the list only by max others touched after it. */
  lemma EvictedIsOld(items: seq<Cell>, max: nat, k: string, touched: set<string>)
    requires UniqueKeys(items) && InTouchOrder(items, k, touched)
    requires Has(items, k) && !Has(Evict(items, max), k)
    ensures |touched| >= max
  {
    var r := Evict(items, max);
    var cut, p := |items| - |r|, IndexOf(items, k);
    forall i | cut <= i < |items| ensures Has(r, items[i].key) {
      assert r[i - cut] == items[i];
    }
    forall i | 0 <= i < |r| ensures r[i].key in touched {
      assert r[i] == items[cut + i] && items[p].key == k && p < cut + i;
    }
    EvictFacts(items, max, k, touched);
    KeysCount(r, touched);
  }

  lemma {:induction false} KeysCount(items: seq<Cell>, keys: set<string>)
    requires UniqueKeys(items) && forall i :: 0 <= i < |items| ==> items[i].key in keys
    ensures |items| <= |keys|
  {
    if items != [] {
      var last := items[|items| - 1];
      var front := items[..|items| - 1];
      forall i | 0 <= i < |front| ensures front[i].key in keys - {last.key} {
        assert items[i].key != last.key;
      }
      KeysCount(front, keys - {last.key});
    }
  }

  lemma FoundLast(items: seq<Cell>, c: Cell)
    requires !Has(items, c.key)
    ensures Has(items + [c], c.key) && At(items + [c], c.key) == c
  {
    var all := items + [c];
    assert all[|items|] == c && IndexOf(all, c.key) == |items|;
  }

  /** What every run keeps about a key. */
  ghost predicate Refines(es: seq<Event>, max: nat, k: string) {
    var items, touched := After(es, max), TouchedSince(es, max, k);
    && UniqueKeys(items) && |items| <= max
    && InTouchOrder(items, k, touched)
    && (Has(items, k) ==> Live(es, k) == Some(At(items, k)))
    && (Live(es, k).Some? && !Has(items, k) ==> |touched| >= max)
    && k !in touched
  }

  lemma MoreTouched(a: set<string>, j: string)
    ensures |a| <= |a + {j}|
  {
    if j in a {
      assert a + {j} == a;
    }
  }

  lemma SetKeeps(es: seq<Event>, max: nat, k: string)
    requires es != [] && Refines(Front(es), max, k) && Last(es).op.Set?
    ensures Refines(es, max, k)
  {
    hide Without, Evict, InTouchOrder;
    var items, touched := After(Front(es), max), TouchedSince(Front(es), max, k);
    var c, touched' := Last(es).op.cell, TouchedSince(es, max, k);
    WithoutFacts(items, c.key);
    WithoutKeepsOrder(items, c.key, k, touched);
    var kept := Without(items, c.key);
    AppendFacts(kept, c, k, touched);
    EvictFacts(kept + [c], max, k, touched');
    MoreTouched(touched, c.key);
    var stored, final := kept + [c], After(es, max);
    if Has(stored, k) && !Has(final, k) {
      EvictedIsOld(stored, max, k, touched');
    }
    if k == c.key {
      FoundLast(kept, c);
    } else {
      SameLookup(items, stored, k);
    }
    if Has(final, k) {
      assert At(final, k) in stored;
      var i :| 0 <= i < |stored| && stored[i] == At(final, k);
      assert i == IndexOf(stored, k);
    }
  }

  lemma GetKeeps(es: seq<Event>, max: nat, k: string)
    requires es != [] && Refines(Front(es), max, k) && Last(es).op.Get?
    ensures Refines(es, max, k)
  {
    hide Without, IndexOf, UniqueKeys, InTouchOrder;
    var items, touched := After(Front(es), max), TouchedSince(Front(es), max, k);
    var j, now := Last(es).op.key, Last(es).now;
    if Has(items, j) {
      WithoutFacts(items, j);
      WithoutKeepsOrder(items, j, k, touched);
      var kept, c := Without(items, j), At(items, j);
      if Expired(c, now) {
        if k != j {
          SameLookup(items, kept, k);
        }
      } else {
        AppendFacts(kept, c, k, touched);
        MoreTouched(touched, j);
        var final := kept + [c];
        assert |final| == |items|;
        if k == j {
          FoundLast(kept, c);
        } else {
          SameLookup(items, final, k);
        }
      }
    }
  }

  lemma DeleteKeeps(es: seq<Event>, max: nat, k: string)
    requires es != [] && Refines(Front(es), max, k) && (Last(es).op.Delete? || Last(es).op.Clear?)
    ensures Refines(es, max, k)
  {
    var items, touched := After(Front(es), max), TouchedSince(Front(es), max, k);
    if Last(es).op.Delete? {
      var j := Last(es).op.key;
      WithoutFacts(items, j);
      WithoutKeepsOrder(items, j, k, touched);
      if k != j {
        SameLookup(items, Without(items, j), k);
      }
    }
  }

  lemma {:induction false} CacheRefinesMap(es: seq<Event>, max: nat, k: string)
    ensures Refines(es, max, k)
  {
    hide Refines;
    if es == [] {
      EmptyRefines(max, k);
    } else {
      CacheRefinesMap(Front(es), max, k);
      if Last(es).op.Set? {
        SetKeeps(es, max, k);
      } else if Last(es).op.Get? {
        GetKeeps(es, max, k);
      } else {
        DeleteKeeps(es, max, k);
      }
    }
  }

  lemma EmptyRefines(max: nat, k: string)
    ensures Refines([], max, k)
  {
  }

  /** A hit returns the value of the latest `set` of that key, which has not expired. */
  lemma HitIsLatestSet(es: seq<Event>, max: nat, k: string, now: real)
    requires Hits(After(es, max), k, now)
    ensures Live(es, k) == Some(At(After(es, max), k)) && !Expired(Live(es, k).value, now)
  {
    CacheRefinesMap(es, max, k);
  }

  /** A key that was set, not deleted and has not expired is found whenever fewer than max_size distinct other keys were
      touched since its own last touch. */
  lemma RecentKeysStay(es: seq<Event>, max: nat, k: string, now: real)
    requires Live(es, k).Some? && !Expired(Live(es, k).value, now)
    requires |TouchedSince(es, max, k)| < max
    ensures Hits(After(es, max), k, now) && At(After(es, max), k).value == Live(es, k).value.value
  {
    CacheRefinesMap(es, max, k);
  }

  /** The keys are listed in the order of their last touch, and there are never more than max_size of them. */
  lemma ListedByLastTouch(es: seq<Event>, max: nat, i: nat, j: nat)
    requires i < j < |After(es, max)|
    ensures |After(es, max)| <= max && UniqueKeys(After(es, max))
    ensures After(es, max)[j].key in TouchedSince(es, max, After(es, max)[i].key)
    ensures After(es, max)[i].key !in TouchedSince(es, max, After(es, max)[j].key)
  {
    CacheRefinesMap(es, max, After(es, max)[i].key);
    CacheRefinesMap(es, max, After(es, max)[j].key);
  }

  /** The bound of RecentKeysStay is sharp: a key still found after max_size distinct others were touched owes it to
      one of those having been removed. */
  lemma OldKeysGo(es: seq<Event>, max: nat, k: string)
    requires max > 0 && |TouchedSince(es, max, k)| >= max
    ensures Has(After(es, max), k) ==> exists j :: j in TouchedSince(es, max, k) && !Has(After(es, max), j)
  {
    CacheRefinesMap(es, max, k);
    if Has(After(es, max), k) && forall j :: j in TouchedSince(es, max, k) ==> Has(After(es, max), j) {
      HasAll(After(es, max), TouchedSince(es, max, k) + {k});
    }
  }

  lemma HasAll(items: seq<Cell>, keys: set<string>)
    requires forall k :: k in keys ==> Has(items, k)
    ensures |keys| <= |items|
  {
    forall k | k in keys ensures k in set c | c in items :: c.key {
      assert At(items, k) in items && At(items, k).key == k;
    }
    KeysBound(items);
    SubsetSize(keys, set c | c in items :: c.key);
  }

  lemma {:induction false} KeysBound(items: seq<Cell>)
    ensures |set c | c in items :: c.key| <= |items|
  {
    if items != [] {
      var front, last := items[..|items| - 1], items[|items| - 1];
      KeysBound(front);
      assert (set c | c in items :: c.key) == (set c | c in front :: c.key) + {last.key};
    }
  }

  // ---- how long a key lives ----------------------------------------------------------------------------

  /** The operation leaves what is stored under k to time: it neither sets nor removes it. */
  predicate LeavesAlone(op: Op, k: string) {
    match op
    case Get(_) => true
    case Set(c) => c.key != k
    case Delete(j) => j != k
    case Clear => false
  }

  ghost predicate InOrder(es: seq<Event>, now: real) {
    && (forall i, j :: 0 <= i < j < |es| ==> es[i].now <= es[j].now)
    && (forall i :: 0 <= i < |es| ==> es[i].now <= now)
  }

  /** es[n] is a `set` of k at the POSIX time t, and k is left alone after it. */
  ghost predicate SetAt(es: seq<Event>, n: nat, k: string, v: string, ttl: int, t: real) {
    && n < |es| && t >= 0.0 && es[n] == Event(Op.Set(NewCell(k, v, ttl, t)), t)
    && forall i :: n < i < |es| ==> LeavesAlone(es[i].op, k)
  }

  predicate InLife(ttl: int, t: real, now: real) {
    ttl <= 0 || now <= t + ttl as real
  }

  lemma CellLives(k: string, v: string, ttl: int, t: real, now: real)
    requires t >= 0.0
    ensures Expired(NewCell(k, v, ttl, t), now) <==> !InLife(ttl, t, now)
    ensures NewCell(k, v, ttl, t).key == k && NewCell(k, v, ttl, t).value == v
  {
  }

  lemma {:induction false} LiveSince(es: seq<Event>, n: nat, k: string, v: string, ttl: int, t: real, now: real)
    requires SetAt(es, n, k, v, ttl, t) && InOrder(es, now)
    ensures Live(es, k) == Some(NewCell(k, v, ttl, t)) || (Live(es, k) == None && !InLife(ttl, t, now))
  {
    hide NewCell, Expired, InLife;
    CellLives(k, v, ttl, t, now);
    if n < |es| - 1 {
      var front := Front(es);
      assert forall i :: 0 <= i < |front| ==> front[i] == es[i];
      LiveSince(front, n, k, v, ttl, t, Last(es).now);
      CellLives(k, v, ttl, t, Last(es).now);
      LaterToo(ttl, t, Last(es).now, now);
    }
  }

  lemma LaterToo(ttl: int, t: real, now: real, later: real)
    requires now <= later
    ensures InLife(ttl, t, later) ==> InLife(ttl, t, now)
  {
  }

  /** In every run: after `set(k, v, ttl)` at t, as long as k is not set again or removed, a `get` finds nothing but
      v and only up to t + ttl, or for ever without a positive ttl; and unless max_size others were touched since,
      it does find it up to then. */
  lemma LifeOfKey(es: seq<Event>, max: nat, n: nat, k: string, v: string, ttl: int, t: real, now: real)
    requires SetAt(es, n, k, v, ttl, t) && InOrder(es, now)
    ensures Hits(After(es, max), k, now) ==>
      At(After(es, max), k).value == v && (ttl <= 0 || now <= t + ttl as real)
    ensures |TouchedSince(es, max, k)| < max ==>
      (Hits(After(es, max), k, now) <==> ttl <= 0 || now <= t + ttl as real)
  {
    LiveSince(es, n, k, v, ttl, t, now);
    CellLives(k, v, ttl, t, now);
    CacheRefinesMap(es, max, k);
    hide Expired, NewCell, After, TouchedSince, Live;
    if Hits(After(es, max), k, now) {
      HitIsLatestSet(es, max, k, now);
    }
  }
}
