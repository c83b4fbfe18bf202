/** swarm/core/task_dag.py: the execution order of a task pipeline and its parallel groups. */
module TaskDag {
  import opened Prelude
  import opened Walks

  datatype Edge = Edge(source: string, target: string, kind: string)

  datatype DagError =
    | CycleDetected(stage: string)   // the ValueError of `visit`
    | UnknownStage(stage: string)    // the KeyError of `self.nodes[stage_name]`

  /** The dependencies the sort follows: the sequential edges. */
  ghost function SequentialGraph(edges: seq<Edge>): Graph {
    set e | e in edges && e.kind == "sequential" :: (e.source, e.target)
  }

  predicate HasDependency(edges: seq<Edge>, stage: string) {
    exists e :: e in edges && e.target == stage && e.kind == "sequential"
  }

  ghost function Names(stages: seq<string>): set<string> {
    set s | s in stages
  }

  /** What holds between two `visit` calls: the finished stages are listed once, after everything they
      depend on, and a walk from a root leads to each. */
  ghost predicate Explored(g: Graph, roots: set<string>, visited: set<string>, tempMark: set<string>,
                           order: seq<string>)
  {
    && visited == Names(order)
    && Distinct(order)
    && Topological(g, order)
    && tempMark !! visited
    && forall s :: s in order ==> Reachable(g, roots, s)
  }

  /** Finishing the stage at the end of the current path. */
  lemma ExploredAppend(g: Graph, roots: set<string>, visited: set<string>, tempMark: set<string>,
                       order: seq<string>, path: seq<string>)
    requires Explored(g, roots, visited, tempMark, order)
    requires IsWalk(g, path) && path[0] in roots && path[|path| - 1] in tempMark
    requires forall a :: (a, path[|path| - 1]) in g ==> a in order
    ensures var s := path[|path| - 1];
            Explored(g, roots, visited + {s}, tempMark - {s}, order + [s])
  {
    var s := path[|path| - 1];
    TopologicalAppend(g, order, s);
    assert s !in order;
    assert Reachable(g, roots, s);
    assert forall x :: x in order + [s] <==> x in order || x == s;
  }

  /** When every root is finished, the order is complete and no root reaches a cycle. */
  lemma ExploredIsComplete(g: Graph, roots: set<string>, visited: set<string>, order: seq<string>)
    requires Explored(g, roots, visited, {}, order)
    requires forall r :: r in roots ==> r in visited
    ensures !CycleFrom(g, roots) && Distinct(order) && Topological(g, order)
    ensures forall s :: s in order <==> Reachable(g, roots, s)
  {
    TopologicalHasNoCycle(g, order, roots);
    forall s | Reachable(g, roots, s) ensures s in order {
      var w :| IsWalk(g, w) && w[0] in roots && w[|w| - 1] == s;
      var k := StagePosition(g, order, w, |w| - 1);
    }
  }

  lemma SingleWalk(g: Graph, s: string)
    ensures IsWalk(g, [s])
  {
  }

  lemma RepeatOnPath(g: Graph, roots: set<string>, stack: seq<string>, s: string)
    requires IsWalk(g, stack + [s]) && (stack + [s])[0] in roots && s in stack
    ensures CycleFrom(g, roots)
  {
    var path := stack + [s];
    var k :| 0 <= k < |stack| && stack[k] == s;
    assert path[k] == path[|stack|];
  }

  /** The variables shared by the nested `visit` calls of one `get_execution_order`. */
  class Search {
    const edges: seq<Edge>
    ghost const roots: set<string>
    /** The nodes that the outer loop has come to. */
    ghost var begun: set<string>
    var visited: set<string>
    var tempMark: set<string>
    var order: seq<string>

    constructor (edges: seq<Edge>, ghost roots: set<string>)
      ensures this.edges == edges && this.roots == roots
      ensures order == [] && tempMark == begun == {} && Valid()
    {
      this.edges, this.roots := edges, roots;
      visited, tempMark, order, begun := {}, {}, [], {};
    }

    ghost function Universe(): set<string> {
      roots + set e | e in edges :: e.source
    }

    ghost predicate Valid()
      reads this
    {
      && Explored(SequentialGraph(edges), begun, visited, tempMark, order)
      && tempMark <= Universe() && begun <= roots
    }

    /** `stack` is the chain of calls in progress: a walk from a node begun, its stages temporarily marked. */
    ghost predicate OnStack(stack: seq<string>, stage: string)
      reads this
    {
      && tempMark == Names(stack)
      && IsWalk(SequentialGraph(edges), stack + [stage])
      && (stack + [stage])[0] in begun
    }

    method Visit(stage: string, ghost stack: seq<string>) returns (r: Option<DagError>)
      requires Valid() && OnStack(stack, stage) && stage in Universe()
      modifies this`visited, this`tempMark, this`order
      ensures r.None? ==> Valid() && tempMark == old(tempMark)
      ensures r.None? ==> old(order) <= order && stage in visited
      ensures r.Some? ==> r.value.CycleDetected? && CycleFrom(SequentialGraph(edges), roots)
      decreases |Universe() - tempMark|, 0
    {
      hide IsWalk, Topological, Reachable, CycleFrom;
      ghost var path := stack + [stage];
      if stage in tempMark {
        RepeatOnPath(SequentialGraph(edges), begun, stack, stage);
        CycleFromMore(SequentialGraph(edges), begun, roots);
        return Some(CycleDetected(stage));
      }
      if stage in visited {
        return None;
      }
      tempMark := tempMark + {stage};
      assert forall s :: s in path <==> s in stack || s == stage;
      SmallerGap(Universe(), old(tempMark), stage);
      r := VisitDependencies(stage, path);
      if r.None? {
        ExploredAppend(SequentialGraph(edges), begun, visited, tempMark, order, path);
        tempMark := tempMark - {stage};
        visited := visited + {stage};
        order := order + [stage];
        assert tempMark == old(tempMark);
      }
    }

    /** The loop of `visit` over the edges that end in `stage`. */
    method VisitDependencies(stage: string, ghost path: seq<string>) returns (r: Option<DagError>)
      requires Valid() && tempMark == Names(path)
      requires IsWalk(SequentialGraph(edges), path) && path[0] in begun && path[|path| - 1] == stage
      modifies this`visited, this`tempMark, this`order
      ensures r.None? ==> Valid() && tempMark == old(tempMark) && old(order) <= order
      ensures r.None? ==> forall a :: (a, stage) in SequentialGraph(edges) ==> a in visited
      ensures r.Some? ==> r.value.CycleDetected? && CycleFrom(SequentialGraph(edges), roots)
      decreases |Universe() - tempMark|, 1
    {
      hide Topological, Reachable, CycleFrom;
      for i := 0 to |edges|
        invariant Valid() && tempMark == old(tempMark) && old(order) <= order
        invariant forall k :: 0 <= k < i && edges[k].target == stage && edges[k].kind == "sequential"
                              ==> edges[k].source in visited
      {
        if edges[i].target == stage && edges[i].kind == "sequential" {
          assert (edges[i].source, stage) in SequentialGraph(edges);
          WalkExtend(SequentialGraph(edges), path, edges[i].source);
          assert (path + [edges[i].source])[0] == path[0];
          r := Visit(edges[i].source, path);
          if r.Some? {
            return;
          }
        }
      }
      return None;
    }
  }

  lemma CycleFromMore(g: Graph, some: set<string>, all: set<string>)
    requires CycleFrom(g, some) && some <= all
    ensures CycleFrom(g, all)
  {
    var w :| IsWalk(g, w) && w[0] in some && !Distinct(w);
    assert w[0] in all;
  }

  lemma ExploredMore(g: Graph, some: set<string>, all: set<string>, visited: set<string>, tempMark: set<string>,
                     order: seq<string>)
    requires Explored(g, some, visited, tempMark, order) && some <= all
    ensures Explored(g, all, visited, tempMark, order)
  {
    forall s | s in order ensures Reachable(g, all, s) {
      var w :| IsWalk(g, w) && w[0] in some && w[|w| - 1] == s;
    }
  }

  lemma ReachableMore(g: Graph, nodes: seq<string>, i: nat, j: nat, s: string)
    requires i <= j <= |nodes| && Reachable(g, Names(nodes[..i]), s)
    ensures Reachable(g, Names(nodes[..j]), s)
  {
    var w :| IsWalk(g, w) && w[0] in Names(nodes[..i]) && w[|w| - 1] == s;
    assert forall n :: n in nodes[..i] ==> n in nodes[..j];
  }

  /** The stages are taken up in the order of the nodes: what the first i nodes need comes before everything else. */
  ghost predicate NeededFirst(g: Graph, nodes: seq<string>, order: seq<string>) {
    forall i, p, q :: 0 <= i <= |nodes| && 0 <= p <= q < |order| && Reachable(g, Names(nodes[..i]), order[q]) ==>
      Reachable(g, Names(nodes[..i]), order[p])
  }

  /** Finishing one more node. */
  lemma NeededNext(g: Graph, nodes: seq<string>, visited: set<string>, before: seq<string>, order: seq<string>, n: nat)
    requires n < |nodes| && NeededFirst(g, nodes[..n], before) && before <= order
    requires forall s :: Reachable(g, Names(nodes[..n]), s) ==> s in before
    requires Explored(g, Names(nodes[..n + 1]), visited, {}, order)
    ensures NeededFirst(g, nodes[..n + 1], order)
  {
    hide Reachable, Topological;
    var upto := nodes[..n + 1];
    forall i, p, q | 0 <= i <= |upto| && 0 <= p <= q < |order| && Reachable(g, Names(upto[..i]), order[q])
      ensures Reachable(g, Names(upto[..i]), order[p])
    {
      assert upto[..i] == nodes[..i];
      if i == n + 1 {
        assert order[p] in order;
      } else {
        assert nodes[..n][..i] == nodes[..i];
        ReachableMore(g, nodes, i, n, order[q]);
        assert order[q] in before;
        var k :| 0 <= k < |before| && before[k] == order[q];
        assert order[k] == order[q] && k == q;
      }
    }
  }

  lemma SmallerGap(all: set<string>, marked: set<string>, s: string)
    requires s in all && s !in marked
    ensures |all - (marked + {s})| < |all - marked|
  {
    assert all - marked == (all - (marked + {s})) + {s};
  }

  lemma TopologicalAppend(g: Graph, order: seq<string>, s: string)
    requires Topological(g, order)
    requires forall a :: (a, s) in g ==> a in order
    ensures Topological(g, order + [s])
  {
    var longer := order + [s];
    forall a, j | 0 <= j < |longer| && (a, longer[j]) in g ensures a in longer[..j] {
      if j < |order| {
        assert longer[..j] == order[..j];
      } else {
        assert longer[..j] == order;
      }
    }
  }

  lemma NothingNeeded(g: Graph)
    ensures NeededFirst(g, [], [])
  {
  }

  lemma NamesMore(nodes: seq<string>, i: nat)
    requires i < |nodes|
    ensures Names(nodes[..i + 1]) == Names(nodes[..i]) + {nodes[i]} <= Names(nodes)
    ensures forall n :: n in Names(nodes[..i]) ==> exists k :: 0 <= k < i && nodes[k] == n
  {
    assert nodes[..i + 1] == nodes[..i] + [nodes[i]];
  }

  class DAG {
    var nodes: seq<string>   // the keys of the `nodes` dictionary, in insertion order
    var edges: seq<Edge>

    ghost predicate Valid()
      reads this
    {
      Distinct(nodes)
    }

    ghost function Graph(): Walks.Graph
      reads this
    {
      SequentialGraph(edges)
    }

    constructor ()
      ensures Valid() && nodes == [] && edges == []
    {
      nodes, edges := [], [];
    }

    method AddNode(name: string)
      requires Valid()
      modifies this`nodes
      ensures Valid()
      ensures nodes == if name in old(nodes) then old(nodes) else old(nodes) + [name]
    {
      if name !in nodes {
        nodes := nodes + [name];
      }
    }

    method AddEdge(source: string, target: string, kind: string)
      modifies this`edges
      ensures edges == old(edges) + [Edge(source, target, kind)]
    {
      edges := edges + [Edge(source, target, kind)];
    }

    /** Fails exactly when the sequential edges that the nodes can reach contain a cycle; otherwise lists
        each reachable stage once, after everything it depends on. */
    method GetExecutionOrder() returns (r: Result<seq<string>, DagError>)
      requires Valid()
      ensures r.Err? <==> CycleFrom(Graph(), Names(nodes))
      ensures r.Err? ==> r.error.CycleDetected?
      ensures r.Ok? ==> Distinct(r.value) && Topological(Graph(), r.value)
      ensures r.Ok? ==> forall s :: s in r.value <==> Reachable(Graph(), Names(nodes), s)
      ensures r.Ok? ==> NeededFirst(Graph(), nodes, r.value)
    {
      hide IsWalk, Topological, Reachable, CycleFrom, NeededFirst;
      var search := new Search(edges, Names(nodes));
      NothingNeeded(Graph());
      for i := 0 to |nodes|
        invariant fresh(search) && search.Valid() && search.tempMark == {} && search.begun == Names(nodes[..i])
        invariant forall k :: 0 <= k < i ==> nodes[k] in search.visited
        invariant NeededFirst(Graph(), nodes[..i], search.order)
      {
        ghost var before := search.order;
        ExploredIsComplete(Graph(), search.begun, search.visited, search.order);
        NamesMore(nodes, i);
        ExploredMore(Graph(), search.begun, Names(nodes[..i + 1]), search.visited, {}, search.order);
        search.begun := Names(nodes[..i + 1]);
        if nodes[i] !in search.visited {
          SingleWalk(Graph(), nodes[i]);
          assert [] + [nodes[i]] == [nodes[i]];
          var failed := search.Visit(nodes[i], []);
          if failed.Some? {
            return Err(failed.value);
          }
        }
        NeededNext(Graph(), nodes, search.visited, before, search.order, i);
      }
      assert nodes[..|nodes|] == nodes;
      ExploredIsComplete(Graph(), Names(nodes), search.visited, search.order);
      return Ok(search.order);
    }

    /** The second half of `get_parallel_groups`. Its test for joining a group compares names with node
        objects, so a stage that has dependencies never joins one. */
    method GroupStages(order: seq<string>) returns (r: Result<seq<seq<string>>, DagError>)
      ensures r.Ok? <==> forall s :: s in order ==> s in nodes
      ensures r.Err? ==> r.error.UnknownStage? && r.error.stage in order && r.error.stage !in nodes
      ensures r.Ok? ==> r.value == Groups(edges, order)
    {
      var groups: seq<seq<string>> := [];
      var current: seq<string> := [];
      for i := 0 to |order|
        invariant forall k :: 0 <= k < i ==> order[k] in nodes
        invariant Grouping(edges, order[..i]) == (groups, current)
      {
        if order[i] !in nodes {
          return Err(UnknownStage(order[i]));
        }
        assert order[..i + 1][..i] == order[..i];
        if !HasDependency(edges, order[i]) {
          current := current + [order[i]];
        } else {
          if current != [] {
            groups := groups + [current];
          }
          current := [order[i]];
        }
      }
      assert order[..|order|] == order;
      if current != [] {
        groups := groups + [current];
      }
      return Ok(groups);
    }

    method GetParallelGroups() returns (r: Result<seq<seq<string>>, DagError>)
      requires Valid()
      ensures r.Ok? <==> !CycleFrom(Graph(), Names(nodes))
                         && forall s :: Reachable(Graph(), Names(nodes), s) ==> s in nodes
      ensures r.Ok? ==> exists order :: IsExecutionOrder(edges, nodes, order) && Flatten(r.value) == order
      ensures r.Ok? ==> GroupsRespect(Graph(), r.value) && OpenedByDependents(Graph(), r.value)
    {
      var order := GetExecutionOrder();
      if order.Err? {
        return Err(order.error);
      }
      r := GroupStages(order.value);
      if r.Ok? {
        assert IsExecutionOrder(edges, nodes, order.value);
        GroupsFlatten(edges, order.value);
        GroupsAreSound(edges, order.value);
        GroupsOpened(edges, order.value);
      }
    }
  }

  ghost predicate IsExecutionOrder(edges: seq<Edge>, nodes: seq<string>, order: seq<string>) {
    && Distinct(order)
    && Topological(SequentialGraph(edges), order)
    && (forall s :: s in order <==> Reachable(SequentialGraph(edges), Names(nodes), s))
    && NeededFirst(SequentialGraph(edges), nodes, order)
  }

  /** Between known nodes the order lists every node once, and an error means a cycle. */
  lemma ClosedDagOrder(edges: seq<Edge>, nodes: seq<string>, order: seq<string>)
    requires forall e :: e in SequentialGraph(edges) ==> e.0 in nodes && e.1 in nodes
    requires Distinct(nodes)
    ensures CycleFrom(SequentialGraph(edges), Names(nodes)) <==> HasCycle(SequentialGraph(edges))
    ensures IsExecutionOrder(edges, nodes, order) ==> multiset(order) == multiset(nodes)
  {
    var g := SequentialGraph(edges);
    CycleFromIsHasCycle(g, Names(nodes));
    if IsExecutionOrder(edges, nodes, order) {
      forall s ensures s in order <==> s in nodes {
        if s in nodes {
          assert IsWalk(g, [s]) && [s][0] in Names(nodes);
        } else if s in order {
          var w :| IsWalk(g, w) && w[0] in Names(nodes) && w[|w| - 1] == s;
          if |w| > 1 {
            WalkEndIsDependency(g, w);
          }
        }
      }
      DistinctCounts(order);
      DistinctCounts(nodes);
    }
  }

  lemma WalkEndIsDependency(g: Graph, w: seq<string>)
    requires IsWalk(g, w) && |w| > 1
    ensures (w[|w| - 1], w[|w| - 2]) in g
  {
    assert (w[|w| - 2 + 1], w[|w| - 2]) in g;
  }

  lemma {:induction false} DistinctCounts(s: seq<string>)
    requires Distinct(s)
    ensures forall x :: multiset(s)[x] == if x in s then 1 else 0
  {
    if s != [] {
      var front := s[..|s| - 1];
      DistinctCounts(front);
      assert s == front + [s[|s| - 1]];
    }
  }

  // ---- groups ------------------------------------------------------------------------------------

  /** The closed groups and the open group after scanning `order`. */
  ghost function Grouping(edges: seq<Edge>, order: seq<string>): (seq<seq<string>>, seq<string>) {
    if order == [] then ([], []) else
      var (closed, open) := Grouping(edges, order[..|order| - 1]);
      var s := order[|order| - 1];
      if !HasDependency(edges, s) then (closed, open + [s])
      else (if open != [] then closed + [open] else closed, [s])
  }

  ghost function Groups(edges: seq<Edge>, order: seq<string>): seq<seq<string>> {
    var (closed, open) := Grouping(edges, order);
    if open != [] then closed + [open] else closed
  }

  /** Every dependency of a stage lies in a strictly earlier group, so a group has no internal edges. */
  ghost predicate GroupsRespect(g: Graph, groups: seq<seq<string>>) {
    forall i, s, d :: 0 <= i < |groups| && s in groups[i] && (d, s) in g ==> d in Flatten(groups[..i])
  }

  lemma GroupingMore(edges: seq<Edge>, order: seq<string>)
    requires order != []
    ensures var (closed, open) := Grouping(edges, Front(order));
      Grouping(edges, order) ==
        if !HasDependency(edges, Last(order)) then (closed, open + [Last(order)])
        else (if open != [] then closed + [open] else closed, [Last(order)])
  {
    hide HasDependency;
  }

  lemma {:induction false} GroupingFlattens(edges: seq<Edge>, order: seq<string>)
    ensures Flatten(Grouping(edges, order).0) + Grouping(edges, order).1 == order
    ensures forall grp :: grp in Grouping(edges, order).0 ==> grp != []
  {
    if order != [] {
      var s := Last(order);
      GroupingMore(edges, order);
      GroupingFlattens(edges, Front(order));
      var (closed, open) := Grouping(edges, Front(order));
      FlattenMore(closed, open);
      hide HasDependency, Grouping, Flatten;
      assert Flatten(closed) + open + [s] == Flatten(closed) + (open + [s]);
      assert open == [] ==> Flatten(closed) + open == Flatten(closed);
      assert Front(order) + [s] == order;
    }
  }

  lemma FlattenMore(blocks: seq<seq<string>>, block: seq<string>)
    ensures Flatten(blocks + [block]) == Flatten(blocks) + block
  {
    assert (blocks + [block])[..|blocks|] == blocks;
  }

  /** The groups concatenate back to the execution order, and none is empty. */
  lemma GroupsFlatten(edges: seq<Edge>, order: seq<string>)
    ensures Flatten(Groups(edges, order)) == order
    ensures forall grp :: grp in Groups(edges, order) ==> grp != []
  {
    GroupingFlattens(edges, order);
    var (closed, open) := Grouping(edges, order);
    assert (closed + [open])[..|closed|] == closed;
  }

  /** Only the first stage of a group can have dependencies, and all of them precede the group. */
  lemma {:induction false} GroupingRespects(edges: seq<Edge>, order: seq<string>)
    requires Topological(SequentialGraph(edges), order)
    ensures GroupsRespect(SequentialGraph(edges), Grouping(edges, order).0)
    ensures forall s, d :: s in Grouping(edges, order).1 && (d, s) in SequentialGraph(edges)
                           ==> d in Flatten(Grouping(edges, order).0)
  {
    var g := SequentialGraph(edges);
    if order != [] {
      var front := order[..|order| - 1];
      var last := order[|order| - 1];
      forall a, j | 0 <= j < |front| && (a, front[j]) in g ensures a in front[..j] {
        assert front[j] == order[j] && front[..j] == order[..j];
      }
      GroupingRespects(edges, front);
      var (closed, open) := Grouping(edges, front);
      if HasDependency(edges, last) {
        GroupingFlattens(edges, front);
        var now := if open != [] then closed + [open] else closed;
        forall d | (d, last) in g ensures d in Flatten(now) {
          assert (closed + [open])[..|closed|] == closed;
        }
        forall i, s, d | 0 <= i < |now| && s in now[i] && (d, s) in g ensures d in Flatten(now[..i]) {
          if i < |closed| {
            assert now[..i] == closed[..i];
          } else {
            assert now[..i] == closed;
          }
        }
      } else {
        forall s, d | s in open + [last] && (d, s) in g ensures d in Flatten(closed) {
          if s == last {
            assert false;
          }
        }
      }
    }
  }

  lemma GroupsAreSound(edges: seq<Edge>, order: seq<string>)
    requires Topological(SequentialGraph(edges), order)
    ensures GroupsRespect(SequentialGraph(edges), Groups(edges, order))
  {
    GroupingRespects(edges, order);
    var (closed, open) := Grouping(edges, order);
    var all := Groups(edges, order);
    forall i, s, d | 0 <= i < |all| && s in all[i] && (d, s) in SequentialGraph(edges)
      ensures d in Flatten(all[..i])
    {
      assert all[..i] == if i < |closed| then closed[..i] else closed;
    }
  }

  /** A group is opened exactly by a stage that has dependencies (or by the first stage of the order), and
      only stages without dependencies join it. With `GroupsFlatten` this determines the groups. */
  ghost predicate Depends(g: Graph, stage: string) {
    exists a :: (a, stage) in g
  }

  lemma DependencyMeaning(edges: seq<Edge>, stage: string)
    ensures HasDependency(edges, stage) <==> Depends(SequentialGraph(edges), stage)
  {
    if a :| (a, stage) in SequentialGraph(edges) {
      var e :| e in edges && e.kind == "sequential" && (e.source, e.target) == (a, stage);
    }
    if e :| e in edges && e.target == stage && e.kind == "sequential" {
      assert (e.source, stage) in SequentialGraph(edges);
    }
  }

  ghost predicate OpenedByDependents(g: Graph, groups: seq<seq<string>>) {
    && (forall i, k :: 0 <= i < |groups| && 0 < k < |groups[i]| ==> !Depends(g, groups[i][k]))
    && (forall i :: 0 < i < |groups| ==> groups[i] != [] && Depends(g, groups[i][0]))
  }

  ghost predicate OpensMarked(edges: seq<Edge>, groups: seq<seq<string>>) {
    && (forall i, k :: 0 <= i < |groups| && 0 < k < |groups[i]| ==> !HasDependency(edges, groups[i][k]))
    && (forall i :: 0 < i < |groups| ==> groups[i] != [] && HasDependency(edges, groups[i][0]))
  }

  lemma {:induction false} GroupingOpened(edges: seq<Edge>, order: seq<string>)
    ensures var (closed, open) := Grouping(edges, order);
            OpensMarked(edges, closed + [open]) || (closed == [] && open == [])
  {
    if order != [] {
      var front := order[..|order| - 1];
      GroupingOpened(edges, front);
      var (closed, open) := Grouping(edges, front);
      var before := closed + [open];
      assert open == before[|closed|];
      var (closed', open') := Grouping(edges, order);
      var after := closed' + [open'];
      forall i | 0 <= i < |after| ensures i < |before| ==> after[i] == before[i] || i == |closed| {
      }
    }
  }

  lemma GroupsOpened(edges: seq<Edge>, order: seq<string>)
    ensures OpenedByDependents(SequentialGraph(edges), Groups(edges, order))
  {
    GroupingOpened(edges, order);
    var (closed, open) := Grouping(edges, order);
    var all := Groups(edges, order);
    forall i | 0 <= i < |all| ensures all[i] == (closed + [open])[i] {
    }
    hide HasDependency, Depends, SequentialGraph;
    forall s ensures HasDependency(edges, s) <==> Depends(SequentialGraph(edges), s) {
      DependencyMeaning(edges, s);
    }
  }
}
