/** Depth-first cycle detection with reconstruction of the cycle's path. */
module CycleDetection {
  import opened Wrappers
  import opened DependencyGraph

  datatype Node = Node(id: Id, dependencies: seq<Id>)

  /** The graph of a node list: a repeated id keeps its last dependency list. */
  function GraphOf(nodes: seq<Node>): Graph {
    if nodes == [] then map[]
    else
      var last := nodes[|nodes| - 1];
      GraphOf(nodes[..|nodes| - 1])[last.id := last.dependencies]
  }

  function Ids(nodes: seq<Node>): set<Id> {
    set n | n in nodes :: n.id
  }

  ghost function Universe(g: Graph): set<Id> {
    g.Keys + set u, d | u in g && d in g[u] :: d
  }

  function Reverse<T>(s: seq<T>): seq<T> {
    if s == [] then [] else [s[|s| - 1]] + Reverse(s[..|s| - 1])
  }

  lemma ReverseSnoc<T>(s: seq<T>, x: T)
    ensures Reverse(s + [x]) == [x] + Reverse(s)
  {
    assert (s + [x])[..|s|] == s;
  }

  /** What a reported cycle looks like: `[a, a]` for an id that depends on itself, otherwise a closed
      walk that repeats no id. */
  ghost predicate CycleReport(g: Graph, c: seq<Id>) {
    && IsClosedWalk(g, c)
    && (Distinct(c) || (|c| == 2 && c[0] == c[1]))
  }

  lemma GraphOfKeys(nodes: seq<Node>, id: Id)
    ensures id in GraphOf(nodes) <==> id in Ids(nodes)
  {
    if nodes != [] {
      var front := nodes[..|nodes| - 1];
      assert nodes == front + [nodes[|nodes| - 1]];
      GraphOfKeys(front, id);
    }
  }

  method BuildGraph(nodes: seq<Node>) returns (graph: Graph)
    ensures graph == GraphOf(nodes)
  {
    graph := map[];
    for i := 0 to |nodes|
      invariant graph == GraphOf(nodes[..i])
    {
      graph := graph[nodes[i].id := nodes[i].dependencies];
      assert nodes[..i + 1][..i] == nodes[..i];
    }
    assert nodes[..|nodes|] == nodes;
  }

  predicate ParentIs(parent: map<Id, Id>, id: Id, stack: seq<Id>, below: nat)
    requires below < |stack|
  {
    id in parent && parent[id] == stack[below]
  }

  ghost predicate Parented(parent: map<Id, Id>, stack: seq<Id>) {
    forall i :: 0 < i < |stack| ==> ParentIs(parent, stack[i], stack, i - 1)
  }

  lemma PushStack(g: Graph, parent: map<Id, Id>, stack: seq<Id>, id: Id)
    requires Distinct(stack) && Parented(parent, stack) && id !in stack
    requires stack != [] ==>
               && IsWalk(g, stack) && Edge(g, stack[|stack| - 1], id)
               && ParentIs(parent, id, stack, |stack| - 1)
    ensures IsWalk(g, stack + [id]) && Distinct(stack + [id]) && Parented(parent, stack + [id])
    ensures ToSet(stack + [id]) == ToSet(stack) + {id}
  {
    var longer := stack + [id];
    if stack != [] {
      WalkSnoc(g, stack, id);
    }
    forall i | 0 < i < |longer|
      ensures ParentIs(parent, longer[i], longer, i - 1)
    {
      if i < |stack| {
        assert ParentIs(parent, stack[i], stack, i - 1);
      }
    }
  }

  ghost function IndexOf(stack: seq<Id>, id: Id): (k: nat)
    requires id in ToSet(stack)
    ensures k < |stack| && stack[k] == id
  {
    var k :| 0 <= k < |stack| && stack[k] == id;
    k
  }

  /** The path pushed so far, once reversed, is the stack from `j` on followed by `dep`. */
  ghost predicate PathReads(stack: seq<Id>, j: nat, path: seq<Id>, dep: Id)
    requires j <= |stack|
  {
    Reverse(path) == stack[j..] + [dep]
  }

  lemma PathStarts(stack: seq<Id>, dep: Id)
    requires stack != []
    ensures PathReads(stack, |stack| - 1, [dep, stack[|stack| - 1]], dep)
  {
    var top := stack[|stack| - 1];
    ReverseSnoc([dep], top);
    assert [dep] + [top] == [dep, top];
  }

  /** One more id of the stack in front of the path read so far. */
  lemma PathUp(stack: seq<Id>, j: nat, path: seq<Id>, dep: Id)
    requires j + 1 < |stack| && PathReads(stack, j + 1, path, dep)
    ensures PathReads(stack, j, path + [stack[j]], dep)
  {
    ReverseSnoc(path, stack[j]);
    assert stack[j..] == [stack[j]] + stack[j + 1..];
  }

  lemma SelfCycle(g: Graph, stack: seq<Id>, path: seq<Id>)
    requires stack != []
    requires var id := stack[|stack| - 1];
             Edge(g, id, id) && PathReads(stack, |stack| - 1, path, id)
    ensures CycleReport(g, Reverse(path))
  {
    var id := stack[|stack| - 1];
    assert Reverse(path) == [id, id];
    assert Linked(g, [id, id], 0);
  }

  /** The collections that the recursive search shares. `stack` is the chain of active calls and
      `order` lists the finished ids, oldest first. */
  class CycleSearch {
    const graph: Graph
    var visited: set<Id>
    var inStack: set<Id>
    var parent: map<Id, Id>
    ghost var stack: seq<Id>
    ghost var order: seq<Id>

    ghost predicate Valid()
      reads this
    {
      && Distinct(stack) && ToSet(stack) == inStack <= visited <= Universe(graph)
      && (stack != [] ==> IsWalk(graph, stack) && stack[0] !in parent)
      && Parented(parent, stack)
      && ToSet(order) == visited - inStack
      && Topological(graph, order)
    }

    constructor (g: Graph)
      ensures Valid() && graph == g
      ensures visited == {} && parent == map[] && stack == []
    {
      graph, visited, inStack, parent, stack, order := g, {}, {}, map[], [], [];
    }

    /** Follows the parent links from the top of the stack back to `dep`. */
    method Reconstruct(dep: Id, nodeId: Id) returns (cycle: seq<Id>)
      requires Valid()
      requires stack != [] && nodeId == stack[|stack| - 1]
      requires dep in inStack && Edge(graph, nodeId, dep)
      ensures CycleReport(graph, cycle)
    {
      ghost var top := |stack| - 1;
      ghost var k := IndexOf(stack, dep);
      ghost var j := top;
      var path := [dep, nodeId];
      var current := nodeId;
      PathStarts(stack, dep);
      while current != dep && current in parent
        invariant k <= j <= top && stack[j] == current
        invariant k == top || k < j
        invariant PathReads(stack, j, path, dep)
        decreases j
      {
        assert ParentIs(parent, stack[j], stack, j - 1);
        current := parent[current];
        j := j - 1;
        if current == dep {
          break;
        }
        PathUp(stack, j, path, dep);
        path := path + [current];
      }
      cycle := Reverse(path);
      if k == top {
        SelfCycle(graph, stack, path);
      } else {
        assert j == k;
        StackCycle(graph, stack, k, path);
      }
    }

    /** `nodeId` may be visited next: it hangs below the top of the stack, or starts a new tree. */
    ghost predicate Entering(nodeId: Id)
      reads this
    {
      && nodeId !in visited && nodeId in Universe(graph)
      && parent.Keys <= visited + {nodeId}
      && if stack == [] then nodeId !in parent
         else
           var top := stack[|stack| - 1];
           Edge(graph, top, nodeId) && nodeId in parent && parent[nodeId] == top
    }

    method Enter(nodeId: Id)
      requires Valid() && Entering(nodeId)
      modifies this
      ensures Valid() && parent.Keys <= visited
      ensures stack == old(stack) + [nodeId] && visited == old(visited) + {nodeId}
      ensures parent == old(parent)
    {
      PushStack(graph, parent, stack, nodeId);
      visited := visited + {nodeId};
      inStack := inStack + {nodeId};
      stack := stack + [nodeId];
    }

    method Leave(nodeId: Id)
      requires Valid() && stack != [] && stack[|stack| - 1] == nodeId
      requires forall d :: d in Deps(graph, nodeId) ==> d in visited - inStack
      modifies this`inStack, this`stack, this`order
      ensures Valid() && stack == old(stack[..|stack| - 1])
    {
      ghost var below := stack[..|stack| - 1];
      PopStack(graph, stack);
      TopologicalSnoc(graph, order, nodeId);
      inStack := inStack - {nodeId};
      stack := below;
      order := order + [nodeId];
    }

    method Link(dep: Id, nodeId: Id)
      requires Valid() && parent.Keys <= visited
      requires stack != [] && stack[|stack| - 1] == nodeId && Edge(graph, nodeId, dep)
      requires dep !in visited
      modifies this`parent
      ensures Valid() && Entering(dep)
      ensures parent == old(parent)[dep := nodeId]
    {
      assert dep in Universe(graph);
      assert forall i :: 0 <= i < |stack| ==> stack[i] in ToSet(stack);
      parent := parent[dep := nodeId];
    }

    /** Visits `nodeId` and everything it depends on that is still unvisited. */
    method Dfs(nodeId: Id) returns (cycle: Option<seq<Id>>)
      requires Valid() && Entering(nodeId)
      modifies this
      ensures cycle.Some? ==> CycleReport(graph, cycle.value)
      ensures cycle.None? ==>
                && Valid() && parent.Keys <= visited && old(visited) <= visited
                && stack == old(stack) && nodeId in visited
      decreases Universe(graph) - visited
    {
      ghost var was := stack;
      Enter(nodeId);
      var deps := Deps(graph, nodeId);
      for i := 0 to |deps|
        invariant Valid() && parent.Keys <= visited && old(visited) <= visited && nodeId in visited
        invariant stack == was + [nodeId]
        invariant forall d :: d in deps[..i] ==> d in visited - inStack
      {
        var dep := deps[i];
        assert Edge(graph, nodeId, dep);
        if dep !in visited {
          Link(dep, nodeId);
          cycle := Dfs(dep);
          if cycle.Some? {
            return;
          }
        } else if dep in inStack {
          var path := Reconstruct(dep, nodeId);
          return Some(path);
        }
        assert deps[..i + 1] == deps[..i] + [dep];
      }
      assert deps[..|deps|] == deps;
      Leave(nodeId);
      return None;
    }
  }

  lemma StackCycle(g: Graph, stack: seq<Id>, k: nat, path: seq<Id>)
    requires IsWalk(g, stack) && Distinct(stack) && k + 1 < |stack| && Edge(g, stack[|stack| - 1], stack[k])
    requires PathReads(stack, k + 1, path, stack[k])
    ensures CycleReport(g, Reverse(path))
  {
    WalkSlice(g, stack, k + 1, |stack|);
    assert stack[k + 1..] == stack[k + 1..|stack|];
    WalkSnoc(g, stack[k + 1..], stack[k]);
    assert Linked(g, stack, k);
  }

  lemma PopStack(g: Graph, stack: seq<Id>)
    requires stack != [] && IsWalk(g, stack) && Distinct(stack)
    ensures
      var below := stack[..|stack| - 1];
      && (below != [] ==> IsWalk(g, below))
      && ToSet(below) == ToSet(stack) - {stack[|stack| - 1]}
  {
    var below := stack[..|stack| - 1];
    if below != [] {
      WalkSlice(g, stack, 0, |below|);
      assert stack[0..|below|] == below;
    }
    forall x | x in stack && x != stack[|stack| - 1]
      ensures x in below
    {
      var i :| 0 <= i < |stack| && stack[i] == x;
      assert below[i] == x;
    }
  }

  method DetectCycle(nodes: seq<Node>) returns (cycle: Option<seq<Id>>)
    ensures cycle.None? <==> !Cyclic(GraphOf(nodes))
    ensures cycle.Some? ==> CycleReport(GraphOf(nodes), cycle.value)
  {
    var graph := BuildGraph(nodes);
    var search := new CycleSearch(graph);
    for i := 0 to |nodes|
      invariant search.Valid() && search.graph == graph && fresh(search)
      invariant search.stack == [] && search.parent.Keys <= search.visited
      invariant Ids(nodes[..i]) <= search.visited
    {
      assert nodes[..i + 1] == nodes[..i] + [nodes[i]];
      if nodes[i].id !in search.visited {
        assert nodes[i].id in Ids(nodes);
        GraphOfKeys(nodes, nodes[i].id);
        cycle := search.Dfs(nodes[i].id);
        if cycle.Some? {
          return;
        }
      }
    }
    assert nodes[..|nodes|] == nodes && ToSet(search.order) == search.visited;
    AllFinishedIsAcyclic(nodes, search.order);
    return None;
  }

  lemma AllFinishedIsAcyclic(nodes: seq<Node>, order: seq<Id>)
    requires Topological(GraphOf(nodes), order)
    requires Ids(nodes) <= ToSet(order)
    ensures !Cyclic(GraphOf(nodes))
  {
    var g := GraphOf(nodes);
    forall c
      ensures !IsClosedWalk(g, c)
    {
      if IsClosedWalk(g, c) {
        assert |c| > 1 ==> Linked(g, c, 0);
        assert c[0] in g;
        GraphOfKeys(nodes, c[0]);
        assert c[0] in ToSet(order);
        var i :| 0 <= i < |order| && order[i] == c[0];
        TopologicalExcludesCycle(g, order, c, 0, i);
      }
    }
  }
}
