/** Topological sorting of a dependency list by Kahn's algorithm. */
module DependencyResolver {
  import opened Wrappers
  import opened DependencyGraph
  import opened CycleDetection

  /** No id is listed again after an entry that names dependencies: the later entry would replace the
      earlier one in the graph, but not take its reverse edges back. Distinct ids meet this. */
  ghost predicate LastEntryCounts(nodes: seq<Node>) {
    forall i, j :: 0 <= i < j < |nodes| && nodes[i].id == nodes[j].id ==> nodes[i].dependencies == []
  }

  /** Everything `id` depends on, directly or not, is listed; so is `id` itself. */
  ghost predicate Grounded(g: Graph, id: Id) {
    forall v :: Reaches(g, id, v) ==> v in g
  }

  // ----- counting -----

  /** How many entries of `deps`, counted with repetition, are in `done`. */
  ghost function Met(deps: seq<Id>, done: set<Id>): nat {
    if deps == [] then 0
    else
      Met(deps[..|deps| - 1], done) + (if deps[|deps| - 1] in done then 1 else 0)
  }

  /** The same over all entries of `id`, including those that a later entry replaces. */
  ghost function Credit(nodes: seq<Node>, id: Id, done: set<Id>): nat {
    if nodes == [] then 0
    else
      var last := nodes[|nodes| - 1];
      Credit(nodes[..|nodes| - 1], id, done) + (if last.id == id then Met(last.dependencies, done) else 0)
  }

  /** How often the entries of `id` name `c`. */
  ghost function Times(nodes: seq<Node>, c: Id, id: Id): nat {
    if nodes == [] then 0
    else
      var last := nodes[|nodes| - 1];
      Times(nodes[..|nodes| - 1], c, id) + (if last.id == id then multiset(last.dependencies)[c] else 0)
  }

  lemma {:induction false} MetStep(deps: seq<Id>, done: set<Id>, c: Id)
    requires c !in done
    ensures Met(deps, done + {c}) == Met(deps, done) + multiset(deps)[c]
  {
    if deps != [] {
      var front := deps[..|deps| - 1];
      assert deps == front + [deps[|deps| - 1]];
      MetStep(front, done, c);
    }
  }

  lemma {:induction false} MetAll(deps: seq<Id>, done: set<Id>)
    ensures Met(deps, done) <= |deps|
    ensures Met(deps, done) == |deps| <==> ToSet(deps) <= done
  {
    if deps != [] {
      var front := deps[..|deps| - 1];
      assert deps == front + [deps[|deps| - 1]];
      assert ToSet(deps) == ToSet(front) + {deps[|deps| - 1]};
      MetAll(front, done);
    }
  }

  lemma {:induction false} MetNothing(deps: seq<Id>)
    ensures Met(deps, {}) == 0
  {
    if deps != [] {
      MetNothing(deps[..|deps| - 1]);
    }
  }

  lemma {:induction false} CreditStep(nodes: seq<Node>, id: Id, done: set<Id>, c: Id)
    requires c !in done
    ensures Credit(nodes, id, done + {c}) == Credit(nodes, id, done) + Times(nodes, c, id)
  {
    if nodes != [] {
      CreditStep(nodes[..|nodes| - 1], id, done, c);
      MetStep(nodes[|nodes| - 1].dependencies, done, c);
    }
  }

  lemma {:induction false} CreditNothing(nodes: seq<Node>, id: Id)
    ensures Credit(nodes, id, {}) == 0
  {
    if nodes != [] {
      CreditNothing(nodes[..|nodes| - 1], id);
      MetNothing(nodes[|nodes| - 1].dependencies);
    }
  }

  lemma {:induction false} TimesListed(nodes: seq<Node>, c: Id, id: Id)
    requires Times(nodes, c, id) > 0
    ensures id in GraphOf(nodes)
  {
    if nodes[|nodes| - 1].id != id {
      TimesListed(nodes[..|nodes| - 1], c, id);
    }
  }

  lemma TimesSnoc(nodes: seq<Node>, node: Node, c: Id, id: Id)
    ensures Times(nodes + [node], c, id) ==
            Times(nodes, c, id) + if node.id == id then multiset(node.dependencies)[c] else 0
  {
    assert (nodes + [node])[..|nodes|] == nodes;
  }

  // ----- the reverse edges -----

  function DependentsOf(dependents: map<Id, seq<Id>>, id: Id): seq<Id> {
    if id in dependents then dependents[id] else []
  }

  /** `id` appears among the dependents of `c` as often as its entries name `c`. */
  ghost predicate Mirrors(nodes: seq<Node>, dependents: map<Id, seq<Id>>, c: Id, id: Id) {
    multiset(DependentsOf(dependents, c))[id] == Times(nodes, c, id)
  }

  ghost predicate Inverse(nodes: seq<Node>, dependents: map<Id, seq<Id>>) {
    forall c, id :: Mirrors(nodes, dependents, c, id)
  }

  /** The reverse edges, one entry per entry of a dependency list. */
  method BuildDependents(nodes: seq<Node>) returns (dependents: map<Id, seq<Id>>)
    ensures Inverse(nodes, dependents)
  {
    dependents := map[];
    for i := 0 to |nodes|
      invariant Inverse(nodes[..i], dependents)
    {
      assert nodes[..i] + [nodes[i]] == nodes[..i + 1];
      dependents := AddEntry(nodes[..i], dependents, nodes[i]);
    }
    assert nodes[..|nodes|] == nodes;
  }

  /** Adds the reverse edges of one entry. */
  method AddEntry(ghost nodes: seq<Node>, dependents0: map<Id, seq<Id>>, node: Node)
    returns (dependents: map<Id, seq<Id>>)
    requires Inverse(nodes, dependents0)
    ensures Inverse(nodes + [node], dependents)
  {
    dependents := dependents0;
    var id, deps := node.id, node.dependencies;
    NoEntriesYet(nodes, dependents, id);
    assert deps[..0] == [];
    for j := 0 to |deps|
      invariant Inverse(nodes + [Node(id, deps[..j])], dependents)
    {
      var dep := deps[j];
      AddDependent(nodes, dependents, id, deps[..j], dep);
      assert deps[..j] + [dep] == deps[..j + 1];
      dependents := dependents[dep := DependentsOf(dependents, dep) + [id]];
    }
    assert deps[..|deps|] == deps && Node(id, deps) == node;
  }

  lemma NoEntriesYet(nodes: seq<Node>, dependents: map<Id, seq<Id>>, id: Id)
    requires Inverse(nodes, dependents)
    ensures Inverse(nodes + [Node(id, [])], dependents)
  {
    forall c, x
      ensures Mirrors(nodes + [Node(id, [])], dependents, c, x)
    {
      assert Mirrors(nodes, dependents, c, x);
      TimesSnoc(nodes, Node(id, []), c, x);
    }
  }

  lemma AddDependent(nodes: seq<Node>, dependents: map<Id, seq<Id>>, id: Id, deps: seq<Id>, dep: Id)
    requires Inverse(nodes + [Node(id, deps)], dependents)
    ensures Inverse(nodes + [Node(id, deps + [dep])], dependents[dep := DependentsOf(dependents, dep) + [id]])
  {
    var dependents' := dependents[dep := DependentsOf(dependents, dep) + [id]];
    forall c, x
      ensures Mirrors(nodes + [Node(id, deps + [dep])], dependents', c, x)
    {
      assert Mirrors(nodes + [Node(id, deps)], dependents, c, x);
      OneMoreTime(nodes, id, deps, dep, c, x);
      OneMoreDependent(dependents, dep, id, c, x);
    }
  }

  lemma OneMoreTime(nodes: seq<Node>, id: Id, deps: seq<Id>, dep: Id, c: Id, x: Id)
    ensures Times(nodes + [Node(id, deps + [dep])], c, x) ==
            Times(nodes + [Node(id, deps)], c, x) + if x == id && c == dep then 1 else 0
  {
    TimesSnoc(nodes, Node(id, deps), c, x);
    TimesSnoc(nodes, Node(id, deps + [dep]), c, x);
  }

  lemma OneMoreDependent(dependents: map<Id, seq<Id>>, dep: Id, id: Id, c: Id, x: Id)
    ensures multiset(DependentsOf(dependents[dep := DependentsOf(dependents, dep) + [id]], c))[x] ==
            multiset(DependentsOf(dependents, c))[x] + if x == id && c == dep then 1 else 0
  {
  }

  // ----- the work queue -----

  /** The degree table while the dependents of `current` are being served: what an id still lacks is the
      length of its last list, less all that its entries have been credited with, less what is `served`. */
  ghost predicate Degrees(nodes: seq<Node>, inDegree: map<Id, int>, done: set<Id>, served: multiset<Id>) {
    var g := GraphOf(nodes);
    inDegree.Keys == g.Keys && forall id :: id in g ==> inDegree[id] == |g[id]| - Credit(nodes, id, done) - served[id]
  }

  /** Exactly the ids that lack nothing have been queued, each once. */
  ghost predicate Queued(inDegree: map<Id, int>, seen: seq<Id>) {
    Distinct(seen) && forall id :: id in seen <==> id in inDegree && inDegree[id] <= 0
  }

  lemma NextRound(
    nodes: seq<Node>, dependents: map<Id, seq<Id>>, inDegree: map<Id, int>, done: set<Id>, current: Id)
    requires Inverse(nodes, dependents) && current !in done
    requires Degrees(nodes, inDegree, done, multiset(DependentsOf(dependents, current)))
    ensures Degrees(nodes, inDegree, done + {current}, multiset{})
  {
    var g := GraphOf(nodes);
    forall id | id in g
      ensures inDegree[id] == |g[id]| - Credit(nodes, id, done + {current})
    {
      assert Mirrors(nodes, dependents, current, id);
      CreditStep(nodes, id, done, current);
    }
  }

  /** Serves the dependents of `current`, queueing those that then lack nothing more. */
  method Serve(
    ghost nodes: seq<Node>, dependents: map<Id, seq<Id>>, current: Id, inDegree0: map<Id, int>, queue0: seq<Id>,
    ghost done: set<Id>, ghost processed: seq<Id>)
    returns (inDegree: map<Id, int>, queue: seq<Id>)
    requires Inverse(nodes, dependents) && current !in done
    requires Degrees(nodes, inDegree0, done, multiset{}) && Queued(inDegree0, processed + queue0)
    ensures Degrees(nodes, inDegree, done + {current}, multiset{}) && Queued(inDegree, processed + queue)
  {
    inDegree, queue := inDegree0, queue0;
    var served := DependentsOf(dependents, current);
    assert served[..0] == [];
    for i := 0 to |served|
      invariant Degrees(nodes, inDegree, done, multiset(served[..i])) && Queued(inDegree, processed + queue)
    {
      ServeOne(nodes, dependents, inDegree, done, current, i);
      inDegree, queue := Decrement(inDegree, queue, served[i], processed);
    }
    assert served[..|served|] == served;
    NextRound(nodes, dependents, inDegree, done, current);
  }

  method Decrement(inDegree0: map<Id, int>, queue0: seq<Id>, dep: Id, ghost processed: seq<Id>)
    returns (inDegree: map<Id, int>, queue: seq<Id>)
    requires Queued(inDegree0, processed + queue0) && dep in inDegree0
    ensures inDegree == inDegree0[dep := inDegree0[dep] - 1] && Queued(inDegree, processed + queue)
  {
    QueueOne(inDegree0, processed + queue0, dep);
    var newDegree := inDegree0[dep] - 1;
    inDegree, queue := inDegree0[dep := newDegree], queue0;
    if newDegree == 0 {
      queue := queue + [dep];
      assert processed + queue == processed + queue0 + [dep];
    }
  }

  lemma ServeOne(
    nodes: seq<Node>, dependents: map<Id, seq<Id>>, inDegree: map<Id, int>, done: set<Id>, current: Id, i: nat)
    requires Inverse(nodes, dependents) && i < |DependentsOf(dependents, current)|
    requires Degrees(nodes, inDegree, done, multiset(DependentsOf(dependents, current)[..i]))
    ensures
      var served := DependentsOf(dependents, current);
      var dep := served[i];
      dep in inDegree && Degrees(nodes, inDegree[dep := inDegree[dep] - 1], done, multiset(served[..i + 1]))
  {
    var served := DependentsOf(dependents, current);
    var dep := served[i];
    assert served[..i + 1] == served[..i] + [dep];
    assert multiset(served)[dep] > 0;
    assert Mirrors(nodes, dependents, current, dep);
    TimesListed(nodes, current, dep);
  }

  lemma QueueOne(inDegree: map<Id, int>, seen: seq<Id>, dep: Id)
    requires Queued(inDegree, seen) && dep in inDegree
    ensures
      var next := inDegree[dep := inDegree[dep] - 1];
      Queued(next, if next[dep] == 0 then seen + [dep] else seen)
  {
  }

  /** Each id comes once its entries, replaced ones included, have been credited with as many finished
      dependencies as its last entry names. */
  ghost predicate Earned(nodes: seq<Node>, order: seq<Id>) {
    forall i {:trigger EarnedAt(nodes, order, i)} :: 0 <= i < |order| ==> EarnedAt(nodes, order, i)
  }

  ghost predicate EarnedAt(nodes: seq<Node>, order: seq<Id>, i: nat)
    requires i < |order|
  {
    Suffices(nodes, order[i], ToSet(order[..i]))
  }

  ghost predicate Suffices(nodes: seq<Node>, id: Id, done: set<Id>) {
    id in GraphOf(nodes) && Credit(nodes, id, done) >= |GraphOf(nodes)[id]|
  }

  /** What the work queue emits from any list: ids that have earned their place, each once, and all of
      those that ever would. */
  ghost predicate Emitted(nodes: seq<Node>, order: seq<Id>) {
    && Distinct(order) && Earned(nodes, order)
    && forall id {:trigger Suffices(nodes, id, ToSet(order))} :: Suffices(nodes, id, ToSet(order)) ==> id in order
  }

  lemma EarnedSnoc(nodes: seq<Node>, order: seq<Id>, id: Id)
    requires Earned(nodes, order) && Suffices(nodes, id, ToSet(order))
    ensures Earned(nodes, order + [id]) && ToSet(order + [id]) == ToSet(order) + {id}
  {
    var longer := order + [id];
    forall i | 0 <= i < |longer|
      ensures EarnedAt(nodes, longer, i)
    {
      if i < |order| {
        assert EarnedAt(nodes, order, i) && longer[..i] == order[..i];
      } else {
        assert longer[..i] == order;
      }
    }
  }

  /** What a successful sort promises: no repetitions, dependencies first, and exactly the ids whose
      whole dependency closure is listed. */
  ghost predicate SortedClosure(g: Graph, order: seq<Id>) {
    && Distinct(order)
    && Topological(g, order)
    && forall id :: id in order <==> Grounded(g, id)
  }

  /** Every list is answered: with a cycle exactly if there is one, and else with all the ids that earn a
      place, which is a full sort if the last entry of each id counts. */
  method Resolve(nodes: seq<Node>) returns (r: Result<seq<Id>, seq<Id>>)
    ensures r.Err? <==> Cyclic(GraphOf(nodes))
    ensures r.Err? ==> CycleReport(GraphOf(nodes), r.error)
    ensures r.Ok? ==> Emitted(nodes, r.value)
    ensures r.Ok? && LastEntryCounts(nodes) ==> SortedClosure(GraphOf(nodes), r.value)
  {
    var cycle := DetectCycle(nodes);
    if cycle.Some? {
      return Err(cycle.value);
    }
    var dependents := BuildDependents(nodes);
    var inDegree, queue := InitialDegrees(nodes);
    var result := Drain(nodes, dependents, inDegree, queue);
    if LastEntryCounts(nodes) {
      KahnIsComplete(nodes, result);
    }
    return Ok(result);
  }

  /** The work-queue loop. */
  method Drain(
    ghost nodes: seq<Node>, dependents: map<Id, seq<Id>>, inDegree0: map<Id, int>, queue0: seq<Id>)
    returns (result: seq<Id>)
    requires Inverse(nodes, dependents)
    requires Degrees(nodes, inDegree0, {}, multiset{}) && Queued(inDegree0, queue0)
    ensures Emitted(nodes, result)
  {
    var inDegree, queue := inDegree0, queue0;
    result := [];
    assert result + queue == queue && ToSet(result) == {};
    while queue != []
      invariant Degrees(nodes, inDegree, ToSet(result), multiset{})
      invariant Queued(inDegree, result + queue) && Earned(nodes, result)
      decreases GraphOf(nodes).Keys - ToSet(result)
    {
      var current := queue[0];
      TakeFirst(nodes, inDegree, result, queue);
      ghost var done := ToSet(result);
      result, queue := result + [current], queue[1..];
      inDegree, queue := Serve(nodes, dependents, current, inDegree, queue, done, result);
    }
    assert result + queue == result;
    NothingLeft(nodes, inDegree, result);
  }

  lemma TakeFirst(nodes: seq<Node>, inDegree: map<Id, int>, result: seq<Id>, queue: seq<Id>)
    requires queue != [] && Earned(nodes, result)
    requires Degrees(nodes, inDegree, ToSet(result), multiset{})
    requires Queued(inDegree, result + queue)
    ensures queue[0] in GraphOf(nodes) && queue[0] !in ToSet(result)
    ensures Earned(nodes, result + [queue[0]])
    ensures ToSet(result + [queue[0]]) == ToSet(result) + {queue[0]}
    ensures (result + [queue[0]]) + queue[1..] == result + queue
  {
    var id := queue[0];
    assert (result + queue)[|result|] == id;
    assert id in result + queue;
    forall i | 0 <= i < |result|
      ensures result[i] != id
    {
      assert (result + queue)[i] == result[i];
    }
    EarnedSnoc(nodes, result, id);
  }

  lemma NothingLeft(nodes: seq<Node>, inDegree: map<Id, int>, result: seq<Id>)
    requires Degrees(nodes, inDegree, ToSet(result), multiset{})
    requires Queued(inDegree, result) && Earned(nodes, result)
    ensures Emitted(nodes, result)
  {
    forall id | Suffices(nodes, id, ToSet(result))
      ensures id in result
    {
      assert inDegree[id] <= 0;
    }
  }

  /** The table lists each id once, where it was first entered. */
  ghost predicate TableOrder(inDegree: map<Id, int>, order: seq<Id>) {
    Distinct(order) && ToSet(order) == inDegree.Keys
  }

  /** A repeated id keeps its place in the table and takes the number of its last entry. */
  ghost predicate Lengths(g: Graph, inDegree: map<Id, int>) {
    inDegree.Keys == g.Keys && forall id :: id in g ==> inDegree[id] == |g[id]|
  }

  method InitialDegrees(nodes: seq<Node>) returns (inDegree: map<Id, int>, queue: seq<Id>)
    ensures Degrees(nodes, inDegree, {}, multiset{}) && Queued(inDegree, queue)
  {
    inDegree := map[];
    var order := [];
    for i := 0 to |nodes|
      invariant Lengths(GraphOf(nodes[..i]), inDegree) && TableOrder(inDegree, order)
    {
      NextGraph(nodes, i);
      NextKey(inDegree, order, nodes[i].id, |nodes[i].dependencies|);
      order := if nodes[i].id in inDegree then order else order + [nodes[i].id];
      inDegree := inDegree[nodes[i].id := |nodes[i].dependencies|];
    }
    assert nodes[..|nodes|] == nodes;
    forall id | id in GraphOf(nodes)
      ensures Credit(nodes, id, {}) == 0
    {
      CreditNothing(nodes, id);
    }
    queue := CollectZeros(inDegree, order);
  }

  lemma NextGraph(nodes: seq<Node>, i: nat)
    requires i < |nodes|
    ensures GraphOf(nodes[..i + 1]) == GraphOf(nodes[..i])[nodes[i].id := nodes[i].dependencies]
  {
    assert nodes[..i + 1][..i] == nodes[..i];
  }

  lemma NextKey(inDegree: map<Id, int>, order: seq<Id>, id: Id, degree: nat)
    requires TableOrder(inDegree, order)
    ensures TableOrder(inDegree[id := degree], if id in inDegree then order else order + [id])
  {
    if id !in inDegree {
      assert id !in ToSet(order);
      assert ToSet(order + [id]) == ToSet(order) + {id};
    }
  }

  /** Queues the ids without dependencies. */
  method CollectZeros(inDegree: map<Id, int>, order: seq<Id>) returns (queue: seq<Id>)
    requires TableOrder(inDegree, order)
    requires forall id :: id in inDegree ==> inDegree[id] >= 0
    ensures Queued(inDegree, queue)
  {
    queue := [];
    for i := 0 to |order|
      invariant Distinct(queue)
      invariant forall id :: id in queue <==> id in order[..i] && id in inDegree && inDegree[id] == 0
    {
      assert order[i] in ToSet(order) && order[i] !in order[..i];
      assert order[..i + 1] == order[..i] + [order[i]];
      if inDegree[order[i]] == 0 {
        queue := queue + [order[i]];
      }
    }
    assert order[..|order|] == order;
    forall id
      ensures id in queue <==> id in inDegree && inDegree[id] <= 0
    {
      assert id in order <==> id in ToSet(order);
    }
  }

  // ----- lists in which the last entry of each id counts -----

  lemma {:induction false} CreditIsMet(nodes: seq<Node>, id: Id, done: set<Id>)
    requires LastEntryCounts(nodes)
    ensures Credit(nodes, id, done) == if id in GraphOf(nodes) then Met(GraphOf(nodes)[id], done) else 0
  {
    if nodes != [] {
      var n := |nodes| - 1;
      CreditIsMet(nodes[..n], id, done);
      if nodes[n].id == id && id in GraphOf(nodes[..n]) {
        var entry := GraphOfSource(nodes[..n], id);
        var k :| 0 <= k < n && nodes[..n][k] == entry;
        assert nodes[k] == entry;
      }
    }
  }

  /** There an id has earned its place exactly when all its dependencies are done. */
  lemma SufficesIff(nodes: seq<Node>, id: Id, done: set<Id>)
    requires LastEntryCounts(nodes) && id in GraphOf(nodes)
    ensures Suffices(nodes, id, done) <==> ToSet(GraphOf(nodes)[id]) <= done
  {
    CreditIsMet(nodes, id, done);
    MetAll(GraphOf(nodes)[id], done);
  }

  lemma EarnedIsTopological(nodes: seq<Node>, order: seq<Id>)
    requires LastEntryCounts(nodes) && Earned(nodes, order)
    ensures Topological(GraphOf(nodes), order) && ToSet(order) <= GraphOf(nodes).Keys
  {
    var g := GraphOf(nodes);
    forall i | 0 <= i < |order|
      ensures order[i] in g && ToSet(g[order[i]]) <= ToSet(order[..i])
    {
      assert EarnedAt(nodes, order, i);
      SufficesIff(nodes, order[i], ToSet(order[..i]));
    }
    forall i, d | 0 <= i < |order| && Edge(g, order[i], d)
      ensures d in order[..i]
    {
      assert d in ToSet(g[order[i]]);
    }
  }

  lemma KahnIsComplete(nodes: seq<Node>, result: seq<Id>)
    requires LastEntryCounts(nodes) && !Cyclic(GraphOf(nodes)) && Emitted(nodes, result)
    ensures SortedClosure(GraphOf(nodes), result)
  {
    var g := GraphOf(nodes);
    EarnedIsTopological(nodes, result);
    forall id | id in result
      ensures Grounded(g, id)
    {
      SortedIsGrounded(g, result, id);
    }
    ghost var left := set id | id in g && id !in result && Grounded(g, id);
    forall u {:trigger HasDepIn(g, left, u)} | u in left
      ensures HasDepIn(g, left, u)
    {
      SufficesIff(nodes, u, ToSet(result));
      var d :| d in ToSet(g[u]) && d !in ToSet(result);
      assert Edge(g, u, d);
      GroundedStep(g, u, d);
      assert d in left;
    }
    if left != {} {
      var u :| u in left;
      var cycle := EscapeFreeSetHasCycle(g, left, [u]);
    }
    forall id | Grounded(g, id)
      ensures id in result
    {
      ReachesSelf(g, id);
      assert id !in left;
    }
  }

  lemma GroundedStep(g: Graph, u: Id, d: Id)
    requires Grounded(g, u) && Edge(g, u, d)
    ensures Grounded(g, d) && d in g
  {
    forall v | Reaches(g, d, v)
      ensures v in g
    {
      ReachesStep(g, u, d, v);
    }
    ReachesSelf(g, d);
  }

  lemma SortedIsGrounded(g: Graph, order: seq<Id>, id: Id)
    requires Topological(g, order) && ToSet(order) <= g.Keys && id in order
    ensures Grounded(g, id)
  {
    forall u, v | u in ToSet(order) && Edge(g, u, v)
      ensures v in ToSet(order)
    {
      var i :| 0 <= i < |order| && order[i] == u;
      assert v in order[..i];
    }
    forall v | Reaches(g, id, v)
      ensures v in g
    {
      var walk :| Leads(g, walk, id, v);
      ClosedUnderReach(g, ToSet(order), walk);
    }
  }

  /** When every dependency is listed, the sort is a permutation of the listed ids. */
  lemma ClosedListIsSortedWhole(nodes: seq<Node>, order: seq<Id>)
    requires SortedClosure(GraphOf(nodes), order)
    requires forall n, d :: n in nodes && d in n.dependencies ==> d in Ids(nodes)
    ensures ToSet(order) == Ids(nodes)
  {
    var g := GraphOf(nodes);
    GraphOfEntries(nodes);
    forall id
      ensures id in order <==> id in Ids(nodes)
    {
      GraphOfKeys(nodes, id);
      ReachesSelf(g, id);
      if id in Ids(nodes) {
        forall v | Reaches(g, id, v)
          ensures v in g
        {
          var walk :| Leads(g, walk, id, v);
          ClosedUnderReach(g, g.Keys, walk);
        }
      }
    }
  }

  lemma GraphOfEntries(nodes: seq<Node>)
    requires forall n, d :: n in nodes && d in n.dependencies ==> d in Ids(nodes)
    ensures forall u, v :: u in GraphOf(nodes) && Edge(GraphOf(nodes), u, v) ==> v in GraphOf(nodes)
  {
    forall u, v | u in GraphOf(nodes) && Edge(GraphOf(nodes), u, v)
      ensures v in GraphOf(nodes)
    {
      var n := GraphOfSource(nodes, u);
      GraphOfKeys(nodes, v);
    }
  }

  lemma {:induction false} GraphOfSource(nodes: seq<Node>, u: Id) returns (n: Node)
    requires u in GraphOf(nodes)
    ensures n in nodes && n.id == u && n.dependencies == GraphOf(nodes)[u]
  {
    n := nodes[|nodes| - 1];
    if n.id != u {
      n := GraphOfSource(nodes[..|nodes| - 1], u);
    }
  }

  lemma EntrySnoc(nodes: seq<Node>, id: Id, deps: seq<Id>)
    ensures GraphOf(nodes + [Node(id, deps)]) == GraphOf(nodes)[id := deps]
    ensures forall x, done :: Credit(nodes + [Node(id, deps)], x, done) ==
                              Credit(nodes, x, done) + if x == id then Met(deps, done) else 0
  {
    assert (nodes + [Node(id, deps)])[..|nodes|] == nodes;
  }

  lemma MetOne(d: Id, done: set<Id>)
    ensures Met([d], done) == if d in done then 1 else 0
  {
    assert [d][..0] == [];
  }

  /** An id listed twice, first needing `x` and then `y`; `x` needs nothing and `y` an unknown `z`. */
  ghost function Replaced(a: Id, x: Id, y: Id, z: Id): seq<Node> {
    [] + [Node(a, [x])] + [Node(a, [y])] + [Node(x, [])] + [Node(y, [z])]
  }

  lemma ReplacedFacts(a: Id, x: Id, y: Id, z: Id, done: set<Id>)
    requires a != x && a != y && x != y
    ensures GraphOf(Replaced(a, x, y, z)) == map[a := [y], x := [], y := [z]]
    ensures Credit(Replaced(a, x, y, z), a, done) == Met([x], done) + Met([y], done)
    ensures Credit(Replaced(a, x, y, z), y, done) == Met([z], done)
  {
    EntrySnoc([], a, [x]);
    EntrySnoc([] + [Node(a, [x])], a, [y]);
    EntrySnoc([] + [Node(a, [x])] + [Node(a, [y])], x, []);
    EntrySnoc([] + [Node(a, [x])] + [Node(a, [y])] + [Node(x, [])], y, [z]);
  }

  /** On that list the replaced entry misleads the sort: whatever is emitted holds `a` without `y`. */
  lemma ReplacedEntryMisleads(a: Id, x: Id, y: Id, z: Id, order: seq<Id>)
    requires a != x && a != y && x != y && z !in {a, x, y}
    requires Emitted(Replaced(a, x, y, z), order)
    ensures a in order && y !in order && !Topological(GraphOf(Replaced(a, x, y, z)), order)
  {
    var nodes, done := Replaced(a, x, y, z), ToSet(order);
    ReplacedFacts(a, x, y, z, done);
    assert Suffices(nodes, x, done);
    MetOne(x, done);
    assert Suffices(nodes, a, done);
    forall k | 0 <= k < |order|
      ensures order[k] != y
    {
      YNeverComes(a, x, y, z, order, k);
    }
    var i :| 0 <= i < |order| && order[i] == a;
    assert Edge(GraphOf(nodes), a, y) && y !in order[..i];
  }

  lemma YNeverComes(a: Id, x: Id, y: Id, z: Id, order: seq<Id>, k: nat)
    requires a != x && a != y && x != y && z !in {a, x, y}
    requires Earned(Replaced(a, x, y, z), order) && k < |order|
    ensures order[k] != y
  {
    ReplacedFacts(a, x, y, z, ToSet(order[..k]));
    forall j | 0 <= j < |order|
      ensures order[j] != z
    {
      assert EarnedAt(Replaced(a, x, y, z), order, j);
    }
    assert EarnedAt(Replaced(a, x, y, z), order, k);
    MetOne(z, ToSet(order[..k]));
  }
}
