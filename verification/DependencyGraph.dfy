/** The dependency relation of a finite list of nodes: walks, closed walks, and the two
    combinatorial facts that both the resolver and the scheduler rest on. */
module DependencyGraph {

  type Id = string

  /** A dependency graph: each listed id with its dependency list. */
  type Graph = map<Id, seq<Id>>

  function Deps(g: Graph, id: Id): seq<Id> {
    if id in g then g[id] else []
  }

  predicate Edge(g: Graph, u: Id, v: Id) {
    v in Deps(g, u)
  }

  predicate Linked(g: Graph, p: seq<Id>, i: nat)
    requires i + 1 < |p|
  {
    Edge(g, p[i], p[i + 1])
  }

  /** Each id of the walk depends on the next one. */
  ghost predicate IsWalk(g: Graph, p: seq<Id>) {
    |p| > 0 && forall i :: 0 <= i < |p| - 1 ==> Linked(g, p, i)
  }

  /** A walk whose last id depends on its first one. */
  ghost predicate IsClosedWalk(g: Graph, c: seq<Id>) {
    IsWalk(g, c) && Edge(g, c[|c| - 1], c[0])
  }

  ghost predicate Cyclic(g: Graph) {
    exists c :: IsClosedWalk(g, c)
  }

  ghost predicate Distinct<T>(s: seq<T>) {
    forall i, j :: 0 <= i < j < |s| ==> s[i] != s[j]
  }

  function ToSet<T>(s: seq<T>): set<T> {
    set x | x in s
  }

  /** `walk` leads from `u` to `v` along at least zero dependencies. */
  ghost predicate Leads(g: Graph, walk: seq<Id>, u: Id, v: Id) {
    IsWalk(g, walk) && walk[0] == u && walk[|walk| - 1] == v
  }

  ghost predicate Reaches(g: Graph, u: Id, v: Id) {
    exists walk :: Leads(g, walk, u, v)
  }

  lemma ReachesSelf(g: Graph, u: Id)
    ensures Reaches(g, u, u)
  {
    assert Leads(g, [u], u, u);
  }

  lemma ReachesStep(g: Graph, u: Id, v: Id, w: Id)
    requires Edge(g, u, v) && Reaches(g, v, w)
    ensures Reaches(g, u, w)
  {
    var p :| Leads(g, p, v, w);
    var q := [u] + p;
    forall i | 0 <= i < |q| - 1
      ensures Linked(g, q, i)
    {
      if i > 0 {
        assert Linked(g, p, i - 1);
      }
    }
    assert Leads(g, q, u, w);
  }

  /** In `order` every id comes after all its dependencies. */
  ghost predicate Topological(g: Graph, order: seq<Id>) {
    forall i, d :: 0 <= i < |order| && Edge(g, order[i], d) ==> d in order[..i]
  }

  lemma WalkSlice(g: Graph, p: seq<Id>, lo: nat, hi: nat)
    requires IsWalk(g, p) && lo < hi <= |p|
    ensures IsWalk(g, p[lo..hi])
  {
    var q := p[lo..hi];
    forall i | 0 <= i < |q| - 1
      ensures Linked(g, q, i)
    {
      assert Linked(g, p, lo + i);
    }
  }

  lemma WalkSnoc(g: Graph, p: seq<Id>, v: Id)
    requires IsWalk(g, p) && Edge(g, p[|p| - 1], v)
    ensures IsWalk(g, p + [v])
  {
    var q := p + [v];
    forall i | 0 <= i < |q| - 1
      ensures Linked(g, q, i)
    {
      if i < |p| - 1 {
        assert Linked(g, p, i);
      }
    }
  }

  /** An id whose dependencies are all listed may be listed next. */
  lemma TopologicalSnoc(g: Graph, order: seq<Id>, id: Id)
    requires Topological(g, order) && ToSet(Deps(g, id)) <= ToSet(order)
    ensures Topological(g, order + [id]) && ToSet(order + [id]) == ToSet(order) + {id}
  {
    var longer := order + [id];
    forall i, d | 0 <= i < |longer| && Edge(g, longer[i], d)
      ensures d in longer[..i]
    {
      assert longer[..i] == order[..i];
      if i == |order| {
        assert d in ToSet(Deps(g, id)) && order[..i] == order;
      }
    }
  }

  /** No closed walk runs through an id that a topological order lists. */
  lemma {:induction false} TopologicalExcludesCycle(g: Graph, order: seq<Id>, c: seq<Id>, k: nat, i: nat)
    requires Topological(g, order)
    requires k < |c| && i < |order| && order[i] == c[k]
    ensures !IsClosedWalk(g, c)
    decreases i
  {
    if IsClosedWalk(g, c) {
      var next := if k + 1 < |c| then k + 1 else 0;
      assert k + 1 < |c| ==> Linked(g, c, k);
      assert Edge(g, order[i], c[next]);
      var j :| 0 <= j < i && order[j] == c[next];
      TopologicalExcludesCycle(g, order, c, next, j);
    }
  }

  ghost predicate HasDepIn(g: Graph, s: set<Id>, u: Id) {
    exists v :: v in s && Edge(g, u, v)
  }

  /** A finite set in which every id has a dependency inside the set contains a cycle: extending a
      duplicate-free walk must run back into it. */
  lemma {:induction false} EscapeFreeSetHasCycle(g: Graph, s: set<Id>, path: seq<Id>) returns (cycle: seq<Id>)
    requires forall u {:trigger HasDepIn(g, s, u)} :: u in s ==> HasDepIn(g, s, u)
    requires IsWalk(g, path) && Distinct(path) && ToSet(path) <= s
    ensures IsClosedWalk(g, cycle) && ToSet(cycle) <= s
    ensures Reaches(g, path[|path| - 1], cycle[0])
    decreases s - ToSet(path)
  {
    var last := path[|path| - 1];
    assert last in ToSet(path) && HasDepIn(g, s, last);
    var v :| v in s && Edge(g, last, v);
    if v in path {
      var i :| 0 <= i < |path| && path[i] == v;
      cycle := path[i..];
      assert cycle == path[i..|path|];
      WalkSlice(g, path, i, |path|);
      ReachesSelf(g, v);
      ReachesStep(g, last, v, v);
    } else {
      var longer := path + [v];
      assert v in ToSet(longer) && v !in ToSet(path) && ToSet(longer) == ToSet(path) + {v};
      WalkSnoc(g, path, v);
      cycle := EscapeFreeSetHasCycle(g, s, longer);
      ReachesStep(g, last, v, cycle[0]);
    }
  }

  /** Whatever is closed under taking dependencies contains everything its members reach. */
  lemma {:induction false} ClosedUnderReach(g: Graph, s: set<Id>, walk: seq<Id>)
    requires forall u, v :: u in s && Edge(g, u, v) ==> v in s
    requires IsWalk(g, walk) && walk[0] in s
    ensures walk[|walk| - 1] in s
    decreases |walk|
  {
    if |walk| > 1 {
      WalkSlice(g, walk, 1, |walk|);
      var rest := walk[1..];
      assert rest == walk[1..|walk|];
      assert Linked(g, walk, 0);
      ClosedUnderReach(g, s, rest);
    }
  }
}
