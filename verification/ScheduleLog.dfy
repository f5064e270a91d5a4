/** What a schedule of task starts and finishes is allowed to look like, and what follows from it. */
module ScheduleLog {
  import opened DependencyGraph
  import opened TaskQueue

  datatype Event = Started(id: Id) | Finished(id: Id, ok: bool)

  type Log = seq<Event>

  ghost function StartedIn(log: Log): set<Id> {
    if log == [] then {}
    else
      var last := log[|log| - 1];
      StartedIn(log[..|log| - 1]) + (if last.Started? then {last.id} else {})
  }

  ghost function FinishedIn(log: Log): set<Id> {
    if log == [] then {}
    else
      var last := log[|log| - 1];
      FinishedIn(log[..|log| - 1]) + (if last.Finished? then {last.id} else {})
  }

  /** The successfully finished ids, oldest first. */
  ghost function CompletedIn(log: Log): seq<Id> {
    if log == [] then []
    else
      var last := log[|log| - 1];
      CompletedIn(log[..|log| - 1]) + (if last.Finished? && last.ok then [last.id] else [])
  }

  ghost function InFlight(log: Log): set<Id> {
    StartedIn(log) - FinishedIn(log)
  }

  /** How many more starts than finishes the log holds. */
  ghost function Load(log: Log): int {
    if log == [] then 0
    else
      Load(log[..|log| - 1]) + (if log[|log| - 1].Started? then 1 else -1)
  }

  /** The event may follow the log: a start is a first start, with a free slot and all dependencies
      completed; a finish belongs to a task in flight. */
  ghost predicate MayFollow(g: Graph, slots: int, log: Log, e: Event) {
    match e
    case Started(id) =>
      && id in g && id !in StartedIn(log)
      && Load(log) < slots
      && ToSet(Deps(g, id)) <= ToSet(CompletedIn(log))
    case Finished(id, _) =>
      id in InFlight(log)
  }

  ghost predicate WellRun(g: Graph, slots: int, log: Log) {
    log == [] ||
    (WellRun(g, slots, log[..|log| - 1]) && MayFollow(g, slots, log[..|log| - 1], log[|log| - 1]))
  }

  /** A task has the status that its start and finish account for. */
  ghost predicate Fits(st: Statuses, started: set<Id>, finished: set<Id>, completed: set<Id>, id: Id)
    requires id in st
  {
    match st[id]
    case Pending | Ready => id !in started
    case Running => id in started && id !in finished
    case Completed => id in finished && id in completed
    case Failed => id in finished && id !in completed
    case Cancelled => false
  }

  ghost predicate Accounts(st: Statuses, started: set<Id>, finished: set<Id>, completed: set<Id>) {
    && started <= st.Keys
    && forall id {:trigger Fits(st, started, finished, completed, id)} ::
         id in st ==> Fits(st, started, finished, completed, id)
  }

  ghost predicate Tracks(st: Statuses, log: Log) {
    Accounts(st, StartedIn(log), FinishedIn(log), ToSet(CompletedIn(log)))
  }

  lemma FitsLog(st: Statuses, log: Log, id: Id)
    requires Tracks(st, log) && id in st
    ensures Fits(st, StartedIn(log), FinishedIn(log), ToSet(CompletedIn(log)), id)
  {
  }

  lemma Snoc(log: Log, e: Event)
    ensures (log + [e])[..|log + [e]| - 1] == log
    ensures StartedIn(log + [e]) == if e.Started? then StartedIn(log) + {e.id} else StartedIn(log)
    ensures FinishedIn(log + [e]) == if e.Finished? then FinishedIn(log) + {e.id} else FinishedIn(log)
    ensures CompletedIn(log + [e]) == if e.Finished? && e.ok then CompletedIn(log) + [e.id] else CompletedIn(log)
  {
    assert (log + [e])[..|log + [e]| - 1] == log;
  }

  lemma {:induction false} Nested(g: Graph, slots: int, log: Log)
    requires WellRun(g, slots, log)
    ensures ToSet(CompletedIn(log)) <= FinishedIn(log) <= StartedIn(log) <= g.Keys
  {
    if log != [] {
      Nested(g, slots, log[..|log| - 1]);
    }
  }

  /** Whatever has started has all its dependencies completed, and tasks complete in an order that
      respects the dependencies. */
  lemma {:induction false} CompletionOrder(g: Graph, slots: int, log: Log)
    requires WellRun(g, slots, log)
    ensures forall id {:trigger Deps(g, id)} :: id in StartedIn(log) ==> ToSet(Deps(g, id)) <= ToSet(CompletedIn(log))
    ensures Topological(g, CompletedIn(log))
  {
    if log != [] {
      var front, last := log[..|log| - 1], log[|log| - 1];
      CompletionOrder(g, slots, front);
      var order := CompletedIn(front);
      if last.Finished? && last.ok {
        TopologicalSnoc(g, order, last.id);
      } else {
        assert CompletedIn(log) == order;
      }
    }
  }

  // ----- one step of a run -----

  /** The queue and the log agree, and both have behaved so far. */
  ghost predicate RunState(g: Graph, slots: int, st: Statuses, log: Log) {
    st.Keys == g.Keys && Supported(g, st) && WellRun(g, slots, log) && Tracks(st, log)
  }

  lemma PromoteStep(g: Graph, slots: int, st: Statuses, log: Log)
    requires RunState(g, slots, st, log)
    ensures RunState(g, slots, Promote(g, st), log)
  {
    PromoteKeepsSupported(g, st);
    forall id | id in st
      ensures Fits(Promote(g, st), StartedIn(log), FinishedIn(log), ToSet(CompletedIn(log)), id)
    {
      FitsLog(st, log, id);
    }
  }

  lemma StartStep(g: Graph, slots: int, st: Statuses, log: Log, id: Id)
    requires RunState(g, slots, st, log)
    requires id in st && st[id] == Ready && Load(log) < slots
    ensures id !in StartedIn(log)
    ensures RunState(g, slots, st[id := Running], log + [Started(id)])
    ensures InFlight(log + [Started(id)]) == InFlight(log) + {id}
  {
    Nested(g, slots, log);
    AccountStart(st, StartedIn(log), FinishedIn(log), ToSet(CompletedIn(log)), id);
    StepKeepsSupported(g, st, st[id := Running], id);
    assert DepsCompleted(g, st, id);
    forall d | d in ToSet(Deps(g, id))
      ensures d in ToSet(CompletedIn(log))
    {
      FitsLog(st, log, d);
    }
    ExtendRun(g, slots, log, Started(id));
    Snoc(log, Started(id));
  }

  lemma AccountStart(st: Statuses, started: set<Id>, finished: set<Id>, completed: set<Id>, id: Id)
    requires Accounts(st, started, finished, completed) && finished <= started
    requires id in st && st[id] == Ready
    ensures id !in started && Accounts(st[id := Running], started + {id}, finished, completed)
  {
    assert Fits(st, started, finished, completed, id);
    forall x | x in st
      ensures Fits(st[id := Running], started + {id}, finished, completed, x)
    {
      assert Fits(st, started, finished, completed, x);
    }
  }

  lemma ExtendRun(g: Graph, slots: int, log: Log, e: Event)
    requires WellRun(g, slots, log) && MayFollow(g, slots, log, e)
    ensures WellRun(g, slots, log + [e])
  {
    Snoc(log, e);
  }

  lemma FinishStep(g: Graph, slots: int, st: Statuses, log: Log, id: Id, ok: bool)
    requires RunState(g, slots, st, log)
    requires id in InFlight(log)
    ensures id in st && st[id] == Running
    ensures RunState(g, slots, st[id := if ok then Completed else Failed], log + [Finished(id, ok)])
    ensures InFlight(log + [Finished(id, ok)]) == InFlight(log) - {id}
  {
    var st' := st[id := if ok then Completed else Failed];
    Nested(g, slots, log);
    AccountFinish(st, StartedIn(log), FinishedIn(log), ToSet(CompletedIn(log)), id, ok);
    StepKeepsSupported(g, st, st', id);
    ExtendRun(g, slots, log, Finished(id, ok));
    TracksFinish(st', log, id, ok);
  }

  lemma TracksFinish(st: Statuses, log: Log, id: Id, ok: bool)
    requires Accounts(st, StartedIn(log), FinishedIn(log) + {id},
                      if ok then ToSet(CompletedIn(log)) + {id} else ToSet(CompletedIn(log)))
    ensures Tracks(st, log + [Finished(id, ok)])
    ensures InFlight(log + [Finished(id, ok)]) == InFlight(log) - {id}
  {
    Snoc(log, Finished(id, ok));
    assert ToSet(CompletedIn(log) + [id]) == ToSet(CompletedIn(log)) + {id};
  }

  lemma AccountFinish(st: Statuses, started: set<Id>, finished: set<Id>, completed: set<Id>, id: Id, ok: bool)
    requires Accounts(st, started, finished, completed) && completed <= finished
    requires id in started && id !in finished
    ensures id in st && st[id] == Running
    ensures Accounts(st[id := if ok then Completed else Failed], started, finished + {id},
                     if ok then completed + {id} else completed)
  {
    assert Fits(st, started, finished, completed, id);
    forall x | x in st
      ensures Fits(st[id := if ok then Completed else Failed], started, finished + {id},
                   if ok then completed + {id} else completed, x)
    {
      assert Fits(st, started, finished, completed, x);
    }
  }

  // ----- what holds at every moment of a well-behaved run -----

  lemma {:induction false} PrefixWellRun(g: Graph, slots: int, log: Log, k: nat)
    requires WellRun(g, slots, log) && k <= |log|
    ensures WellRun(g, slots, log[..k])
  {
    if k < |log| {
      var front := log[..|log| - 1];
      PrefixWellRun(g, slots, front, k);
      assert front[..k] == log[..k];
    } else {
      assert log[..k] == log;
    }
  }

  lemma EventFollows(g: Graph, slots: int, log: Log, k: nat)
    requires WellRun(g, slots, log) && k < |log|
    ensures WellRun(g, slots, log[..k]) && MayFollow(g, slots, log[..k], log[k])
  {
    PrefixWellRun(g, slots, log, k);
    PrefixWellRun(g, slots, log, k + 1);
    assert log[..k + 1][..k] == log[..k];
  }

  lemma {:induction false} StartedAt(log: Log, i: nat, k: nat)
    requires i < k <= |log|
    ensures log[i].Started? ==> log[i].id in StartedIn(log[..k])
    ensures log[i].Finished? ==> log[i].id in FinishedIn(log[..k])
    decreases k
  {
    assert log[..k][..k - 1] == log[..k - 1];
    if i < k - 1 {
      StartedAt(log, i, k - 1);
    }
  }

  /** No task is started twice and none finishes twice. */
  lemma AtMostOnce(g: Graph, slots: int, log: Log, i: nat, j: nat)
    requires WellRun(g, slots, log) && i < j < |log|
    ensures !(log[i].Started? && log[j].Started? && log[i].id == log[j].id)
    ensures !(log[i].Finished? && log[j].Finished? && log[i].id == log[j].id)
  {
    EventFollows(g, slots, log, j);
    StartedAt(log, i, j);
  }

  lemma {:induction false} CompletedAt(log: Log, id: Id) returns (j: nat)
    requires id in CompletedIn(log)
    ensures j < |log| && log[j] == Finished(id, true)
  {
    j := |log| - 1;
    if log[j] != Finished(id, true) {
      j := CompletedAt(log[..|log| - 1], id);
    }
  }

  /** A task starts only after every one of its dependencies has finished successfully. */
  lemma DependenciesFirst(g: Graph, slots: int, log: Log, i: nat, d: Id) returns (j: nat)
    requires WellRun(g, slots, log) && i < |log| && log[i].Started?
    requires d in Deps(g, log[i].id)
    ensures j < i && log[j] == Finished(d, true)
  {
    EventFollows(g, slots, log, i);
    assert d in ToSet(Deps(g, log[i].id)) && d in ToSet(CompletedIn(log[..i]));
    j := CompletedAt(log[..i], d);
  }

  lemma {:induction false} LoadIsInFlight(g: Graph, slots: int, log: Log)
    requires WellRun(g, slots, log)
    ensures Load(log) == |InFlight(log)|
  {
    if log != [] {
      var front, last := log[..|log| - 1], log[|log| - 1];
      LoadIsInFlight(g, slots, front);
      assert FinishedIn(front) <= StartedIn(front) by {
        Nested(g, slots, front);
      }
      OneMoreOrLess(StartedIn(front), FinishedIn(front), last.id);
    }
  }

  lemma OneMoreOrLess(started: set<Id>, finished: set<Id>, id: Id)
    ensures id !in started && finished <= started ==> |started + {id} - finished| == |started - finished| + 1
    ensures id in started - finished ==> |started - (finished + {id})| == |started - finished| - 1
  {
    if id !in started && finished <= started {
      assert started + {id} - finished == (started - finished) + {id};
    }
    if id in started - finished {
      assert started - (finished + {id}) == (started - finished) - {id};
    }
  }

  /** At no moment are more tasks in flight than there are slots. */
  lemma ConcurrencyBound(g: Graph, slots: int, log: Log, k: nat)
    requires WellRun(g, slots, log) && k <= |log| && slots >= 0
    ensures |InFlight(log[..k])| <= slots
  {
    PrefixWellRun(g, slots, log, k);
    LoadIsInFlight(g, slots, log[..k]);
    LoadBound(g, slots, log[..k]);
  }

  lemma {:induction false} LoadBound(g: Graph, slots: int, log: Log)
    requires WellRun(g, slots, log) && slots >= 0
    ensures Load(log) <= slots
  {
    if log != [] {
      LoadBound(g, slots, log[..|log| - 1]);
    }
  }

  // ----- what a finished run leaves behind -----

  /** `u` depends on `v`, directly or through other tasks. */
  ghost predicate DependsOn(g: Graph, u: Id, v: Id) {
    exists d :: Edge(g, u, d) && Reaches(g, d, v)
  }

  ghost predicate OnCycle(g: Graph, v: Id) {
    DependsOn(g, v, v)
  }

  /** A dependency that can never be satisfied, whatever the tasks do. */
  ghost predicate Unsatisfiable(g: Graph, v: Id) {
    v !in g || OnCycle(g, v)
  }

  /** The task waits, at some distance, for something that failed or can never complete. */
  ghost predicate Stuck(g: Graph, st: Statuses, id: Id) {
    exists v :: DependsOn(g, id, v) && (Unsatisfiable(g, v) || (v in st && st[v] == Failed))
  }

  /** Nothing runs, nothing is ready, and nothing can become ready. */
  ghost predicate Quiescent(g: Graph, st: Statuses) {
    && Settled(g, st)
    && forall id :: id in st ==> st[id] != Ready && st[id] != Running
  }

  lemma DependsOnStep(g: Graph, u: Id, d: Id, v: Id)
    requires Edge(g, u, d) && DependsOn(g, d, v)
    ensures DependsOn(g, u, v)
  {
    var e :| Edge(g, d, e) && Reaches(g, e, v);
    ReachesStep(g, d, e, v);
  }

  lemma CycleMembersDependOnThemselves(g: Graph, c: seq<Id>)
    requires IsClosedWalk(g, c)
    ensures OnCycle(g, c[0])
  {
    if |c| == 1 {
      ReachesSelf(g, c[0]);
    } else {
      assert Linked(g, c, 0);
      WalkSlice(g, c, 1, |c|);
      var walk := c[1..|c|] + [c[0]];
      WalkSnoc(g, c[1..|c|], c[0]);
      assert Leads(g, walk, c[1], c[0]);
      assert Edge(g, c[0], c[1]) && Reaches(g, c[1], c[0]);
    }
  }

  lemma PendingIsStuck(g: Graph, st: Statuses, log: Log, id: Id)
    requires Tracks(st, log) && st.Keys == g.Keys && Quiescent(g, st)
    requires id in st && st[id] == Pending
    ensures Stuck(g, st, id)
  {
    ghost var free := set u | u in st && st[u] == Pending && !Stuck(g, st, u);
    forall u {:trigger HasDepIn(g, free, u)} | u in free
      ensures HasDepIn(g, free, u)
    {
      assert !DepsCompleted(g, st, u);
      var d :| d in Deps(g, u) && !(d in st && st[d] == Completed);
      assert Edge(g, u, d);
      if d in st {
        FitsLog(st, log, d);
      }
      ReachesSelf(g, d);
      assert DependsOn(g, u, d);
      if Stuck(g, st, d) {
        var v :| DependsOn(g, d, v) && (Unsatisfiable(g, v) || (v in st && st[v] == Failed));
        DependsOnStep(g, u, d, v);
      }
      assert d in free;
    }
    if id in free {
      var cycle := EscapeFreeSetHasCycle(g, free, [id]);
      CycleMembersDependOnThemselves(g, cycle);
      assert cycle[0] in ToSet(cycle);
      assert Stuck(g, st, cycle[0]);
    }
  }

  lemma StartedIsNotStuck(g: Graph, st: Statuses, slots: int, log: Log, id: Id)
    requires WellRun(g, slots, log) && Tracks(st, log) && st.Keys == g.Keys
    requires id in StartedIn(log)
    ensures !Stuck(g, st, id)
  {
    Nested(g, slots, log);
    CompletionOrder(g, slots, log);
    var order := CompletedIn(log);
    var done := ToSet(order);
    forall u, v | u in done && Edge(g, u, v)
      ensures v in done
    {
      assert u in StartedIn(log) && v in ToSet(Deps(g, u));
    }
    forall d | d in Deps(g, id)
      ensures d in order
    {
      assert d in ToSet(Deps(g, id));
    }
    forall v | DependsOn(g, id, v)
      ensures v in st && st[v] == Completed && !OnCycle(g, v)
    {
      CompletedDependency(g, order, id, v);
      assert v in done;
      FitsLog(st, log, v);
      CompletedIsAcyclic(g, order, v);
    }
  }

  lemma CompletedDependency(g: Graph, order: seq<Id>, id: Id, v: Id)
    requires forall u, w :: u in ToSet(order) && Edge(g, u, w) ==> w in ToSet(order)
    requires forall d :: d in Deps(g, id) ==> d in order
    requires DependsOn(g, id, v)
    ensures v in order
  {
    var d :| Edge(g, id, d) && Reaches(g, d, v);
    var walk :| Leads(g, walk, d, v);
    ClosedUnderReach(g, ToSet(order), walk);
  }

  lemma CompletedIsAcyclic(g: Graph, order: seq<Id>, v: Id)
    requires Topological(g, order) && v in order
    ensures !OnCycle(g, v)
  {
    if OnCycle(g, v) {
      var d :| Edge(g, v, d) && Reaches(g, d, v);
      var walk :| Leads(g, walk, d, v);
      var i :| 0 <= i < |order| && order[i] == v;
      TopologicalExcludesCycle(g, order, walk, |walk| - 1, i);
    }
  }

  /** The tasks left pending are exactly the stuck ones, under every schedule. */
  lemma PendingIffStuck(g: Graph, st: Statuses, slots: int, log: Log, id: Id)
    requires WellRun(g, slots, log) && Tracks(st, log) && st.Keys == g.Keys && Quiescent(g, st)
    requires id in st
    ensures st[id] == Pending <==> Stuck(g, st, id)
    ensures st[id] == Pending || st[id] == Completed || st[id] == Failed
  {
    FitsLog(st, log, id);
    if st[id] == Pending {
      PendingIsStuck(g, st, log, id);
    } else {
      Nested(g, slots, log);
      StartedIsNotStuck(g, st, slots, log, id);
    }
  }

  // ----- plans in which nothing is doomed -----

  /** Every task's dependencies are listed and no task depends on itself. */
  ghost predicate SoundPlan(g: Graph) {
    forall id, v :: id in g && DependsOn(g, id, v) ==> !Unsatisfiable(g, v)
  }

  /** A plan is sound exactly when its dependency relation is acyclic and names only known ids. */
  lemma SoundPlanIff(g: Graph)
    ensures SoundPlan(g) <==> !Cyclic(g) && forall u, d :: u in g && Edge(g, u, d) ==> d in g
  {
    if SoundPlan(g) {
      forall u, d | u in g && Edge(g, u, d)
        ensures d in g
      {
        ReachesSelf(g, d);
        assert DependsOn(g, u, d);
      }
      forall c
        ensures !IsClosedWalk(g, c)
      {
        if IsClosedWalk(g, c) {
          CycleMembersDependOnThemselves(g, c);
        }
      }
    }
    if !Cyclic(g) && forall u, d :: u in g && Edge(g, u, d) ==> d in g {
      forall id, v | id in g && DependsOn(g, id, v)
        ensures !Unsatisfiable(g, v)
      {
        var d :| Edge(g, id, d) && Reaches(g, d, v);
        var walk :| Leads(g, walk, d, v);
        ClosedUnderReach(g, g.Keys, walk);
        if OnCycle(g, v) {
          SelfDependenceIsCycle(g, v);
        }
      }
    }
  }

  lemma SelfDependenceIsCycle(g: Graph, v: Id)
    requires OnCycle(g, v)
    ensures Cyclic(g)
  {
    var d :| Edge(g, v, d) && Reaches(g, d, v);
    var walk :| Leads(g, walk, d, v);
    assert IsClosedWalk(g, walk);
  }

  /** In a sound plan, before anything failed, nothing is stuck; in any other plan something is. */
  lemma SoundIffNoneStuck(g: Graph, st: Statuses)
    requires forall id :: id in st ==> st[id] != Failed
    ensures SoundPlan(g) <==> forall id :: id in g ==> !Stuck(g, st, id)
  {
    if !SoundPlan(g) {
      var id, v :| id in g && DependsOn(g, id, v) && Unsatisfiable(g, v);
      assert Stuck(g, st, id);
    }
  }

  /** How the first plan starts out. */
  ghost function Loaded(g: Graph): Statuses {
    map id | id in g :: InitialStatus(g[id])
  }

  lemma LoadedIsRunState(g: Graph, slots: int)
    ensures RunState(g, slots, Loaded(g), [])
  {
    var st := Loaded(g);
    forall id | id in st && Active(st[id])
      ensures DepsCompleted(g, st, id)
    {
    }
    forall id | id in st
      ensures Fits(st, {}, {}, ToSet([]), id)
    {
    }
  }
}
