/** What loading a further plan does to a schedule: tasks that no longer wait keep their status, whatever
    becomes of what they once waited for, and a step that reuses an id starts over. */
module Reloading {
  import opened DependencyGraph
  import opened TaskQueue
  import opened ScheduleLog

  /** The dependencies that still matter: those of the tasks that wait. */
  function Rested(g: Graph, st: Statuses): Graph {
    map id | id in g :: if id in st && st[id] == Pending then g[id] else []
  }

  ghost predicate AtRest(g: Graph, st: Statuses) {
    forall id {:trigger Deps(g, id)} :: id in st && st[id] != Pending ==> Deps(g, id) == []
  }

  /** The two graphs agree on everything that waits. */
  ghost predicate Alike(live: Graph, g: Graph, st: Statuses) {
    && live.Keys == g.Keys
    && forall id {:trigger Deps(live, id)} {:trigger Deps(g, id)} ::
         id in st && st[id] == Pending ==> Deps(live, id) == Deps(g, id)
  }

  /** A run state of the graph that still matters. */
  ghost predicate Scheduled(live: Graph, g: Graph, slots: int, st: Statuses, log: Log) {
    RunState(live, slots, st, log) && Alike(live, g, st)
  }

  lemma PromoteScheduled(live: Graph, g: Graph, slots: int, st: Statuses, log: Log)
    requires Scheduled(live, g, slots, st, log)
    ensures Scheduled(live, g, slots, Promote(g, st), log)
    ensures Promote(g, st) == Promote(live, st) && Settled(live, Promote(g, st))
  {
    PromoteAlike(live, g, st);
    PromoteStep(live, slots, st, log);
    PromoteOnce(live, st);
  }

  lemma StartScheduled(live: Graph, g: Graph, slots: int, st: Statuses, log: Log, id: Id)
    requires Scheduled(live, g, slots, st, log)
    requires id in st && st[id] == Ready && Load(log) < slots
    ensures id !in StartedIn(log)
    ensures Scheduled(live, g, slots, st[id := Running], log + [Started(id)])
    ensures InFlight(log + [Started(id)]) == InFlight(log) + {id}
  {
    StartStep(live, slots, st, log, id);
  }

  lemma FailScheduled(live: Graph, g: Graph, slots: int, st: Statuses, log: Log, id: Id)
    requires Scheduled(live, g, slots, st, log) && id in InFlight(log)
    ensures id in st && st[id] == Running
    ensures Scheduled(live, g, slots, st[id := Failed], log + [Finished(id, false)])
    ensures InFlight(log + [Finished(id, false)]) == InFlight(log) - {id}
  {
    FinishStep(live, slots, st, log, id, false);
  }

  /** A successful finish is followed by a readiness pass. */
  lemma CompleteScheduled(live: Graph, g: Graph, slots: int, st: Statuses, log: Log, id: Id)
    requires Scheduled(live, g, slots, st, log) && id in InFlight(log)
    ensures id in st && st[id] == Running
    ensures Scheduled(live, g, slots, Promote(g, st[id := Completed]), log + [Finished(id, true)])
    ensures InFlight(log + [Finished(id, true)]) == InFlight(log) - {id}
  {
    FinishStep(live, slots, st, log, id, true);
    PromoteScheduled(live, g, slots, st[id := Completed], log + [Finished(id, true)]);
  }

  lemma RestedIsAlike(live: Graph, g: Graph, st: Statuses)
    requires Alike(live, g, st) && st.Keys == live.Keys
    ensures Alike(Rested(live, st), g, st)
  {
  }

  lemma ReloadIsAlike(live: Graph, g: Graph, st: Statuses, id: Id, deps: seq<Id>)
    requires Alike(live, g, st)
    ensures Alike(live[id := deps], g[id := deps], st[id := InitialStatus(deps)])
  {
    forall x | x in st && x != id && st[x] == Pending
      ensures Deps(live[id := deps], x) == Deps(g[id := deps], x)
    {
      assert Deps(live, x) == Deps(g, x);
    }
  }

  /** Then a readiness pass does the same under both. */
  lemma PromoteAlike(live: Graph, g: Graph, st: Statuses)
    requires Alike(live, g, st)
    ensures Promote(live, st) == Promote(g, st)
    ensures Alike(live, g, Promote(g, st))
  {
    forall id | id in st && st[id] == Pending
      ensures DepsCompleted(live, st, id) == DepsCompleted(g, st, id)
    {
      assert Deps(live, id) == Deps(g, id);
    }
  }

  ghost predicate NoDeps(g: Graph, ids: set<Id>) {
    forall id :: id in ids ==> id in g && g[id] == []
  }

  /** Tasks that no longer wait can do without their dependencies. */
  lemma RestStep(g: Graph, slots: int, st: Statuses, log: Log)
    requires RunState(g, slots, st, log)
    ensures RunState(Rested(g, st), slots, st, log) && AtRest(Rested(g, st), st)
  {
    var h := Rested(g, st);
    Nested(g, slots, log);
    forall id | id in StartedIn(log)
      ensures id in h && h[id] == []
    {
      FitsLog(st, log, id);
    }
    WellRunWithout(g, h, slots, log);
    forall id | id in st && Active(st[id])
      ensures DepsCompleted(h, st, id)
    {
      assert Deps(h, id) == [];
    }
  }

  lemma {:induction false} WellRunWithout(g: Graph, h: Graph, slots: int, log: Log)
    requires WellRun(g, slots, log)
    requires NoDeps(h, StartedIn(log))
    ensures WellRun(h, slots, log)
  {
    if log != [] {
      WellRunWithout(g, h, slots, log[..|log| - 1]);
    }
  }

  // ----- a step that reuses an id -----

  /** The log without the events of one task. */
  ghost function Forget(log: Log, id: Id): Log {
    if log == [] then []
    else
      var rest := Forget(log[..|log| - 1], id);
      if log[|log| - 1].id == id then rest else rest + [log[|log| - 1]]
  }

  lemma {:induction false} ForgetSets(log: Log, id: Id)
    ensures StartedIn(Forget(log, id)) == StartedIn(log) - {id}
    ensures FinishedIn(Forget(log, id)) == FinishedIn(log) - {id}
  {
    if log != [] {
      ForgetSets(log[..|log| - 1], id);
      Snoc(Forget(log[..|log| - 1], id), log[|log| - 1]);
    }
  }

  lemma {:induction false} ForgetCompleted(log: Log, id: Id, x: Id)
    ensures x in CompletedIn(Forget(log, id)) <==> x in CompletedIn(log) && x != id
  {
    if log != [] {
      ForgetCompleted(log[..|log| - 1], id, x);
      Snoc(Forget(log[..|log| - 1], id), log[|log| - 1]);
    }
  }

  lemma {:induction false} ForgetNothing(log: Log, id: Id)
    requires id !in StartedIn(log) && id !in FinishedIn(log)
    ensures Forget(log, id) == log
  {
    if log != [] {
      ForgetNothing(log[..|log| - 1], id);
      assert log == log[..|log| - 1] + [log[|log| - 1]];
    }
  }

  /** A task in flight is one less without it. */
  lemma {:induction false} ForgetLoad(g: Graph, slots: int, log: Log, id: Id)
    requires WellRun(g, slots, log)
    ensures Load(Forget(log, id)) == Load(log) - if id in InFlight(log) then 1 else 0
  {
    if log != [] {
      var front, last := log[..|log| - 1], log[|log| - 1];
      ForgetLoad(g, slots, front, id);
      Nested(g, slots, front);
      LoadSnoc(Forget(front, id), last);
    }
  }

  lemma LoadSnoc(log: Log, e: Event)
    ensures Load(log + [e]) == Load(log) + if e.Started? then 1 else -1
  {
    Snoc(log, e);
  }

  /** Without the task the rest of the log is still well-behaved, if what it started needs nothing. */
  lemma {:induction false} WellRunForget(g: Graph, slots: int, log: Log, id: Id, deps: seq<Id>)
    requires WellRun(g, slots, log)
    requires NoDeps(g, StartedIn(log))
    ensures WellRun(g[id := deps], slots, Forget(log, id))
  {
    if log != [] {
      var front, last := log[..|log| - 1], log[|log| - 1];
      WellRunForget(g, slots, front, id, deps);
      if last.id != id {
        ForgetSets(front, id);
        ForgetLoad(g, slots, front, id);
        assert last.Started? ==> Deps(g[id := deps], last.id) == Deps(g, last.id) == [];
        ExtendRun(g[id := deps], slots, Forget(front, id), last);
      }
    }
  }

  /** Adding a task under any id, used or not, while nothing is in flight: the task starts over. */
  lemma ReloadStep(g: Graph, slots: int, st: Statuses, log: Log, id: Id, deps: seq<Id>)
    requires RunState(g, slots, st, log) && AtRest(g, st) && id !in InFlight(log)
    ensures RunState(g[id := deps], slots, st[id := InitialStatus(deps)], Forget(log, id))
    ensures AtRest(g[id := deps], st[id := InitialStatus(deps)])
  {
    forall t | t in st && Active(st[t])
      ensures !Edge(g, t, id)
    {
      assert Deps(g, t) == [];
    }
    AddKeepsSupportedIff(g, st, id, deps);
    Nested(g, slots, log);
    forall x | x in StartedIn(log)
      ensures x in g && g[x] == []
    {
      FitsLog(st, log, x);
      assert Deps(g, x) == [];
    }
    WellRunForget(g, slots, log, id, deps);
    ReloadKeepsTracks(st, log, id, deps);
    StillAtRest(g, st, id, deps);
  }

  lemma StillAtRest(g: Graph, st: Statuses, id: Id, deps: seq<Id>)
    requires AtRest(g, st)
    ensures AtRest(g[id := deps], st[id := InitialStatus(deps)])
  {
    var g', st' := g[id := deps], st[id := InitialStatus(deps)];
    forall x | x in st' && st'[x] != Pending
      ensures Deps(g', x) == []
    {
      assert x != id ==> Deps(g, x) == [];
    }
  }

  lemma ReloadKeepsTracks(st: Statuses, log: Log, id: Id, deps: seq<Id>)
    requires Tracks(st, log)
    ensures Tracks(st[id := InitialStatus(deps)], Forget(log, id))
  {
    var st', log' := st[id := InitialStatus(deps)], Forget(log, id);
    ForgetSets(log, id);
    forall x | x in st'
      ensures Fits(st', StartedIn(log'), FinishedIn(log'), ToSet(CompletedIn(log')), x)
    {
      ForgetCompleted(log, id, x);
      assert x in ToSet(CompletedIn(log')) <==> x in CompletedIn(log');
      assert x in ToSet(CompletedIn(log)) <==> x in CompletedIn(log);
      if x != id {
        FitsLog(st, log, x);
      }
    }
  }
}
