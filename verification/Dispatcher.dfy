/** The dispatcher's parallel run loop. A worker is an arbitrary outcome: while the loop waits, any
    tasks in flight may finish, in any order, completed or failed. */
module Dispatcher {
  import opened Wrappers
  import opened DependencyGraph
  import opened TaskQueue
  import opened ScheduleLog
  import opened Reloading

  datatype PlanStep = PlanStep(id: Id, priority: Priority, dependencies: seq<Id>)

  datatype Outcome = StepCompleted | StepFailed

  ghost function PlanGraph(plan: seq<PlanStep>): Graph {
    if plan == [] then map[]
    else
      var last := plan[|plan| - 1];
      PlanGraph(plan[..|plan| - 1])[last.id := last.dependencies]
  }

  /** A step without dependencies starts out ready. */
  ghost function PlanStatuses(plan: seq<PlanStep>): Statuses {
    if plan == [] then map[]
    else
      var last := plan[|plan| - 1];
      PlanStatuses(plan[..|plan| - 1])[last.id := InitialStatus(last.dependencies)]
  }

  /** The log without the events of the tasks that a plan replaces. */
  ghost function ForgetPlan(log: Log, plan: seq<PlanStep>): Log {
    if plan == [] then log else Forget(ForgetPlan(log, plan[..|plan| - 1]), plan[|plan| - 1].id)
  }

  /** What loading a plan changes: the stored dependencies, those that matter, the statuses and the log. */
  datatype Loading = Loading(graph: Graph, live: Graph, statuses: Statuses, log: Log)

  ghost function AddOne(q: Loading, id: Id, deps: seq<Id>): Loading {
    Loading(q.graph[id := deps], q.live[id := deps], q.statuses[id := InitialStatus(deps)], Forget(q.log, id))
  }

  /** The steps are added one by one. */
  ghost function AddAll(q: Loading, plan: seq<PlanStep>): Loading {
    if plan == [] then q
    else
      var last := plan[|plan| - 1];
      AddOne(AddAll(q, plan[..|plan| - 1]), last.id, last.dependencies)
  }

  lemma AddAllSnoc(q: Loading, plan: seq<PlanStep>, i: nat)
    requires i < |plan|
    ensures AddAll(q, plan[..i + 1]) == AddOne(AddAll(q, plan[..i]), plan[i].id, plan[i].dependencies)
  {
    assert plan[..i + 1][..i] == plan[..i];
  }

  lemma SumSnoc<K, V>(m: map<K, V>, n: map<K, V>, k: K, v: V)
    ensures m + n[k := v] == (m + n)[k := v]
  {
  }

  /** All in all they replace what was there under their ids. */
  lemma {:induction false} AddAllIs(q: Loading, plan: seq<PlanStep>)
    ensures AddAll(q, plan) ==
            Loading(q.graph + PlanGraph(plan), q.live + PlanGraph(plan), q.statuses + PlanStatuses(plan),
                    ForgetPlan(q.log, plan))
  {
    if plan == [] {
      assert q.graph + map[] == q.graph && q.live + map[] == q.live && q.statuses + map[] == q.statuses;
    } else {
      var front, last := plan[..|plan| - 1], plan[|plan| - 1];
      AddAllIs(q, front);
      SumSnoc(q.graph, PlanGraph(front), last.id, last.dependencies);
      SumSnoc(q.live, PlanGraph(front), last.id, last.dependencies);
      SumSnoc(q.statuses, PlanStatuses(front), last.id, InitialStatus(last.dependencies));
    }
  }

  /** The outcomes of `ids` are recorded as the log has them. */
  ghost predicate Agrees(results: map<Id, Outcome>, log: Log, ids: set<Id>) {
    forall id {:trigger id in ids} ::
      id in ids ==> id in results && (results[id] == StepCompleted <==> id in ToSet(CompletedIn(log)))
  }

  /** Off `ids` the results are what they were. */
  ghost predicate KeptOff(earlier: map<Id, Outcome>, results: map<Id, Outcome>, ids: set<Id>) {
    forall id {:trigger id in ids} {:trigger id in results} ::
      id !in ids ==> (id in results <==> id in earlier) && (id in results ==> results[id] == earlier[id])
  }

  /** `running` holds the promises that have not been reaped, of which those in `settled` already have
      an outcome; everything else that finished has its result recorded, over what was there `earlier`. */
  ghost predicate Promises(
    running: set<Id>, settled: map<Id, Outcome>, earlier: map<Id, Outcome>, results: map<Id, Outcome>, log: Log)
  {
    && running == InFlight(log) + settled.Keys
    && settled.Keys <= FinishedIn(log)
    && Agrees(settled, log, settled.Keys)
    && Agrees(results, log, Reaped(settled, log))
    && KeptOff(earlier, results, Reaped(settled, log))
  }

  ghost function Reaped(settled: map<Id, Outcome>, log: Log): set<Id> {
    FinishedIn(log) - settled.Keys
  }

  lemma PromisesStart(
    running: set<Id>, settled: map<Id, Outcome>, earlier: map<Id, Outcome>, results: map<Id, Outcome>, log: Log, id: Id)
    requires Promises(running, settled, earlier, results, log) && id !in FinishedIn(log)
    ensures Promises(running + {id}, settled, earlier, results, log + [Started(id)])
  {
    Snoc(log, Started(id));
  }

  lemma PromisesFinish(
    running: set<Id>, settled: map<Id, Outcome>, earlier: map<Id, Outcome>, results: map<Id, Outcome>, log: Log,
    id: Id, outcome: Outcome)
    requires Promises(running, settled, earlier, results, log) && id in InFlight(log)
    requires id !in ToSet(CompletedIn(log))
    ensures Promises(running, settled[id := outcome], earlier, results, log + [Finished(id, outcome == StepCompleted)])
  {
    Snoc(log, Finished(id, outcome == StepCompleted));
    assert ToSet(CompletedIn(log) + [id]) == ToSet(CompletedIn(log)) + {id};
    assert settled[id := outcome].Keys == settled.Keys + {id};
    assert Reaped(settled[id := outcome], log + [Finished(id, outcome == StepCompleted)]) == Reaped(settled, log);
  }

  lemma PromisesReap(
    running: set<Id>, settled: map<Id, Outcome>, earlier: map<Id, Outcome>, results: map<Id, Outcome>, log: Log, id: Id)
    requires Promises(running, settled, earlier, results, log) && id in settled
    ensures id in running
    ensures Promises(running - {id}, settled - {id}, earlier, results[id := settled[id]], log)
  {
    assert (settled - {id}).Keys == settled.Keys - {id};
    assert Reaped(settled - {id}, log) == Reaped(settled, log) + {id};
  }

  lemma ResultsAreKnown(
    g: Graph, slots: int, log: Log, earlier: map<Id, Outcome>, results: map<Id, Outcome>)
    requires WellRun(g, slots, log) && Promises({}, map[], earlier, results, log) && earlier.Keys <= g.Keys
    ensures results.Keys <= g.Keys && Promises({}, map[], results, results, log)
  {
    Nested(g, slots, log);
    forall id | id in results
      ensures id in g
    {
      assert id in Reaped(map[], log) || id in earlier;
    }
  }

  lemma ForgetIdle(results: map<Id, Outcome>, log: Log, id: Id)
    requires Promises({}, map[], results, results, log)
    ensures Promises({}, map[], results, results, Forget(log, id))
  {
    ForgetSets(log, id);
    forall x
      ensures x in ToSet(CompletedIn(Forget(log, id))) <==> x in ToSet(CompletedIn(log)) && x != id
    {
      ForgetCompleted(log, id, x);
    }
    assert Reaped(map[], Forget(log, id)) == Reaped(map[], log) - {id};
  }

  /** Adding a task while nothing is in flight, whether or not its id was used before. */
  lemma LoadedStep(
    live: Graph, g: Graph, slots: int, st: Statuses, log: Log, results: map<Id, Outcome>, id: Id, deps: seq<Id>)
    requires Scheduled(live, g, slots, st, log) && AtRest(live, st)
    requires Promises({}, map[], results, results, log)
    ensures var st', log' := st[id := InitialStatus(deps)], Forget(log, id);
            Scheduled(live[id := deps], g[id := deps], slots, st', log') && AtRest(live[id := deps], st') &&
            Promises({}, map[], results, results, log') && InFlight(log') == {}
  {
    ReloadStep(live, slots, st, log, id, deps);
    ReloadIsAlike(live, g, st, id, deps);
    ForgetIdle(results, log, id);
  }

  class Dispatcher {
    const queue: TaskQueue
    const maxConcurrency: int
    var stepResults: map<Id, Outcome>
    var activeWorkers: set<Id>
    ghost var log: Log  // what the stored tasks went through
    ghost var live: Graph  // the dependencies that still matter: those of tasks that waited at the last load
    ghost var base: Log  // the log as of the last load
    ghost var earlier: map<Id, Outcome>  // the results as of the last load

    /** What every step of a run keeps. */
    ghost predicate Valid()
      reads this, queue, queue.tasks.Values
    {
      && queue.Valid()
      && Scheduled(live, queue.graph, maxConcurrency, queue.statuses, log)
      && activeWorkers == InFlight(log)
      && base <= log && earlier.Keys <= live.Keys
    }

    /** Between runs: nothing in flight, and every finished task has its result recorded. */
    ghost predicate Idle()
      reads this
    {
      Promises({}, map[], earlier, stepResults, log)
    }

    constructor (queue: TaskQueue, maxConcurrency: int)
      requires queue.Valid() && queue.tasks == map[]
      ensures Valid() && Idle() && this.queue == queue && this.maxConcurrency == maxConcurrency
      ensures log == [] && stepResults == map[]
    {
      this.queue, this.maxConcurrency := queue, maxConcurrency;
      stepResults, activeWorkers := map[], {};
      log, live, base, earlier := [], map[], [], map[];
    }

    /** Notes a start or a finish, which the queue knows of already, in the set of active workers. */
    method Record(e: Event)
      requires queue.Valid() && Scheduled(live, queue.graph, maxConcurrency, queue.statuses, log + [e])
      requires InFlight(log + [e]) == if e.Started? then InFlight(log) + {e.id} else InFlight(log) - {e.id}
      requires activeWorkers == InFlight(log) && base <= log && earlier.Keys <= live.Keys
      modifies this`log, this`activeWorkers
      ensures Valid() && log == old(log) + [e]
    {
      activeWorkers := if e.Started? then activeWorkers + {e.id} else activeWorkers - {e.id};
      log := log + [e];
    }

    method StartTask(id: Id)
      requires Valid() && id in queue.statuses && queue.statuses[id] == Ready
      requires Load(log) < maxConcurrency
      modifies this`log, this`activeWorkers, queue`statuses, queue.tasks.Values
      ensures Valid() && id !in old(StartedIn(log))
      ensures log == old(log) + [Started(id)]
      ensures queue.statuses == old(queue.statuses)[id := Running]
    {
      StartScheduled(live, queue.graph, maxConcurrency, queue.statuses, log, id);
      MarkStarted(id);
      Record(Started(id));
    }

    /** The end of `executeTask`: the worker delivered its outcome. */
    method FinishTask(id: Id, outcome: Outcome)
      requires Valid() && id in InFlight(log)
      modifies this`log, this`activeWorkers, queue`statuses, queue.tasks.Values
      ensures Valid()
      ensures log == old(log) + [Finished(id, outcome == StepCompleted)]
    {
      if outcome == StepCompleted {
        TaskCompleted(id);
      } else {
        TaskFailed(id);
      }
    }

    method TaskCompleted(id: Id)
      requires Valid() && id in InFlight(log)
      modifies this`log, this`activeWorkers, queue`statuses, queue.tasks.Values
      ensures Valid() && log == old(log) + [Finished(id, true)]
      ensures queue.statuses == Promote(queue.graph, old(queue.statuses)[id := Completed])
    {
      CompleteScheduled(live, queue.graph, maxConcurrency, queue.statuses, log, id);
      MarkCompleted(id);
      Record(Finished(id, true));
    }

    method TaskFailed(id: Id)
      requires Valid() && id in InFlight(log)
      modifies this`log, this`activeWorkers, queue`statuses, queue.tasks.Values
      ensures Valid() && log == old(log) + [Finished(id, false)]
      ensures queue.statuses == old(queue.statuses)[id := Failed]
    {
      FailScheduled(live, queue.graph, maxConcurrency, queue.statuses, log, id);
      MarkFailed(id);
      Record(Finished(id, false));
    }

    // The queue's part of a start and of a finish.

    method MarkStarted(id: Id)
      requires queue.Valid() && id in queue.statuses && queue.statuses[id] == Ready
      modifies queue`statuses, queue.tasks.Values
      ensures queue.Valid() && queue.statuses == old(queue.statuses)[id := Running]
    {
      var r := queue.Start(id);
    }

    method MarkCompleted(id: Id)
      requires queue.Valid() && id in queue.statuses && queue.statuses[id] == Running
      modifies queue`statuses, queue.tasks.Values
      ensures queue.Valid() && queue.statuses == Promote(queue.graph, old(queue.statuses)[id := Completed])
    {
      var r := queue.Complete(id);
    }

    method MarkFailed(id: Id)
      requires queue.Valid() && id in queue.statuses && queue.statuses[id] == Running
      modifies queue`statuses, queue.tasks.Values
      ensures queue.Valid() && queue.statuses == old(queue.statuses)[id := Failed]
    {
      var r := queue.Fail(id);
    }

    ghost function Now(): Loading
      reads this, queue
    {
      Loading(queue.graph, live, queue.statuses, log)
    }

    /** Nothing is in flight, and what no longer waits has been relieved of its dependencies. */
    ghost predicate Loadable()
      reads this, queue, queue.tasks.Values
    {
      Valid() && Idle() && AtRest(live, queue.statuses) && base == log && earlier == stepResults
    }

    /** Loads a plan; a repeated id keeps its last step, and a step that reuses the id of an earlier task
        replaces it. `createdAt` are the clock readings. */
    method LoadPlan(plan: seq<PlanStep>, createdAt: seq<int>)
      requires Valid() && Idle()
      requires |createdAt| == |plan|
      modifies queue, this`live, this`log, this`base, this`earlier
      ensures Loadable() && stepResults == old(stepResults)
      ensures queue.graph == old(queue.graph) + PlanGraph(plan)
      ensures queue.statuses == old(queue.statuses) + PlanStatuses(plan)
      ensures live == Rested(old(live), old(queue.statuses)) + PlanGraph(plan)
      ensures log == ForgetPlan(old(log), plan)
      ensures fresh(queue.tasks.Values - old(queue.tasks.Values))
    {
      Rest();
      AddAllIs(Now(), plan);
      LoadSteps(plan, createdAt);
    }

    method LoadSteps(plan: seq<PlanStep>, createdAt: seq<int>)
      requires Loadable() && |createdAt| == |plan|
      modifies queue, this`live, this`log, this`base, this`earlier
      ensures Loadable() && Now() == AddAll(old(Now()), plan)
      ensures fresh(queue.tasks.Values - old(queue.tasks.Values))
    {
      for i := 0 to |plan|
        invariant Loadable() && Now() == AddAll(old(Now()), plan[..i])
        invariant fresh(queue.tasks.Values - old(queue.tasks.Values))
      {
        AddAllSnoc(old(Now()), plan, i);
        LoadStep(plan[i], createdAt[i]);
      }
      assert plan[..|plan|] == plan;
    }

    /** Before a load the tasks that no longer wait are relieved of their dependencies; nothing real
        changes. */
    ghost method Rest()
      requires Valid() && Idle()
      modifies this`live, this`log, this`base, this`earlier
      ensures Loadable() && log == old(log) && live == Rested(old(live), queue.statuses)
    {
      RestStep(live, maxConcurrency, queue.statuses, log);
      RestedIsAlike(live, queue.graph, queue.statuses);
      ResultsAreKnown(live, maxConcurrency, log, earlier, stepResults);
      Adopt(Rested(live, queue.statuses), log);
    }

    /** From here on the schedule is read with these dependencies and this log. */
    ghost method Adopt(h: Graph, past: Log)
      requires queue.Valid() && Scheduled(h, queue.graph, maxConcurrency, queue.statuses, past)
      requires activeWorkers == InFlight(past) && stepResults.Keys <= h.Keys
      requires Promises({}, map[], stepResults, stepResults, past)
      modifies this`live, this`log, this`base, this`earlier
      ensures Valid() && Idle() && base == log && earlier == stepResults
      ensures live == h && log == past
    {
      live := h;
      log := past;
      base := past;
      earlier := stepResults;
      assert queue.Valid();
    }

    method LoadStep(step: PlanStep, createdAt: int)
      requires Loadable()
      modifies queue, this`live, this`log, this`base, this`earlier
      ensures Loadable() && Now() == AddOne(old(Now()), step.id, step.dependencies)
      ensures fresh(queue.tasks.Values - old(queue.tasks.Values))
    {
      LoadedStep(live, queue.graph, maxConcurrency, queue.statuses, log, stepResults, step.id, step.dependencies);
      Enqueue(step, createdAt);
      Adopt(live[step.id := step.dependencies], Forget(log, step.id));
    }

    method Enqueue(step: PlanStep, createdAt: int)
      requires queue.Valid()
      modifies queue
      ensures queue.Valid()
      ensures fresh(queue.tasks.Values - old(queue.tasks.Values))
      ensures queue.graph == old(queue.graph)[step.id := step.dependencies]
      ensures queue.statuses == old(queue.statuses)[step.id := InitialStatus(step.dependencies)]
    {
      var task := queue.Add(step.id, step.priority, step.dependencies, createdAt);
    }

    method HasPendingWork() returns (more: bool)
      requires queue.Valid()
      ensures !more ==> NothingToStart(live, queue.statuses)
      ensures more <==> Ready in queue.statuses.Values || Pending in queue.statuses.Values
    {
      var stats, total := queue.GetStats();
      more := stats[Ready] > 0 || stats[Pending] > 0;
      SomeWithStatus(queue.statuses, Ready);
      SomeWithStatus(queue.statuses, Pending);
    }

    /** Picks the next ready task, if any. */
    method PickNext() returns (id: Option<Id>)
      requires Valid()
      modifies queue`statuses, queue.tasks.Values
      ensures Valid()
      ensures id.Some? ==> id.value in queue.statuses && queue.statuses[id.value] == Ready
      ensures id.None? ==> NothingToStart(live, queue.statuses)
    {
      PromoteScheduled(live, queue.graph, maxConcurrency, queue.statuses, log);
      var best := queue.GetNext();
      id := if best.Some? then Some(best.value.id) else None;
    }

    /** `executeTask` up to its first suspension: the task is in flight, unless creating its worker
        failed at once. */
    method Launch(id: Id, running0: set<Id>, settled0: map<Id, Outcome>)
      returns (running: set<Id>, settled: map<Id, Outcome>)
      requires Valid() && Promises(running0, settled0, earlier, stepResults, log)
      requires id in queue.statuses && queue.statuses[id] == Ready && Load(log) < maxConcurrency
      modifies this`log, this`activeWorkers, queue`statuses, queue.tasks.Values
      ensures Valid() && Promises(running, settled, earlier, stepResults, log)
      ensures running == running0 + {id} && id !in old(StartedIn(log))
      ensures StartedIn(log) == old(StartedIn(log)) + {id}
    {
      Nested(live, maxConcurrency, log);
      StartTask(id);
      PromisesStart(running0, settled0, earlier, stepResults, old(log), id);
      Snoc(old(log), Started(id));
      running, settled := running0 + {id}, settled0;
      if * {
        Nested(live, maxConcurrency, log);
        settled := Settle(id, StepFailed, running, settled);
      }
    }

    /** A task in flight finishes. */
    method Settle(id: Id, outcome: Outcome, ghost running: set<Id>, settled0: map<Id, Outcome>)
      returns (settled: map<Id, Outcome>)
      requires Valid() && Promises(running, settled0, earlier, stepResults, log)
      requires id in InFlight(log)
      modifies this`log, this`activeWorkers, queue`statuses, queue.tasks.Values
      ensures Valid() && Promises(running, settled, earlier, stepResults, log)
      ensures settled == settled0[id := outcome] && StartedIn(log) == old(StartedIn(log))
    {
      Nested(live, maxConcurrency, log);
      PromisesFinish(running, settled0, earlier, stepResults, log, id, outcome);
      Snoc(log, Finished(id, outcome == StepCompleted));
      FinishTask(id, outcome);
      settled := settled0[id := outcome];
    }

    /** Starts the next ready task in a free slot. */
    method FillOne(running0: set<Id>, settled0: map<Id, Outcome>)
      returns (running: set<Id>, settled: map<Id, Outcome>, started: Option<Id>)
      requires Valid() && Promises(running0, settled0, earlier, stepResults, log)
      requires |running0| < maxConcurrency
      modifies this`log, this`activeWorkers, queue`statuses, queue.tasks.Values
      ensures Valid() && Promises(running, settled, earlier, stepResults, log)
      ensures started.None? ==> running == running0 && log == old(log) && NothingToStart(live, queue.statuses)
      ensures started.Some? ==>
                FirstStart(live.Keys, old(StartedIn(log)), running0, StartedIn(log), running, started.value)
    {
      ghost var started0 := StartedIn(log);
      running, settled := running0, settled0;
      started := PickNext();
      if started.Some? {
        FreeSlot(live, maxConcurrency, log, running);
        running, settled := Launch(started.value, running, settled);
        Nested(live, maxConcurrency, log);
      }
    }

    /** The loop without slots has not touched anything. */
    ghost predicate Untouched(g: Graph, st: Statuses, log0: Log, results: map<Id, Outcome>)
      reads this, queue
    {
      queue.graph == g && queue.statuses == st && log == log0 && stepResults == results
    }

    /** Fills the free slots with ready tasks. If it stops early there is nothing left to start. */
    method FillSlots(running0: set<Id>, settled0: map<Id, Outcome>)
      returns (running: set<Id>, settled: map<Id, Outcome>, done: bool)
      requires Valid() && Promises(running0, settled0, earlier, stepResults, log)
      modifies this`log, this`activeWorkers, queue`statuses, queue.tasks.Values
      ensures Valid() && Promises(running, settled, earlier, stepResults, log)
      ensures done ==> NothingToStart(live, queue.statuses)
      ensures !done ==> |running| >= maxConcurrency
      ensures running == {} && maxConcurrency >= 1 ==> done
      ensures Grown(old(StartedIn(log)), running0, StartedIn(log), running)
      ensures maxConcurrency < 1 ==>
                running == running0 && Untouched(queue.graph, old(queue.statuses), old(log), old(stepResults))
    {
      running, settled, done := running0, settled0, false;
      if maxConcurrency >= 1 {
        running, settled, done := FillUp(running, settled);
      }
    }

    /** The filling loop itself. */
    method FillUp(running0: set<Id>, settled0: map<Id, Outcome>)
      returns (running: set<Id>, settled: map<Id, Outcome>, done: bool)
      requires Valid() && Promises(running0, settled0, earlier, stepResults, log)
      modifies this`log, this`activeWorkers, queue`statuses, queue.tasks.Values
      ensures Valid() && Promises(running, settled, earlier, stepResults, log)
      ensures done ==> NothingToStart(live, queue.statuses)
      ensures !done ==> |running| >= maxConcurrency
      ensures Grown(old(StartedIn(log)), running0, StartedIn(log), running)
    {
      ghost var started0 := StartedIn(log);
      running, settled, done := running0, settled0, false;
      while |running| < maxConcurrency && !done
        invariant Valid() && Promises(running, settled, earlier, stepResults, log)
        invariant Grown(started0, running0, StartedIn(log), running)
        invariant done ==> NothingToStart(live, queue.statuses)
        decreases live.Keys - StartedIn(log), !done
      {
        ghost var before, runningBefore := StartedIn(log), running;
        var started;
        running, settled, started := FillOne(running, settled);
        done := started.None?;
        if started.Some? {
          StartGrows(
            live.Keys, started0, running0, before, runningBefore, StartedIn(log), running, started.value);
        }
      }
    }

    /** While the loop waits any tasks in flight finish, until at least one promise is settled. */
    method Wait(ghost running: set<Id>, settled0: map<Id, Outcome>) returns (settled: map<Id, Outcome>)
      requires Valid() && Promises(running, settled0, earlier, stepResults, log) && running != {}
      modifies this`log, this`activeWorkers, queue`statuses, queue.tasks.Values
      ensures Valid() && Promises(running, settled, earlier, stepResults, log)
      ensures settled != map[] && StartedIn(log) == old(StartedIn(log))
    {
      settled := settled0;
      var more := true;
      while activeWorkers != {} && (settled == map[] || more)
        invariant Valid() && Promises(running, settled, earlier, stepResults, log)
        invariant StartedIn(log) == old(StartedIn(log))
        decreases activeWorkers
      {
        var id :| id in activeWorkers;
        var outcome := *;
        more := *;
        Snoc(log, Finished(id, outcome == StepCompleted));
        settled := Settle(id, outcome, running, settled);
      }
    }

    /** Some settled promise: which of them wins the race is open. */
    method AnyOf(settled: map<Id, Outcome>) returns (winner: Id)
      requires settled != map[]
      ensures winner in settled
    {
      winner :| winner in settled;
    }

    /** Reaps one of the finished tasks: the winner of the race. */
    method Race(ghost running: set<Id>, settled0: map<Id, Outcome>) returns (winner: Id, settled: map<Id, Outcome>)
      requires Valid() && Promises(running, settled0, earlier, stepResults, log) && settled0 != map[]
      modifies this`stepResults
      ensures Valid() && Promises(running - {winner}, settled, earlier, stepResults, log)
      ensures winner in running
    {
      winner := AnyOf(settled0);
      Reap(winner, settled0[winner], running, settled0);
      settled := settled0 - {winner};
    }

    /** Waits until some task has finished and reaps it. */
    method Await(running0: set<Id>, settled0: map<Id, Outcome>)
      returns (running: set<Id>, settled: map<Id, Outcome>, winner: Option<Id>)
      requires Valid() && Promises(running0, settled0, earlier, stepResults, log) && running0 != {}
      modifies this`log, this`activeWorkers, this`stepResults, queue`statuses, queue.tasks.Values
      ensures Valid() && Promises(running, settled, earlier, stepResults, log)
      ensures winner.Some? && winner.value in running0 && running == running0 - {winner.value}
      ensures StartedIn(log) == old(StartedIn(log))
    {
      settled := Wait(running0, settled0);
      var id;
      id, settled := Race(running0, settled);
      running, winner := running0 - {id}, Some(id);
    }

    /** One round of the run loop: fill the slots, then wait for one task, unless none is in flight. */
    method Round(running0: set<Id>, settled0: map<Id, Outcome>)
      returns (running: set<Id>, settled: map<Id, Outcome>, winner: Option<Id>)
      requires Valid() && Promises(running0, settled0, earlier, stepResults, log)
      requires maxConcurrency < 1 ==> running0 == {}
      modifies this`log, this`activeWorkers, this`stepResults, queue`statuses, queue.tasks.Values
      ensures Valid() && Promises(running, settled, earlier, stepResults, log)
      ensures winner.None? ==> running == {}
      ensures winner.None? && maxConcurrency >= 1 ==> NothingToStart(live, queue.statuses)
      ensures winner.Some? ==>
                Advanced(live.Keys - old(StartedIn(log)), running0, live.Keys - StartedIn(log), running)
      ensures maxConcurrency < 1 ==>
                winner.None? && Untouched(queue.graph, old(queue.statuses), old(log), old(stepResults))
    {
      ghost var started0 := StartedIn(log);
      var done;
      running, settled, done := FillSlots(running0, settled0);
      winner := None;
      if running != {} {
        running, settled, winner := AwaitAfter(started0, running0, running, settled);
      }
    }

    /** Waiting after the slots were filled makes progress. */
    method AwaitAfter(ghost started0: set<Id>, ghost running0: set<Id>, running1: set<Id>, settled1: map<Id, Outcome>)
      returns (running: set<Id>, settled: map<Id, Outcome>, winner: Option<Id>)
      requires Valid() && Promises(running1, settled1, earlier, stepResults, log) && running1 != {}
      requires Grown(started0, running0, StartedIn(log), running1)
      modifies this`log, this`activeWorkers, this`stepResults, queue`statuses, queue.tasks.Values
      ensures Valid() && Promises(running, settled, earlier, stepResults, log) && winner.Some?
      ensures Advanced(live.Keys - started0, running0, live.Keys - StartedIn(log), running)
    {
      Nested(live, maxConcurrency, log);
      GrowthAdvances(live.Keys, started0, running0, StartedIn(log), running1);
      running, settled, winner := Await(running1, settled1);
    }

    /** Runs everything that can run; without a slot it gives up at once. */
    method RunAll() returns (results: map<Id, Outcome>)
      requires Valid() && Idle()
      modifies this`log, this`activeWorkers, this`stepResults, queue`statuses, queue.tasks.Values
      ensures Valid() && Idle() && results == stepResults
      ensures maxConcurrency >= 1 ==>
                && Quiescent(live, queue.statuses)
                && ResultsAreFinal(earlier, queue.statuses, results)
                && forall id :: id in queue.statuses ==>
                     (queue.statuses[id] == Pending <==> Stuck(live, queue.statuses, id))
      ensures maxConcurrency < 1 ==>
                Untouched(queue.graph, old(queue.statuses), old(log), old(stepResults))
    {
      ghost var settled := RunLoop();
      NothingUnreaped(settled, earlier, stepResults, log);
      if maxConcurrency >= 1 {
        LoopEnd(live, maxConcurrency, queue.statuses, log, earlier, stepResults);
      }
      results := stepResults;
    }

    method RunLoop() returns (settled: map<Id, Outcome>)
      requires Valid() && Idle()
      modifies this`log, this`activeWorkers, this`stepResults, queue`statuses, queue.tasks.Values
      ensures Valid() && Promises({}, settled, earlier, stepResults, log)
      ensures maxConcurrency >= 1 ==> NothingToStart(live, queue.statuses)
      ensures maxConcurrency < 1 ==>
                Untouched(queue.graph, old(queue.statuses), old(log), old(stepResults))
    {
      var running: set<Id> := {};
      settled := map[];
      var goOn := HasPendingWork();
      while goOn
        invariant Valid() && Promises(running, settled, earlier, stepResults, log)
        invariant !goOn ==> running == {}
        invariant !goOn && maxConcurrency >= 1 ==> NothingToStart(live, queue.statuses)
        invariant maxConcurrency < 1 ==>
                    running == {} && Untouched(queue.graph, old(queue.statuses), old(log), old(stepResults))
        decreases goOn, live.Keys - StartedIn(log), running
      {
        running, settled, goOn := Cycle(running, settled);
      }
    }

    /** The loop test. */
    method GoesOn(running: set<Id>) returns (goOn: bool)
      requires Valid()
      ensures Valid() && (!goOn ==> running == {} && NothingToStart(live, queue.statuses))
    {
      var more := HasPendingWork();
      goOn := more || running != {};
    }

    /** The loop body followed by the loop test. */
    method Cycle(running0: set<Id>, settled0: map<Id, Outcome>)
      returns (running: set<Id>, settled: map<Id, Outcome>, goOn: bool)
      requires Valid() && Promises(running0, settled0, earlier, stepResults, log)
      requires maxConcurrency < 1 ==> running0 == {}
      modifies this`log, this`activeWorkers, this`stepResults, queue`statuses, queue.tasks.Values
      ensures Valid() && Promises(running, settled, earlier, stepResults, log)
      ensures !goOn ==> running == {}
      ensures !goOn && maxConcurrency >= 1 ==> NothingToStart(live, queue.statuses)
      ensures goOn ==>
                Advanced(live.Keys - old(StartedIn(log)), running0, live.Keys - StartedIn(log), running)
      ensures maxConcurrency < 1 ==>
                !goOn && Untouched(queue.graph, old(queue.statuses), old(log), old(stepResults))
    {
      var winner;
      running, settled, winner := Round(running0, settled0);
      goOn := winner.Some?;
      if goOn {
        goOn := GoesOn(running);
      }
    }

    /** Records the result of a settled promise. */
    method Reap(id: Id, outcome: Outcome, ghost running: set<Id>, ghost settled: map<Id, Outcome>)
      requires Valid() && Promises(running, settled, earlier, stepResults, log)
      requires id in settled && settled[id] == outcome
      modifies this`stepResults
      ensures Valid() && stepResults == old(stepResults)[id := outcome]
      ensures id in running && Promises(running - {id}, settled - {id}, earlier, stepResults, log)
    {
      PromisesReap(running, settled, earlier, stepResults, log, id);
      stepResults := stepResults[id := outcome];
    }
  }

  lemma NothingUnreaped(
    settled: map<Id, Outcome>, earlier: map<Id, Outcome>, results: map<Id, Outcome>, log: Log)
    requires Promises({}, settled, earlier, results, log)
    ensures settled == map[]
  {
    assert settled.Keys == {};
  }

  /** The run loop ends: nothing runs, and nothing is left to start. */
  lemma LoopEnd(
    g: Graph, slots: int, st: Statuses, log: Log, earlier: map<Id, Outcome>, results: map<Id, Outcome>)
    requires RunState(g, slots, st, log) && Promises({}, map[], earlier, results, log) && earlier.Keys <= g.Keys
    requires NothingToStart(g, st)
    ensures Quiescent(g, st) && ResultsAreFinal(earlier, st, results)
    ensures forall id :: id in st ==> (st[id] == Pending <==> Stuck(g, st, id))
  {
    Nested(g, slots, log);
    forall id | id in st
      ensures st[id] != Running && ResultIsFinal(earlier, st, results, id)
    {
      FitsLog(st, log, id);
      assert id in Reaped(map[], log) <==> st[id] == Completed || st[id] == Failed;
    }
    ResultsAreKnown(g, slots, log, earlier, results);
    forall id | id in st
      ensures st[id] == Pending <==> Stuck(g, st, id)
    {
      PendingIffStuck(g, st, slots, log, id);
    }
  }

  /** A task that completed or failed has that as its result; any other has the result, if any, of an
      earlier task with its id. */
  ghost predicate ResultIsFinal(earlier: map<Id, Outcome>, st: Statuses, results: map<Id, Outcome>, id: Id)
    requires id in st
  {
    match st[id]
    case Completed => id in results && results[id] == StepCompleted
    case Failed => id in results && results[id] == StepFailed
    case _ => (id in results <==> id in earlier) && (id in results ==> results[id] == earlier[id])
  }

  /** So it is for all tasks, and there are no other results. */
  ghost predicate ResultsAreFinal(earlier: map<Id, Outcome>, st: Statuses, results: map<Id, Outcome>) {
    && results.Keys <= st.Keys
    && forall id {:trigger ResultIsFinal(earlier, st, results, id)} ::
         id in st ==> ResultIsFinal(earlier, st, results, id)
  }

  /** Starting tasks only adds to the started ids, and without a start nothing joins the running ones. */
  ghost predicate Grown(started0: set<Id>, running0: set<Id>, started: set<Id>, running: set<Id>) {
    started0 <= started && (started == started0 ==> running == running0)
  }

  /** The id is started for the first time and joins the running ones. */
  ghost predicate FirstStart(
    keys: set<Id>, started0: set<Id>, running0: set<Id>, started: set<Id>, running: set<Id>, id: Id)
  {
    id in keys && id !in started0 && started == started0 + {id} && running == running0 + {id}
  }

  lemma StartGrows(keys: set<Id>, started0: set<Id>, running0: set<Id>, started1: set<Id>, running1: set<Id>,
                   started2: set<Id>, running2: set<Id>, id: Id)
    requires Grown(started0, running0, started1, running1)
    requires FirstStart(keys, started1, running1, started2, running2, id)
    ensures Grown(started0, running0, started2, running2) && keys - started2 < keys - started1
  {
    assert id in keys - started1 && id !in keys - started2;
    assert started2 != started0;
  }

  /** Progress of the loop: fewer tasks are left to start, or as many and fewer are in flight. */
  ghost predicate Advanced(left0: set<Id>, running0: set<Id>, left: set<Id>, running: set<Id>) {
    left < left0 || (left == left0 && running < running0)
  }

  lemma GrowthAdvances(keys: set<Id>, started0: set<Id>, running0: set<Id>, started: set<Id>, running: set<Id>)
    requires Grown(started0, running0, started, running) && started <= keys
    ensures forall w :: w in running ==> Advanced(keys - started0, running0, keys - started, running - {w})
  {
    if started != started0 {
      var x :| x in started && x !in started0;
      assert x in keys - started0 && x !in keys - started;
    }
  }

  /** Nothing is ready and nothing can become ready. */
  ghost predicate NothingToStart(g: Graph, st: Statuses) {
    Settled(g, st) && Ready !in st.Values
  }

  lemma {:induction false} SubsetSize<T>(a: set<T>, b: set<T>)
    requires a <= b
    ensures |a| <= |b|
    decreases a
  {
    if a != {} {
      var x :| x in a;
      SubsetSize(a - {x}, b - {x});
    }
  }

  lemma SomeWithStatus(st: Statuses, s: Status)
    ensures |WithStatus(st, s)| > 0 <==> s in st.Values
  {
    if |WithStatus(st, s)| > 0 {
      var id :| id in WithStatus(st, s);
    } else {
      forall id | id in st
        ensures st[id] != s
      {
        assert id !in WithStatus(st, s);
      }
    }
  }

  lemma FreeSlot(g: Graph, slots: int, log: Log, running: set<Id>)
    requires WellRun(g, slots, log) && InFlight(log) <= running && |running| < slots
    ensures Load(log) < slots
  {
    LoadIsInFlight(g, slots, log);
    SubsetSize(InFlight(log), running);
  }
}
