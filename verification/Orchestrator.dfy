/** Executing one plan after another on one dispatcher, and what the reported success is worth. */
module Orchestrator {
  import opened Wrappers
  import opened DependencyGraph
  import opened TaskQueue
  import opened ScheduleLog
  import opened Reloading
  import opened Dispatcher

  /** The success test: it looks at all results the dispatcher has. */
  predicate Success(results: map<Id, Outcome>) {
    forall id :: id in results ==> results[id] == StepCompleted
  }

  ghost predicate AllDone(st: Statuses, plan: set<Id>) {
    forall id :: id in plan ==> id in st && st[id] == Completed
  }

  /** A finished run that went on from `log0`, with the results that were there `earlier`. */
  ghost predicate Finishes(
    g: Graph, slots: int, log0: Log, earlier: map<Id, Outcome>, st: Statuses, log: Log, results: map<Id, Outcome>)
  {
    RunState(g, slots, st, log) && log0 <= log && Quiescent(g, st) && ResultsAreFinal(earlier, st, results)
  }

  /** In every such run, under every schedule and whatever fails, the test says whether the steps of
      `plan` completed. */
  ghost predicate AlwaysTruthful(g: Graph, slots: int, log0: Log, earlier: map<Id, Outcome>, plan: set<Id>) {
    forall st: Statuses, log: Log, results: map<Id, Outcome>
      {:trigger Finishes(g, slots, log0, earlier, st, log, results)} ::
      Finishes(g, slots, log0, earlier, st, log, results) ==> (Success(results) <==> AllDone(st, plan))
  }

  predicate Waits(st: Statuses, id: Id) {
    id in st && (st[id] == Pending || st[id] == Ready)
  }

  /** A task with a failure that no run can replace any more: its own, or that of an earlier task with
      its id that it cannot come to repeat. */
  ghost predicate Blames(g: Graph, st: Statuses, earlier: map<Id, Outcome>, id: Id) {
    id in st && (st[id] == Failed || (id in earlier && earlier[id] == StepFailed && Stuck(g, st, id)))
  }

  ghost predicate Blamed(g: Graph, st: Statuses, earlier: map<Id, Outcome>) {
    exists id :: Blames(g, st, earlier, id)
  }

  /** Some step of the plan is stuck from the start. */
  ghost predicate Hopeless(g: Graph, st: Statuses, plan: set<Id>) {
    exists id :: id in plan && Stuck(g, st, id)
  }

  /** A task of an earlier plan that this run will start although no step of the plan needs it. */
  ghost predicate Bystander(g: Graph, st: Statuses, plan: set<Id>, id: Id) {
    Waits(st, id) && id !in plan && !Stuck(g, st, id) && forall x :: x in plan ==> !DependsOn(g, x, id)
  }

  /** When the test can be trusted: either something is to blame already and the plan cannot complete
      anyway, or nothing is, no step is stuck and no bystander can fail. */
  ghost predicate Trustworthy(g: Graph, st: Statuses, earlier: map<Id, Outcome>, plan: set<Id>) {
    && (Blamed(g, st, earlier) <==> Hopeless(g, st, plan))
    && (Blamed(g, st, earlier) || forall id :: !Bystander(g, st, plan, id))
  }

  // ----- what a continuation keeps -----

  lemma {:induction false} FinishedOnce(g: Graph, slots: int, log0: Log, log: Log, id: Id)
    requires WellRun(g, slots, log) && log0 <= log && id in FinishedIn(log0)
    ensures id in FinishedIn(log) && (id in CompletedIn(log) <==> id in CompletedIn(log0))
  {
    if |log0| < |log| {
      FinishedOnce(g, slots, log0, log[..|log| - 1], id);
    } else {
      assert log == log0;
    }
  }

  /** A task that ended keeps its status. */
  lemma EndedStays(g: Graph, slots: int, st0: Statuses, log0: Log, st: Statuses, log: Log, id: Id)
    requires RunState(g, slots, st0, log0) && RunState(g, slots, st, log) && log0 <= log
    requires id in st0 && (st0[id] == Completed || st0[id] == Failed)
    ensures id in st && st[id] == st0[id]
  {
    FitsLog(st0, log0, id);
    FitsLog(st, log, id);
    Nested(g, slots, log);
    FinishedOnce(g, slots, log0, log, id);
    assert id in ToSet(CompletedIn(log)) <==> id in CompletedIn(log);
    assert id in ToSet(CompletedIn(log0)) <==> id in CompletedIn(log0);
  }

  /** What is stuck stays stuck. */
  lemma StuckStays(g: Graph, slots: int, st0: Statuses, log0: Log, st: Statuses, log: Log, id: Id)
    requires RunState(g, slots, st0, log0) && RunState(g, slots, st, log) && log0 <= log
    requires Stuck(g, st0, id)
    ensures Stuck(g, st, id)
  {
    var v :| DependsOn(g, id, v) && (Unsatisfiable(g, v) || (v in st0 && st0[v] == Failed));
    if !Unsatisfiable(g, v) {
      EndedStays(g, slots, st0, log0, st, log, v);
    }
  }

  /** In a finished run a task is completed, failed or stuck. */
  lemma EndsSomehow(g: Graph, slots: int, st: Statuses, log: Log, id: Id)
    requires RunState(g, slots, st, log) && Quiescent(g, st) && id in st
    ensures st[id] == Completed || st[id] == Failed || (st[id] == Pending && Stuck(g, st, id))
    ensures Stuck(g, st, id) ==> st[id] == Pending
  {
    PendingIffStuck(g, st, slots, log, id);
  }

  // ----- runs in which chosen tasks fail -----

  /** Only tasks among `bad`, or that had failed before, have failed, and those among `bad` that had not
      completed before have not completed. */
  ghost predicate FailOnly(st0: Statuses, st: Statuses, bad: set<Id>, id: Id) {
    && (id in st && st[id] == Failed ==> id in bad || (id in st0 && st0[id] == Failed))
    && (id in st && st[id] == Completed && id in bad ==> id in st0 && st0[id] == Completed)
  }

  ghost predicate OnlyFail(st0: Statuses, st: Statuses, bad: set<Id>) {
    forall id {:trigger FailOnly(st0, st, bad, id)} :: FailOnly(st0, st, bad, id)
  }

  lemma OnlyFailTransitive(st0: Statuses, st1: Statuses, st2: Statuses, bad: set<Id>)
    requires OnlyFail(st0, st1, bad) && OnlyFail(st1, st2, bad)
    ensures OnlyFail(st0, st2, bad)
  {
    forall id
      ensures FailOnly(st0, st2, bad, id)
    {
      assert FailOnly(st0, st1, bad, id) && FailOnly(st1, st2, bad, id);
    }
  }

  lemma OneOnlyFails(st: Statuses, id: Id, bad: set<Id>)
    requires id in st && st[id] == Ready
    ensures OnlyFail(st, st[id := Running][id := if id in bad then Failed else Completed], bad)
  {
    var st' := st[id := Running][id := if id in bad then Failed else Completed];
    forall x
      ensures FailOnly(st, st', bad, x)
    {
    }
  }

  /** One task starts and finishes. */
  lemma RunOne(g: Graph, slots: int, st: Statuses, log: Log, id: Id, ok: bool)
    requires RunState(g, slots, st, log) && slots >= 1 && InFlight(log) == {}
    requires id in st && st[id] == Ready
    ensures
      var log' := log + [Started(id)] + [Finished(id, ok)];
      && RunState(g, slots, st[id := Running][id := if ok then Completed else Failed], log')
      && InFlight(log') == {}
      && id !in StartedIn(log) && StartedIn(log') == StartedIn(log) + {id}
  {
    LoadIsInFlight(g, slots, log);
    StartStep(g, slots, st, log, id);
    Snoc(log, Started(id));
    FinishStep(g, slots, st[id := Running], log + [Started(id)], id, ok);
    Snoc(log + [Started(id)], Finished(id, ok));
  }

  /** Running one task after the other from any quiet state leads to a finished run. */
  lemma {:induction false} RunOn(g: Graph, slots: int, st: Statuses, log: Log, bad: set<Id>)
    returns (st': Statuses, log': Log)
    requires RunState(g, slots, st, log) && slots >= 1 && InFlight(log) == {}
    ensures RunState(g, slots, st', log') && Quiescent(g, st') && log <= log' && OnlyFail(st, st', bad)
    decreases g.Keys - StartedIn(log)
  {
    PromoteStep(g, slots, st, log);
    PromoteOnce(g, st);
    var now := Promote(g, st);
    assert OnlyFail(st, now, bad);
    if id :| id in now && now[id] == Ready {
      RunOne(g, slots, now, log, id, id !in bad);
      var st1 := now[id := Running][id := if id in bad then Failed else Completed];
      var log1 := log + [Started(id)] + [Finished(id, id !in bad)];
      OneOnlyFails(now, id, bad);
      st', log' := RunOn(g, slots, st1, log1, bad);
      OnlyFailTransitive(st, now, st1, bad);
      OnlyFailTransitive(st, st1, st', bad);
    } else {
      st', log' := now, log;
      forall id | id in now
        ensures now[id] != Running
      {
        FitsLog(now, log, id);
      }
    }
  }

  /** The results of a finished run, read off the statuses. */
  ghost function FinalResults(earlier: map<Id, Outcome>, st: Statuses): map<Id, Outcome> {
    map id | id in st && (st[id] == Completed || st[id] == Failed || id in earlier) ::
      if st[id] == Completed then StepCompleted else if st[id] == Failed then StepFailed else earlier[id]
  }

  lemma FinalResultsAreFinal(earlier: map<Id, Outcome>, st: Statuses)
    ensures ResultsAreFinal(earlier, st, FinalResults(earlier, st))
  {
    forall id | id in st
      ensures ResultIsFinal(earlier, st, FinalResults(earlier, st), id)
    {
    }
  }

  /** Once something is to blame, no later run is a success. */
  lemma BlameStays(
    g: Graph, slots: int, st0: Statuses, log0: Log, earlier: map<Id, Outcome>,
    st: Statuses, log: Log, results: map<Id, Outcome>)
    requires RunState(g, slots, st0, log0) && Blamed(g, st0, earlier)
    requires Finishes(g, slots, log0, earlier, st, log, results)
    ensures !Success(results)
  {
    var id :| Blames(g, st0, earlier, id);
    assert ResultIsFinal(earlier, st, results, id);
    if st0[id] == Failed {
      EndedStays(g, slots, st0, log0, st, log, id);
    } else {
      StuckStays(g, slots, st0, log0, st, log, id);
      EndsSomehow(g, slots, st, log, id);
    }
    assert id in results && results[id] == StepFailed;
  }

  ghost predicate NoneFailed(st: Statuses) {
    forall id :: id in st ==> st[id] != Failed
  }

  /** Without a failure the stuck tasks are those stuck from the start. */
  lemma StuckFromStart(g: Graph, st0: Statuses, st: Statuses, id: Id)
    requires NoneFailed(st) && Stuck(g, st, id)
    ensures Stuck(g, st0, id)
  {
  }

  /** If nothing was to blame, a run is a success exactly if nothing failed in it. */
  lemma SuccessIff(
    g: Graph, slots: int, st0: Statuses, log0: Log, earlier: map<Id, Outcome>,
    st: Statuses, log: Log, results: map<Id, Outcome>)
    requires RunState(g, slots, st0, log0) && !Blamed(g, st0, earlier)
    requires Finishes(g, slots, log0, earlier, st, log, results)
    ensures Success(results) <==> NoneFailed(st)
  {
    if id :| id in st && st[id] == Failed {
      assert ResultIsFinal(earlier, st, results, id);
      assert results[id] == StepFailed;
    } else {
      forall id | id in results
        ensures results[id] == StepCompleted
      {
        assert ResultIsFinal(earlier, st, results, id);
        EndsSomehow(g, slots, st, log, id);
        if st[id] == Pending {
          StuckFromStart(g, st0, st, id);
          assert !Blames(g, st0, earlier, id);
        }
      }
    }
  }

  /** The steps of a plan just loaded on a dispatcher with nothing in flight. */
  ghost predicate Fresh(g: Graph, slots: int, st0: Statuses, log0: Log, plan: set<Id>) {
    && slots >= 1 && RunState(g, slots, st0, log0) && InFlight(log0) == {}
    && forall id :: id in plan ==> Waits(st0, id)
  }

  /** If nothing is to blame and nothing stuck, and no bystander can fail, the plan completes exactly in
      the runs without a failure. */
  lemma DoneIff(g: Graph, slots: int, st0: Statuses, log0: Log, plan: set<Id>, st: Statuses, log: Log)
    requires Fresh(g, slots, st0, log0, plan) && NoneFailed(st0) && !Hopeless(g, st0, plan)
    requires forall id :: !Bystander(g, st0, plan, id)
    requires RunState(g, slots, st, log) && log0 <= log && Quiescent(g, st)
    ensures AllDone(st, plan) <==> NoneFailed(st)
  {
    if NoneFailed(st) {
      forall id | id in plan
        ensures st[id] == Completed
      {
        EndsSomehow(g, slots, st, log, id);
        if st[id] == Pending {
          StuckFromStart(g, st0, st, id);
        }
      }
    } else if AllDone(st, plan) {
      var f :| f in st && st[f] == Failed;
      FailedIsNeeded(g, slots, st0, log0, plan, st, log, f);
      var x :| x in plan && DependsOn(g, x, f);
      assert Stuck(g, st, x);
      EndsSomehow(g, slots, st, log, x);
    }
  }

  /** Then a task that fails, and is no step of the plan, is one that a step needs. */
  lemma FailedIsNeeded(
    g: Graph, slots: int, st0: Statuses, log0: Log, plan: set<Id>, st: Statuses, log: Log, f: Id)
    requires Fresh(g, slots, st0, log0, plan) && NoneFailed(st0)
    requires forall id :: !Bystander(g, st0, plan, id)
    requires RunState(g, slots, st, log) && log0 <= log && Quiescent(g, st)
    requires f in st && st[f] == Failed && f !in plan
    ensures exists x :: x in plan && DependsOn(g, x, f)
  {
    if st0[f] == Completed {
      EndedStays(g, slots, st0, log0, st, log, f);
    }
    FitsLog(st0, log0, f);
    if Stuck(g, st0, f) {
      StuckStays(g, slots, st0, log0, st, log, f);
      EndsSomehow(g, slots, st, log, f);
    }
    assert !Bystander(g, st0, plan, f);
  }

  // ----- exactly when the test can be trusted -----

  /** After any earlier plans, finished or stuck, under whatever ids: the success test says in every run
      whether the plan's steps completed if and only if, as the plan is loaded, a failure that stays is
      recorded exactly if some step is stuck, and otherwise no earlier task can run that no step needs. */
  lemma SuccessIsExactIff(
    g: Graph, slots: int, st0: Statuses, log0: Log, earlier: map<Id, Outcome>, plan: set<Id>)
    requires Fresh(g, slots, st0, log0, plan)
    ensures AlwaysTruthful(g, slots, log0, earlier, plan) <==> Trustworthy(g, st0, earlier, plan)
  {
    if Trustworthy(g, st0, earlier, plan) {
      forall st: Statuses, log: Log, results: map<Id, Outcome>
        {:trigger Finishes(g, slots, log0, earlier, st, log, results)} |
        Finishes(g, slots, log0, earlier, st, log, results)
        ensures Success(results) <==> AllDone(st, plan)
      {
        TrustworthyIsTruthful(g, slots, st0, log0, earlier, plan, st, log, results);
      }
    } else {
      var st, log, results := LyingRun(g, slots, st0, log0, earlier, plan);
    }
  }

  lemma TrustworthyIsTruthful(
    g: Graph, slots: int, st0: Statuses, log0: Log, earlier: map<Id, Outcome>, plan: set<Id>,
    st: Statuses, log: Log, results: map<Id, Outcome>)
    requires Fresh(g, slots, st0, log0, plan) && Trustworthy(g, st0, earlier, plan)
    requires Finishes(g, slots, log0, earlier, st, log, results)
    ensures Success(results) <==> AllDone(st, plan)
  {
    if Blamed(g, st0, earlier) {
      BlameStays(g, slots, st0, log0, earlier, st, log, results);
      var id :| id in plan && Stuck(g, st0, id);
      StuckStays(g, slots, st0, log0, st, log, id);
      EndsSomehow(g, slots, st, log, id);
    } else {
      assert forall id :: id in st0 ==> !Blames(g, st0, earlier, id);
      SuccessIff(g, slots, st0, log0, earlier, st, log, results);
      DoneIff(g, slots, st0, log0, plan, st, log);
    }
  }

  /** Wherever it cannot be trusted, there is a run on which the test is wrong. */
  lemma LyingRun(g: Graph, slots: int, st0: Statuses, log0: Log, earlier: map<Id, Outcome>, plan: set<Id>)
    returns (st: Statuses, log: Log, results: map<Id, Outcome>)
    requires Fresh(g, slots, st0, log0, plan) && !Trustworthy(g, st0, earlier, plan)
    ensures Finishes(g, slots, log0, earlier, st, log, results)
    ensures Success(results) <==> !AllDone(st, plan)
  {
    if Blamed(g, st0, earlier) <==> Hopeless(g, st0, plan) {
      var q :| Bystander(g, st0, plan, q);
      st, log, results := BystanderFails(g, slots, st0, log0, earlier, plan, q);
    } else {
      st, log := RunOn(g, slots, st0, log0, {});
      results := FinalResults(earlier, st);
      FinalResultsAreFinal(earlier, st);
      SmoothRun(g, slots, st0, log0, plan, st, log);
      if Blamed(g, st0, earlier) {
        BlameStays(g, slots, st0, log0, earlier, st, log, results);
      } else {
        SuccessIff(g, slots, st0, log0, earlier, st, log, results);
        SmoothIsFailureFree(g, st0, earlier, st);
      }
    }
  }

  /** If nothing new fails the plan completes unless it is stuck from the start. */
  lemma SmoothRun(g: Graph, slots: int, st0: Statuses, log0: Log, plan: set<Id>, st: Statuses, log: Log)
    requires Fresh(g, slots, st0, log0, plan) && OnlyFail(st0, st, {})
    requires RunState(g, slots, st, log) && log0 <= log && Quiescent(g, st)
    ensures AllDone(st, plan) <==> !Hopeless(g, st0, plan)
  {
    forall id | id in plan
      ensures id in st && (st[id] == Completed <==> !Stuck(g, st0, id))
    {
      EndsSomehow(g, slots, st, log, id);
      assert FailOnly(st0, st, {}, id);
      StuckAsBefore(g, slots, st0, log0, st, log, {}, id);
    }
  }

  lemma SmoothIsFailureFree(g: Graph, st0: Statuses, earlier: map<Id, Outcome>, st: Statuses)
    requires !Blamed(g, st0, earlier) && OnlyFail(st0, st, {})
    ensures NoneFailed(st)
  {
    forall id | id in st
      ensures st[id] != Failed
    {
      assert FailOnly(st0, st, {}, id) && !Blames(g, st0, earlier, id);
    }
  }

  /** A task that depends on none of the tasks made to fail is stuck exactly if it was. */
  lemma StuckAsBefore(
    g: Graph, slots: int, st0: Statuses, log0: Log, st: Statuses, log: Log, bad: set<Id>, id: Id)
    requires RunState(g, slots, st0, log0) && RunState(g, slots, st, log) && log0 <= log
    requires OnlyFail(st0, st, bad) && forall b :: b in bad ==> !DependsOn(g, id, b)
    ensures Stuck(g, st, id) <==> Stuck(g, st0, id)
  {
    if Stuck(g, st0, id) {
      StuckStays(g, slots, st0, log0, st, log, id);
    }
    if Stuck(g, st, id) {
      var v :| DependsOn(g, id, v) && (Unsatisfiable(g, v) || (v in st && st[v] == Failed));
      assert FailOnly(st0, st, bad, v);
    }
  }

  /** A bystander that fails spoils the results of a plan that completes. */
  lemma BystanderFails(
    g: Graph, slots: int, st0: Statuses, log0: Log, earlier: map<Id, Outcome>, plan: set<Id>, q: Id)
    returns (st: Statuses, log: Log, results: map<Id, Outcome>)
    requires Fresh(g, slots, st0, log0, plan) && !Hopeless(g, st0, plan)
    requires Bystander(g, st0, plan, q)
    ensures Finishes(g, slots, log0, earlier, st, log, results)
    ensures !Success(results) && AllDone(st, plan)
  {
    st, log := RunOn(g, slots, st0, log0, {q});
    results := FinalResults(earlier, st);
    FinalResultsAreFinal(earlier, st);
    NotOnCycle(g, st0, q);
    StuckAsBefore(g, slots, st0, log0, st, log, {q}, q);
    EndsSomehow(g, slots, st, log, q);
    assert FailOnly(st0, st, {q}, q);
    assert results[q] == StepFailed;
    forall id | id in plan
      ensures st[id] == Completed
    {
      StuckAsBefore(g, slots, st0, log0, st, log, {q}, id);
      EndsSomehow(g, slots, st, log, id);
      assert FailOnly(st0, st, {q}, id);
    }
  }

  lemma NotOnCycle(g: Graph, st: Statuses, id: Id)
    requires !Stuck(g, st, id)
    ensures !DependsOn(g, id, id)
  {
    if DependsOn(g, id, id) {
      assert OnCycle(g, id);
    }
  }

  // ----- the first plan, and a second one -----

  /** For the first plan of a dispatcher: the test can be trusted if and only if the plan is acyclic and
      names only known ids. */
  lemma FirstPlanIff(g: Graph, slots: int)
    requires slots >= 1
    ensures Fresh(g, slots, Loaded(g), [], g.Keys)
    ensures AlwaysTruthful(g, slots, [], map[], g.Keys) <==>
            !Cyclic(g) && forall u, d :: u in g && Edge(g, u, d) ==> d in g
  {
    LoadedIsRunState(g, slots);
    SoundPlanIff(g);
    SoundIffNoneStuck(g, Loaded(g));
    SuccessIsExactIff(g, slots, Loaded(g), [], map[], g.Keys);
    assert forall id :: !Blames(g, Loaded(g), map[], id) && !Bystander(g, Loaded(g), g.Keys, id);
  }

  /** If all earlier tasks have ended and no failed one is replaced: the test can be trusted if and only if
      some earlier task failed exactly if some step is stuck. */
  lemma LaterPlanIff(g: Graph, slots: int, st0: Statuses, log0: Log, earlier: map<Id, Outcome>, plan: set<Id>)
    requires Fresh(g, slots, st0, log0, plan)
    requires forall id :: Waits(st0, id) ==>
               id in plan && (id in earlier ==> earlier[id] == StepCompleted)
    ensures AlwaysTruthful(g, slots, log0, earlier, plan) <==>
            ((exists id :: id in st0 && st0[id] == Failed) <==> (exists id :: id in plan && Stuck(g, st0, id)))
  {
    SuccessIsExactIff(g, slots, st0, log0, earlier, plan);
    Nested(g, slots, log0);
    forall id
      ensures Blames(g, st0, earlier, id) <==> id in st0 && st0[id] == Failed
      ensures !Bystander(g, st0, plan, id)
    {
      if id in st0 && !Waits(st0, id) {
        FitsLog(st0, log0, id);
        StartedIsNotStuck(g, st0, slots, log0, id);
      }
    }
    if id :| id in st0 && st0[id] == Failed {
      assert Blames(g, st0, earlier, id);
    }
  }

  /** The one-step plan whose step depends on itself: no step runs, and the test says success. */
  lemma SelfDependentPlan(slots: int, a: Id)
    ensures
      var g, st: Statuses := map[a := [a]], map[a := Pending];
      Loaded(g) == st && Finishes(g, slots, [], map[], st, [], map[]) && Success(map[]) && !AllDone(st, {a})
  {
    var g, st: Statuses := map[a := [a]], map[a := Pending];
    LoadedIsRunState(g, slots);
    assert a in Deps(g, a);
    assert !DepsCompleted(g, st, a);
  }

  /** A plan `[a]` that failed, then a plan `[b]` that completes: the test says failure. */
  lemma SecondPlan(slots: int, a: Id, b: Id)
    requires slots >= 1 && a != b
    ensures
      var g := map[a := [], b := []];
      var log0 := [Started(a)] + [Finished(a, false)];
      var st, log := map[a := Failed, b := Completed], log0 + [Started(b)] + [Finished(b, true)];
      var results := map[a := StepFailed, b := StepCompleted];
      && Fresh(g, slots, map[a := Failed, b := Ready], log0, {b})
      && Finishes(g, slots, log0, map[a := StepFailed], st, log, results)
      && !Success(results) && AllDone(st, {b})
  {
    var log0 := [Started(a)] + [Finished(a, false)];
    FirstFailed(slots, a, b);
    RunOne(map[a := [], b := []], slots, map[a := Failed, b := Ready], log0, b, true);
    var st: Statuses := map[a := Failed, b := Completed];
    assert map[a := Failed, b := Ready][b := Running][b := Completed] == st;
    assert log0 <= log0 + [Started(b)] + [Finished(b, true)];
    TwoResults(st, a, b);
  }

  lemma FirstFailed(slots: int, a: Id, b: Id)
    requires slots >= 1 && a != b
    ensures
      var log0 := [Started(a)] + [Finished(a, false)];
      RunState(map[a := [], b := []], slots, map[a := Failed, b := Ready], log0) && InFlight(log0) == {}
  {
    var g := map[a := [], b := []];
    LoadedIsRunState(g, slots);
    assert Loaded(g) == map[a := Ready, b := Ready];
    RunOne(g, slots, Loaded(g), [], a, false);
    assert [] + [Started(a)] == [Started(a)];
    assert Loaded(g)[a := Running][a := Failed] == map[a := Failed, b := Ready];
  }

  lemma TwoResults(st: Statuses, a: Id, b: Id)
    requires a != b && st == map[a := Failed, b := Completed]
    ensures
      var results := map[a := StepFailed, b := StepCompleted];
      ResultsAreFinal(map[a := StepFailed], st, results) && !Success(results)
  {
    var results := map[a := StepFailed, b := StepCompleted];
    assert ResultIsFinal(map[a := StepFailed], st, results, a) && ResultIsFinal(map[a := StepFailed], st, results, b);
    assert results[a] == StepFailed;
  }

  /** A task `x` left over from an earlier plan that waited for an unknown `b`, and a plan that brings `b`:
      the run starts `x` as well, and `x` may fail. */
  lemma LeftoverTask(slots: int, x: Id, b: Id)
    requires slots >= 1 && x != b
    ensures
      var g, st := map[x := [b], b := []], map[x := Pending, b := Ready];
      && Fresh(g, slots, st, [], {b}) && Bystander(g, st, {b}, x)
      && !AlwaysTruthful(g, slots, [], map[], {b})
  {
    var g, st := map[x := [b], b := []], map[x := Pending, b := Ready];
    LoadedIsRunState(g, slots);
    assert Loaded(g) == st;
    forall u, v | DependsOn(g, u, v)
      ensures u == x && v == b
    {
      var d :| Edge(g, u, d) && Reaches(g, d, v);
      var walk :| Leads(g, walk, d, v);
      ClosedUnderReach(g, {b}, walk);
    }
    assert Bystander(g, st, {b}, x);
    SuccessIsExactIff(g, slots, st, [], map[], {b});
  }

  // ----- executing a plan -----

  class Orchestrator {
    const dispatcher: Dispatcher

    constructor (dispatcher: Dispatcher)
      ensures this.dispatcher == dispatcher
    {
      this.dispatcher := dispatcher;
    }

    /** Loads a plan that needs no further approval, runs everything, and reports. Planning comes before. */
    method ExecutePlan(plan: seq<PlanStep>, createdAt: seq<int>)
      returns (success: bool, results: map<Id, Outcome>)
      requires dispatcher.Valid() && dispatcher.Idle() && |createdAt| == |plan|
      modifies dispatcher, dispatcher.queue, dispatcher.queue.tasks.Values
      ensures dispatcher.Valid() && dispatcher.Idle() && results == dispatcher.stepResults
      ensures success <==> Success(results)
      ensures dispatcher.live == Rested(old(dispatcher.live), old(dispatcher.queue.statuses)) + PlanGraph(plan)
      ensures dispatcher.maxConcurrency >= 1 ==>
                Finishes(dispatcher.live, dispatcher.maxConcurrency, ForgetPlan(old(dispatcher.log), plan),
                         old(dispatcher.stepResults), dispatcher.queue.statuses, dispatcher.log, results)
      ensures var st0 := old(dispatcher.queue.statuses) + PlanStatuses(plan);
              dispatcher.maxConcurrency >= 1 &&
              Trustworthy(dispatcher.live, st0, old(dispatcher.stepResults), PlanGraph(plan).Keys) ==>
                (success <==> AllDone(dispatcher.queue.statuses, PlanGraph(plan).Keys))
    {
      dispatcher.LoadPlan(plan, createdAt);
      PlanWaits(plan);
      success, results := RunLoaded(PlanGraph(plan).Keys);
    }

    /** Runs what is loaded and applies the test. */
    method RunLoaded(ghost plan: set<Id>) returns (success: bool, results: map<Id, Outcome>)
      requires dispatcher.Loadable()
      requires forall id :: id in plan ==> Waits(dispatcher.queue.statuses, id)
      modifies dispatcher`log, dispatcher`activeWorkers, dispatcher`stepResults
      modifies dispatcher.queue`statuses, dispatcher.queue.tasks.Values
      ensures dispatcher.Valid() && dispatcher.Idle() && results == dispatcher.stepResults
      ensures success <==> Success(results)
      ensures dispatcher.maxConcurrency >= 1 ==>
                Finishes(dispatcher.live, dispatcher.maxConcurrency, old(dispatcher.log), old(dispatcher.stepResults),
                         dispatcher.queue.statuses, dispatcher.log, results)
      ensures dispatcher.maxConcurrency >= 1 &&
              Trustworthy(dispatcher.live, old(dispatcher.queue.statuses), old(dispatcher.stepResults), plan) ==>
                (success <==> AllDone(dispatcher.queue.statuses, plan))
    {
      ghost var st0, log0, earlier := dispatcher.queue.statuses, dispatcher.log, dispatcher.stepResults;
      assert InFlight(log0) == {};
      results := dispatcher.RunAll();
      success := forall id :: id in results ==> results[id] == StepCompleted;
      if dispatcher.maxConcurrency >= 1 && Trustworthy(dispatcher.live, st0, earlier, plan) {
        TrustworthyIsTruthful(dispatcher.live, dispatcher.maxConcurrency, st0, log0, earlier, plan,
                              dispatcher.queue.statuses, dispatcher.log, results);
      }
    }
  }

  lemma {:induction false} PlanWaits(plan: seq<PlanStep>)
    ensures PlanStatuses(plan).Keys == PlanGraph(plan).Keys
    ensures forall id :: id in PlanGraph(plan) ==> Waits(PlanStatuses(plan), id)
  {
    if plan != [] {
      PlanWaits(plan[..|plan| - 1]);
    }
  }
}
