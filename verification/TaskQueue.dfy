/** The in-memory task queue: dependency-driven readiness, the task life cycle, and the choice of the
    next task. */
module TaskQueue {
  import opened Wrappers
  import opened DependencyGraph

  datatype Priority = Critical | High | Normal | Low

  function PriorityValue(p: Priority): nat {
    match p
    case Critical => 0
    case High => 1
    case Normal => 2
    case Low => 3
  }

  datatype Status = Pending | Ready | Running | Completed | Failed | Cancelled

  type Statuses = map<Id, Status>

  datatype QueueError = NotFound | WrongStatus(status: Status)

  predicate DepsCompleted(g: Graph, st: Statuses, id: Id) {
    forall d {:trigger d in Deps(g, id)} :: d in Deps(g, id) ==> d in st && st[d] == Completed
  }

  /** A status a task can only have reached through `Ready`. */
  predicate Active(s: Status) {
    s == Ready || s == Running || s == Completed || s == Failed
  }

  /** The queue's safety invariant: no task is ready, running, completed or failed before all its
      dependencies are completed. */
  ghost predicate Supported(g: Graph, st: Statuses) {
    forall id {:trigger DepsCompleted(g, st, id)} :: id in st && Active(st[id]) ==> DepsCompleted(g, st, id)
  }

  /** One pass of readiness: exactly the pending tasks with completed dependencies become ready. */
  function Promote(g: Graph, st: Statuses): Statuses {
    map id | id in st :: if st[id] == Pending && DepsCompleted(g, st, id) then Ready else st[id]
  }

  /** Nothing is left to promote. */
  ghost predicate Settled(g: Graph, st: Statuses) {
    forall id {:trigger DepsCompleted(g, st, id)} :: id in st && st[id] == Pending ==> !DepsCompleted(g, st, id)
  }

  // ----- laws of the life cycle -----

  /** A single pass reaches the fixpoint: newly ready tasks make no other task ready. */
  lemma PromoteOnce(g: Graph, st: Statuses)
    ensures Settled(g, Promote(g, st))
    ensures Promote(g, Promote(g, st)) == Promote(g, st)
  {
    var once := Promote(g, st);
    forall id | id in st
      ensures DepsCompleted(g, once, id) == DepsCompleted(g, st, id)
    {
    }
  }

  /** The statuses one queue operation can turn `st` into, for an id that is known. */
  ghost predicate LifecycleStep(g: Graph, st: Statuses, st': Statuses) {
    || st' == Promote(g, st)
    || exists id :: id in st && StepAt(st, st', id)
  }

  ghost predicate StepAt(st: Statuses, st': Statuses, id: Id)
    requires id in st
  {
    || (st[id] == Ready && st' == st[id := Running])
    || (st[id] == Running && (st' == st[id := Completed] || st' == st[id := Failed]))
    || (st[id] != Completed && st[id] != Cancelled && st' == st[id := Cancelled])
  }

  /** Every life-cycle step keeps the safety invariant, and a completed task stays completed. */
  lemma LifecycleKeepsSupported(g: Graph, st: Statuses, st': Statuses)
    requires Supported(g, st) && LifecycleStep(g, st, st')
    ensures Supported(g, st') && st'.Keys == st.Keys
    ensures forall id :: id in st && st[id] == Completed ==> st'[id] == Completed
  {
    if st' == Promote(g, st) {
      PromoteKeepsSupported(g, st);
    } else {
      var at :| at in st && StepAt(st, st', at);
      StepKeepsSupported(g, st, st', at);
    }
  }

  lemma PromoteKeepsSupported(g: Graph, st: Statuses)
    requires Supported(g, st)
    ensures Supported(g, Promote(g, st))
  {
    var once := Promote(g, st);
    forall id | id in once && Active(once[id])
      ensures DepsCompleted(g, once, id)
    {
      assert DepsCompleted(g, st, id);
    }
  }

  lemma StepKeepsSupported(g: Graph, st: Statuses, st': Statuses, at: Id)
    requires Supported(g, st) && at in st && StepAt(st, st', at)
    ensures Supported(g, st')
  {
    forall id | id in st' && Active(st'[id])
      ensures DepsCompleted(g, st', id)
    {
      assert Active(st[id]) && DepsCompleted(g, st, id);
    }
  }

  function InitialStatus(deps: seq<Id>): Status {
    if deps == [] then Ready else Pending
  }

  /** Adding a task keeps the invariant exactly when no other active task already depends on the id:
      the id is new, or replacing it takes back no completion that others were built on. */
  lemma AddKeepsSupportedIff(g: Graph, st: Statuses, id: Id, deps: seq<Id>)
    requires Supported(g, st)
    ensures Supported(g[id := deps], st[id := InitialStatus(deps)])
            <==> !exists t :: t != id && t in st && Active(st[t]) && Edge(g, t, id)
  {
    var g', st' := g[id := deps], st[id := InitialStatus(deps)];
    if t :| t != id && t in st && Active(st[t]) && Edge(g, t, id) {
      assert st'[t] == st[t] && id in Deps(g', t);
      assert !DepsCompleted(g', st', t);
    } else {
      forall t | t in st' && Active(st'[t])
        ensures DepsCompleted(g', st', t)
      {
        if t != id {
          assert DepsCompleted(g, st, t);
          assert !Edge(g, t, id);
        }
      }
    }
  }

  /** A fresh id always qualifies. */
  lemma FreshAddKeepsSupported(g: Graph, st: Statuses, id: Id, deps: seq<Id>)
    requires Supported(g, st) && id !in st
    ensures Supported(g[id := deps], st[id := InitialStatus(deps)])
  {
    AddKeepsSupportedIff(g, st, id, deps);
    forall t | t in st && Active(st[t])
      ensures !Edge(g, t, id)
    {
      assert DepsCompleted(g, st, t);
    }
  }

  // ----- runs of queue calls -----

  /** What the queue's calls read and change, apart from the task objects themselves. */
  datatype QueueState = QueueState(graph: Graph, statuses: Statuses)

  datatype QueueOp =
    | DoAdd(id: Id, deps: seq<Id>)
    | DoPromote
    | DoStart(id: Id)
    | DoComplete(id: Id)
    | DoFail(id: Id)
    | DoCancel(id: Id)
    | DoClear

  const EMPTY_QUEUE := QueueState(map[], map[])

  function QueueStep(q: QueueState, op: QueueOp): QueueState {
    match op
    case DoAdd(id, deps) => QueueState(q.graph[id := deps], q.statuses[id := InitialStatus(deps)])
    case DoPromote => q.(statuses := Promote(q.graph, q.statuses))
    case DoStart(id) => if Has(q, id, Ready) then q.(statuses := q.statuses[id := Running]) else q
    case DoComplete(id) =>
      if Has(q, id, Running) then q.(statuses := Promote(q.graph, q.statuses[id := Completed])) else q
    case DoFail(id) => if Has(q, id, Running) then q.(statuses := q.statuses[id := Failed]) else q
    case DoCancel(id) => if CanCancel(q, id) then q.(statuses := q.statuses[id := Cancelled]) else q
    case DoClear => EMPTY_QUEUE
  }

  predicate Has(q: QueueState, id: Id, s: Status) {
    id in q.statuses && q.statuses[id] == s
  }

  predicate CanCancel(q: QueueState, id: Id) {
    id in q.statuses && q.statuses[id] != Completed && q.statuses[id] != Cancelled
  }

  /** The queue after the first `n` of `ops`, starting from nothing. */
  function After(ops: seq<QueueOp>, n: nat): QueueState
    requires n <= |ops|
  {
    if n == 0 then EMPTY_QUEUE else QueueStep(After(ops, n - 1), ops[n - 1])
  }

  ghost predicate SupportedAfter(ops: seq<QueueOp>, n: nat)
    requires n <= |ops|
  {
    Supported(After(ops, n).graph, After(ops, n).statuses)
  }

  /** Another active task depends on `id`. */
  ghost predicate BuiltOn(q: QueueState, id: Id) {
    exists t :: t != id && t in q.statuses && Active(q.statuses[t]) && Edge(q.graph, t, id)
  }

  /** The `n`-th call adds a task others were already built on. */
  ghost predicate PullsAway(ops: seq<QueueOp>, n: nat)
    requires n < |ops|
  {
    ops[n].DoAdd? && BuiltOn(After(ops, n), ops[n].id)
  }

  /** The safety invariant holds throughout a run exactly when no call re-adds an id that another
      active task depends on. */
  lemma RunStaysSupportedIff(ops: seq<QueueOp>)
    ensures (forall n {:trigger SupportedAfter(ops, n)} :: 0 <= n <= |ops| ==> SupportedAfter(ops, n))
            <==> forall n {:trigger PullsAway(ops, n)} :: 0 <= n < |ops| ==> !PullsAway(ops, n)
  {
    if n :| 0 <= n < |ops| && PullsAway(ops, n) {
      if SupportedAfter(ops, n) {
        StepSupportedIff(After(ops, n), ops[n]);
        assert !SupportedAfter(ops, n + 1);
      }
    } else {
      forall n | 0 <= n <= |ops|
        ensures SupportedAfter(ops, n)
      {
        SupportedPrefix(ops, n);
      }
    }
  }

  lemma {:induction false} SupportedPrefix(ops: seq<QueueOp>, n: nat)
    requires n <= |ops|
    requires forall i {:trigger PullsAway(ops, i)} :: 0 <= i < n ==> !PullsAway(ops, i)
    ensures SupportedAfter(ops, n)
  {
    if n > 0 {
      SupportedPrefix(ops, n - 1);
      assert !PullsAway(ops, n - 1);
      StepSupportedIff(After(ops, n - 1), ops[n - 1]);
    }
  }

  lemma StepSupportedIff(q: QueueState, op: QueueOp)
    requires Supported(q.graph, q.statuses)
    ensures var q' := QueueStep(q, op);
            Supported(q'.graph, q'.statuses) <==> !(op.DoAdd? && BuiltOn(q, op.id))
  {
    if op.DoAdd? {
      AddKeepsSupportedIff(q.graph, q.statuses, op.id, op.deps);
    } else if op.DoComplete? && Has(q, op.id, Running) {
      var done := q.statuses[op.id := Completed];
      StepKeepsSupported(q.graph, q.statuses, done, op.id);
      PromoteKeepsSupported(q.graph, done);
    } else if !op.DoClear? && QueueStep(q, op) != q {
      LifecycleKeepsSupported(q.graph, q.statuses, QueueStep(q, op).statuses);
    }
  }

  /** No call adds an id the queue already holds. */
  ghost predicate FreshIds(ops: seq<QueueOp>) {
    forall n {:trigger FreshAt(ops, n)} :: 0 <= n < |ops| ==> FreshAt(ops, n)
  }

  predicate FreshAt(ops: seq<QueueOp>, n: nat)
    requires n < |ops|
  {
    ops[n].DoAdd? ==> ops[n].id !in After(ops, n).statuses
  }

  /** No call from the `m`-th up to the `n`-th clears the queue. */
  predicate NoClear(ops: seq<QueueOp>, m: nat, n: nat)
    requires m <= n <= |ops|
  {
    forall k :: m <= k < n ==> !ops[k].DoClear?
  }

  /** With fresh ids, whatever the calls and their order: no task is ready, running, completed or
      failed before its dependencies are completed, and what is completed stays completed until the
      queue is cleared. */
  lemma FreshRunIsSafe(ops: seq<QueueOp>, m: nat, n: nat)
    requires FreshIds(ops) && m <= n <= |ops|
    ensures SupportedAfter(ops, m) && SupportedAfter(ops, n)
    ensures NoClear(ops, m, n) ==>
              forall id :: Has(After(ops, m), id, Completed) ==> Has(After(ops, n), id, Completed)
  {
    FreshPrefix(ops, m);
    FreshPrefix(ops, n);
    if NoClear(ops, m, n) {
      forall id | Has(After(ops, m), id, Completed)
        ensures Has(After(ops, n), id, Completed)
      {
        CompletedStays(ops, m, n, id);
      }
    }
  }

  lemma {:induction false} FreshPrefix(ops: seq<QueueOp>, n: nat)
    requires FreshIds(ops) && n <= |ops|
    ensures SupportedAfter(ops, n)
  {
    if n > 0 {
      var q, op := After(ops, n - 1), ops[n - 1];
      FreshPrefix(ops, n - 1);
      assert FreshAt(ops, n - 1);
      if op.DoAdd? {
        FreshAddKeepsSupported(q.graph, q.statuses, op.id, op.deps);
      } else {
        StepSupportedIff(q, op);
      }
    }
  }

  lemma {:induction false} CompletedStays(ops: seq<QueueOp>, m: nat, n: nat, id: Id)
    requires FreshIds(ops) && m <= n <= |ops| && NoClear(ops, m, n) && Has(After(ops, m), id, Completed)
    ensures Has(After(ops, n), id, Completed)
  {
    if m < n {
      CompletedStays(ops, m, n - 1, id);
      assert FreshAt(ops, n - 1);
      OneStepKeepsCompleted(After(ops, n - 1), ops[n - 1], id);
    }
  }

  lemma OneStepKeepsCompleted(q: QueueState, op: QueueOp, id: Id)
    requires Has(q, id, Completed) && !op.DoClear? && (op.DoAdd? ==> op.id !in q.statuses)
    ensures Has(QueueStep(q, op), id, Completed)
  {
  }

  /** A run on which an id is used twice: `b` is ready because `a` is completed, and adding `a` again
      takes that completion back. */
  lemma ReAddedDependency()
    ensures
      var ops := [DoAdd("a", []), DoStart("a"), DoComplete("a"), DoAdd("b", ["a"]), DoPromote, DoAdd("a", [])];
      SupportedAfter(ops, 5) && !SupportedAfter(ops, 6)
  {
    ReAdded("a", "b");
  }

  lemma ReAdded(a: Id, b: Id)
    requires a != b
    ensures
      var ops := [DoAdd(a, []), DoStart(a), DoComplete(a), DoAdd(b, [a]), DoPromote, DoAdd(a, [])];
      SupportedAfter(ops, 5) && !SupportedAfter(ops, 6)
  {
    var ops := [DoAdd(a, []), DoStart(a), DoComplete(a), DoAdd(b, [a]), DoPromote, DoAdd(a, [])];
    CompletedFirst(ops, a);
    ReadyNext(ops, a, b);
    TakenBack(ops, a, b);
  }

  lemma ReadyNext(ops: seq<QueueOp>, a: Id, b: Id)
    requires a != b && |ops| >= 5 && ops[3] == DoAdd(b, [a]) && ops[4] == DoPromote
    requires After(ops, 3) == QueueState(map[a := []], map[a := Completed])
    ensures After(ops, 5) == QueueState(map[a := [], b := [a]], map[a := Completed, b := Ready])
  {
    assert After(ops, 4) == QueueState(map[a := [], b := [a]], map[a := Completed, b := Pending]);
  }

  lemma TakenBack(ops: seq<QueueOp>, a: Id, b: Id)
    requires a != b && |ops| >= 6 && ops[5] == DoAdd(a, [])
    requires After(ops, 5) == QueueState(map[a := [], b := [a]], map[a := Completed, b := Ready])
    ensures SupportedAfter(ops, 5) && !SupportedAfter(ops, 6)
  {
    var both := map[a := [], b := [a]];
    assert Deps(both, b) == [a] && Deps(both, a) == [];
    StepSupportedIff(After(ops, 5), ops[5]);
    assert Edge(both, b, a);
  }

  lemma CompletedFirst(ops: seq<QueueOp>, a: Id)
    requires |ops| >= 3 && ops[0] == DoAdd(a, []) && ops[1] == DoStart(a) && ops[2] == DoComplete(a)
    ensures After(ops, 3) == QueueState(map[a := []], map[a := Completed])
  {
    assert After(ops, 1) == QueueState(map[a := []], map[a := Ready]);
    assert After(ops, 2) == QueueState(map[a := []], map[a := Running]);
  }

  // ----- the queue -----

  /** `order` lists exactly `keys`, each once: the iteration order of a map with these keys. */
  ghost predicate Ordering(order: seq<Id>, keys: set<Id>) {
    if order == [] then keys == {}
    else
      var last := order[|order| - 1];
      last in keys && Ordering(order[..|order| - 1], keys - {last})
  }

  lemma {:induction false} OrderingFacts(order: seq<Id>, keys: set<Id>)
    requires Ordering(order, keys)
    ensures ToSet(order) == keys && Distinct(order)
  {
    if order != [] {
      var front, last := order[..|order| - 1], order[|order| - 1];
      OrderingFacts(front, keys - {last});
      assert order == front + [last];
      assert last !in ToSet(front);
      assert ToSet(order) == ToSet(front) + {last};
    }
  }

  lemma {:induction false} OrderingSize(order: seq<Id>, keys: set<Id>)
    requires Ordering(order, keys)
    ensures |order| == |keys|
  {
    if order != [] {
      OrderingSize(order[..|order| - 1], keys - {order[|order| - 1]});
    }
  }

  lemma OrderingMember(order: seq<Id>, keys: set<Id>, i: nat)
    requires Ordering(order, keys) && i < |order|
    ensures order[i] in keys
  {
    OrderingFacts(order, keys);
    assert order[i] in ToSet(order);
  }

  lemma OrderingIndex(order: seq<Id>, keys: set<Id>, id: Id) returns (i: nat)
    requires Ordering(order, keys) && id in keys
    ensures i < |order| && order[i] == id
  {
    OrderingFacts(order, keys);
    assert id in ToSet(order);
    i :| 0 <= i < |order| && order[i] == id;
  }

  class QueueTask {
    const id: Id
    const priority: Priority
    const dependencies: seq<Id>
    const createdAt: int
    var status: Status

    constructor (id: Id, priority: Priority, dependencies: seq<Id>, createdAt: int)
      ensures this.id == id && this.priority == priority && this.dependencies == dependencies
      ensures this.createdAt == createdAt && status == InitialStatus(dependencies)
    {
      this.id, this.priority, this.dependencies, this.createdAt := id, priority, dependencies, createdAt;
      status := if |dependencies| == 0 then Ready else Pending;
    }
  }

  /** `a` is taken before `b` when both are ready: by priority, then by creation time. */
  predicate Precedes(a: QueueTask, b: QueueTask) {
    || PriorityValue(a.priority) < PriorityValue(b.priority)
    || (PriorityValue(a.priority) == PriorityValue(b.priority) && a.createdAt < b.createdAt)
  }

  class TaskQueue {
    var tasks: map<Id, QueueTask>
    var order: seq<Id>  // the map's iteration order: first insertion of each key
    ghost var graph: Graph  // the dependency lists of the stored tasks
    ghost var statuses: Statuses  // their status fields

    ghost predicate Valid()
      reads this, tasks.Values
    {
      Ordering(order, tasks.Keys) && Mirrored()
    }

    ghost function State(): QueueState
      reads this
    {
      QueueState(graph, statuses)
    }

    /** The ghost maps hold what the task objects hold. */
    ghost predicate Mirrored()
      reads this, tasks.Values
    {
      && graph.Keys == statuses.Keys == tasks.Keys
      && (forall id :: id in tasks ==> tasks[id].id == id)
      && (forall id :: id in tasks ==> graph[id] == tasks[id].dependencies)
      && (forall id :: id in tasks ==> statuses[id] == tasks[id].status)
    }

    constructor ()
      ensures Valid() && tasks == map[] && State() == EMPTY_QUEUE
    {
      tasks, order, graph, statuses := map[], [], map[], map[];
    }

    method Add(id: Id, priority: Priority, dependencies: seq<Id>, now: int) returns (task: QueueTask)
      requires Valid()
      modifies this
      ensures Valid() && fresh(task) && tasks == old(tasks)[id := task]
      ensures task.priority == priority && task.createdAt == now
      ensures order == if id in old(tasks) then old(order) else old(order) + [id]
      ensures graph == old(graph)[id := dependencies]
      ensures statuses == old(statuses)[id := InitialStatus(dependencies)]
      ensures State() == QueueStep(old(State()), DoAdd(id, dependencies))
    {
      task := new QueueTask(id, priority, dependencies, now);
      Insert(task);
    }

    /** Stores a task under its id, replacing any task that had the id. */
    method Insert(task: QueueTask)
      requires Valid()
      modifies this
      ensures Valid() && tasks == old(tasks)[task.id := task]
      ensures order == if task.id in old(tasks) then old(order) else old(order) + [task.id]
      ensures graph == old(graph)[task.id := task.dependencies]
      ensures statuses == old(statuses)[task.id := task.status]
    {
      AddKey(order, tasks, task.id, task);
      order := if task.id in tasks then order else order + [task.id];
      Store(task);
    }

    method Store(task: QueueTask)
      requires Mirrored()
      modifies this`tasks, this`graph, this`statuses
      ensures Mirrored() && tasks == old(tasks)[task.id := task]
      ensures graph == old(graph)[task.id := task.dependencies]
      ensures statuses == old(statuses)[task.id := task.status]
    {
      tasks := tasks[task.id := task];
      graph, statuses := graph[task.id := task.dependencies], statuses[task.id := task.status];
    }

    predicate DepsSatisfied(task: QueueTask)
      requires Valid() && task.id in tasks && tasks[task.id] == task
      reads this, tasks.Values
      ensures DepsSatisfied(task) == DepsCompleted(graph, statuses, task.id)
    {
      assert Deps(graph, task.id) == task.dependencies;
      forall d :: d in task.dependencies ==> d in tasks && tasks[d].status == Completed
    }

    /** Writes the status field of one task object. */
    method SetStatus(id: Id, status: Status)
      requires Valid() && id in tasks
      modifies tasks[id], this`statuses
      ensures Valid() && statuses == old(statuses)[id := status]
    {
      tasks[id].status := status;
      statuses := statuses[id := status];
    }

    /** The loop body of the readiness pass. */
    method PromoteIfReady(id: Id)
      requires Valid() && id in tasks
      modifies tasks[id], this`statuses
      ensures Valid()
      ensures statuses == if old(statuses)[id] == Pending && DepsCompleted(graph, old(statuses), id)
                          then old(statuses)[id := Ready] else old(statuses)
    {
      if tasks[id].status == Pending && DepsSatisfied(tasks[id]) {
        SetStatus(id, Ready);
      }
    }

    method UpdateReadyTasks()
      requires Valid()
      modifies tasks.Values, this`statuses
      ensures Valid() && statuses == Promote(graph, old(statuses))
      ensures State() == QueueStep(old(State()), DoPromote)
    {
      ghost var before := statuses;
      PromotedNone(graph, before, order);
      for i := 0 to |order|
        invariant Valid() && statuses == Promoted(graph, before, order[..i])
      {
        PromoteAt(before, i);
      }
      PromotedAll(graph, before, order);
    }

    /** One round of the readiness pass. */
    method PromoteAt(ghost before: Statuses, i: nat)
      requires Valid() && i < |order| && statuses == Promoted(graph, before, order[..i])
      modifies tasks.Values, this`statuses
      ensures Valid() && statuses == Promoted(graph, before, order[..i + 1])
    {
      OrderingMember(order, tasks.Keys, i);
      PromoteNext(graph, before, order, i);
      PromoteIfReady(order[i]);
    }

    /** The task at position `j` of the iteration order is ready. */
    ghost predicate ReadyAt(j: nat)
      requires j < |order|
      reads this, tasks.Values
    {
      order[j] in tasks && tasks[order[j]].status == Ready
    }

    /** `best` is ready and at position `k`; the ready task at position `j` does not precede it, and
        is strictly worse if it was inserted earlier. */
    ghost predicate NotWorse(best: QueueTask, k: nat, j: nat)
      requires j < |order|
      reads this, tasks.Values
    {
      ReadyAt(j) ==>
        && !Precedes(tasks[order[j]], best)
        && (j < k ==> Precedes(best, tasks[order[j]]))
    }

    /** The choice among the first `n` stored tasks. */
    ghost predicate BestOf(best: Option<QueueTask>, k: nat, n: nat)
      requires n <= |order|
      reads this, tasks.Values
    {
      match best
      case None => forall j :: 0 <= j < n ==> !ReadyAt(j)
      case Some(t) =>
        && k < n && ReadyAt(k) && tasks[order[k]] == t
        && forall j :: 0 <= j < n ==> NotWorse(t, k, j)
    }

    /** The scan of `GetNext`: smallest priority value, then oldest, then first inserted. */
    method ScanReady() returns (best: Option<QueueTask>, ghost at: nat)
      requires Valid()
      ensures BestOf(best, at, |order|)
    {
      best, at := None, 0;
      for i := 0 to |order|
        invariant BestOf(best, at, i)
      {
        OrderingMember(order, tasks.Keys, i);
        var task := tasks[order[i]];
        if task.status == Ready {
          if best.None? || Precedes(task, best.value) {
            forall j | 0 <= j < i
              ensures NotWorse(task, i, j)
            {
              assert if best.None? then !ReadyAt(j) else NotWorse(best.value, at, j);
            }
            best, at := Some(task), i;
          }
        }
      }
    }

    method GetNext() returns (best: Option<QueueTask>)
      requires Valid()
      modifies tasks.Values, this`statuses
      ensures Valid() && statuses == Promote(graph, old(statuses))
      ensures exists at: nat :: BestOf(best, at, |order|)
      ensures best.None? ==> forall id :: id in statuses ==> statuses[id] != Ready
      ensures best.Some? ==>
                && best.value.id in tasks && tasks[best.value.id] == best.value
                && statuses[best.value.id] == Ready
      ensures State() == QueueStep(old(State()), DoPromote)
    {
      UpdateReadyTasks();
      ghost var at;
      best, at := ScanReady();
      if best.None? {
        forall id | id in tasks
          ensures tasks[id].status != Ready
        {
          var j := OrderingIndex(order, tasks.Keys, id);
          assert !ReadyAt(j);
        }
      }
    }

    method Start(id: Id) returns (r: Result<QueueTask, QueueError>)
      requires Valid()
      modifies tasks.Values, this`statuses
      ensures Valid() && MoveResult(old(tasks), old(statuses), id, Ready, r)
      ensures statuses == if r.Ok? then old(statuses)[id := Running] else old(statuses)
      ensures State() == QueueStep(old(State()), DoStart(id))
    {
      r := CheckStatus(id, Ready);
      if r.Ok? {
        SetStatus(id, Running);
      }
    }

    method Complete(id: Id) returns (r: Result<QueueTask, QueueError>)
      requires Valid()
      modifies tasks.Values, this`statuses
      ensures Valid() && MoveResult(old(tasks), old(statuses), id, Running, r)
      ensures statuses == if r.Ok? then Promote(graph, old(statuses)[id := Completed]) else old(statuses)
      ensures State() == QueueStep(old(State()), DoComplete(id))
    {
      r := CheckStatus(id, Running);
      if r.Ok? {
        SetStatus(id, Completed);
        UpdateReadyTasks();
      }
    }

    method Fail(id: Id) returns (r: Result<QueueTask, QueueError>)
      requires Valid()
      modifies tasks.Values, this`statuses
      ensures Valid() && MoveResult(old(tasks), old(statuses), id, Running, r)
      ensures statuses == if r.Ok? then old(statuses)[id := Failed] else old(statuses)
      ensures State() == QueueStep(old(State()), DoFail(id))
    {
      r := CheckStatus(id, Running);
      if r.Ok? {
        SetStatus(id, Failed);
      }
    }

    method Cancel(id: Id) returns (r: Result<QueueTask, QueueError>)
      requires Valid()
      modifies tasks.Values, this`statuses
      ensures Valid()
      ensures r.Ok? <==> id in tasks && old(statuses)[id] != Completed && old(statuses)[id] != Cancelled
      ensures r.Ok? ==> r.value == tasks[id]
      ensures r.Err? ==> r.error == if id in tasks then WrongStatus(old(statuses)[id]) else NotFound
      ensures statuses == if r.Ok? then old(statuses)[id := Cancelled] else old(statuses)
      ensures State() == QueueStep(old(State()), DoCancel(id))
    {
      if id !in tasks {
        return Err(NotFound);
      }
      var task := tasks[id];
      if task.status == Completed || task.status == Cancelled {
        return Err(WrongStatus(task.status));
      }
      SetStatus(id, Cancelled);
      return Ok(task);
    }

    method Clear()
      requires Valid()
      modifies this
      ensures Valid() && tasks == map[] && order == []
      ensures State() == QueueStep(old(State()), DoClear)
    {
      tasks, order, graph, statuses := map[], [], map[], map[];
    }

    method CheckStatus(id: Id, expected: Status) returns (r: Result<QueueTask, QueueError>)
      requires Valid()
      ensures MoveResult(tasks, statuses, id, expected, r)
    {
      if id !in tasks {
        return Err(NotFound);
      }
      var task := tasks[id];
      return if task.status == expected then Ok(task) else Err(WrongStatus(task.status));
    }

    method GetStats() returns (stats: map<Status, nat>, total: nat)
      requires Valid()
      ensures forall s :: s in stats && stats[s] == |WithStatus(statuses, s)|
      ensures total == |tasks|
    {
      total := 0;
      stats := map[Pending := 0, Ready := 0, Running := 0, Completed := 0, Failed := 0, Cancelled := 0];
      forall s: Status
        ensures s in stats && stats[s] == Tally(statuses, order[..0], s)
      {
        match s
        case Pending | Ready | Running | Completed | Failed | Cancelled =>
      }
      for i := 0 to |order|
        invariant total == i
        invariant forall s :: s in stats && stats[s] == Tally(statuses, order[..i], s)
      {
        total := total + 1;
        OrderingMember(order, tasks.Keys, i);
        assert order[..i + 1][..i] == order[..i];
        var s := tasks[order[i]].status;
        stats := stats[s := stats[s] + 1];
      }
      assert order[..|order|] == order;
      OrderingSize(order, tasks.Keys);
      forall s
        ensures Tally(statuses, order, s) == |WithStatus(statuses, s)|
      {
        TallyIsSize(statuses, order, statuses.Keys, s);
        assert Among(statuses, statuses.Keys, s) == WithStatus(statuses, s);
      }
    }
  }

  /** Outcome of a life-cycle call that expects the task in a given status. */
  ghost predicate MoveResult(
    tasks: map<Id, QueueTask>, st: Statuses, id: Id, expected: Status, r: Result<QueueTask, QueueError>)
  {
    if id !in tasks || id !in st then r == Err(NotFound)
    else if st[id] != expected then r == Err(WrongStatus(st[id]))
    else r == Ok(tasks[id])
  }

  ghost function WithStatus(st: Statuses, s: Status): set<Id> {
    set id | id in st && st[id] == s
  }

  ghost function Among(st: Statuses, keys: set<Id>, s: Status): set<Id> {
    set id | id in keys && id in st && st[id] == s
  }

  ghost function Tally(st: Statuses, seen: seq<Id>, s: Status): nat {
    if seen == [] then 0
    else
      var last := seen[|seen| - 1];
      Tally(st, seen[..|seen| - 1], s) + (if last in st && st[last] == s then 1 else 0)
  }

  lemma AmongOneMore(st: Statuses, keys: set<Id>, id: Id, s: Status)
    requires id in keys
    ensures |Among(st, keys, s)| == |Among(st, keys - {id}, s)| + if id in st && st[id] == s then 1 else 0
  {
    var rest := Among(st, keys - {id}, s);
    assert id !in rest;
    assert Among(st, keys, s) == if id in st && st[id] == s then rest + {id} else rest;
  }

  lemma {:induction false} TallyIsSize(st: Statuses, order: seq<Id>, keys: set<Id>, s: Status)
    requires Ordering(order, keys)
    ensures Tally(st, order, s) == |Among(st, keys, s)|
  {
    if order != [] {
      var last := order[|order| - 1];
      TallyIsSize(st, order[..|order| - 1], keys - {last}, s);
      AmongOneMore(st, keys, last, s);
    } else {
      assert Among(st, keys, s) == {};
    }
  }

  /** Storing under a known key keeps the iteration order; a new key goes last. */
  lemma AddKey<V>(order: seq<Id>, m: map<Id, V>, id: Id, v: V)
    requires Ordering(order, m.Keys)
    ensures Ordering(if id in m then order else order + [id], m[id := v].Keys)
  {
    if id in m {
      assert m[id := v].Keys == m.Keys;
    } else {
      assert m[id := v].Keys - {id} == m.Keys;
      assert (order + [id])[..|order|] == order;
    }
  }

  /** The pass after the tasks in `seen` have been looked at. */
  ghost function Promoted(g: Graph, st: Statuses, seen: seq<Id>): Statuses {
    map id | id in st :: if id in seen then Promote(g, st)[id] else st[id]
  }

  lemma PromotedNone(g: Graph, st: Statuses, order: seq<Id>)
    ensures Promoted(g, st, order[..0]) == st
  {
  }

  lemma PromotedAll(g: Graph, st: Statuses, order: seq<Id>)
    requires Ordering(order, st.Keys)
    ensures Promoted(g, st, order[..|order|]) == Promote(g, st)
  {
    OrderingFacts(order, st.Keys);
    assert order[..|order|] == order;
    forall id | id in st
      ensures id in order
    {
      assert id in ToSet(order);
    }
  }

  lemma PromoteNext(g: Graph, st: Statuses, order: seq<Id>, i: nat)
    requires i < |order| && order[i] in st
    ensures
      var now := Promoted(g, st, order[..i]);
      var id := order[i];
      Promoted(g, st, order[..i + 1]) ==
        if now[id] == Pending && DepsCompleted(g, now, id) then now[id := Ready] else now
  {
    assert order[..i + 1] == order[..i] + [order[i]];
    var now := Promoted(g, st, order[..i]);
    assert DepsCompleted(g, now, order[i]) == DepsCompleted(g, st, order[i]);
  }
}
