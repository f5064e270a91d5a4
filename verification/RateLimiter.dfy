/** The sliding-window rate limiter with cooldown. */
module RateLimiter {
  import opened Wrappers

  type Agent = string
  type Action = string

  datatype Config = Config(maxOperations: int, windowMs: int, cooldownMs: int)

  /** `remaining` is `None` for an action without a configured limit. */
  datatype Status = Status(remaining: Option<nat>, resetAt: int, isLimited: bool)

  /** What the limiter stores for one agent and one action. */
  datatype Cell = Cell(times: seq<int>, cooldown: Option<int>)

  const UNUSED := Cell([], None)

  /** One call; the clock is read once to check and once more to record. */
  datatype Op =
    | Consume(agent: Agent, action: Action, checkedAt: int, recordedAt: int)
    | ResetAgent(agent: Agent)
    | Clear

  // ---------------------------------------------------------------------
  // One cell
  // ---------------------------------------------------------------------

  /** The entries of `times` later than `start`, in order. */
  function After(times: seq<int>, start: int): seq<int> {
    if times == [] then []
    else
      var last := times[|times| - 1];
      After(times[..|times| - 1], start) + if last > start then [last] else []
  }

  /** The entries still inside the window that ends at `now`. */
  function InWindow(config: Config, times: seq<int>, now: int): seq<int> {
    After(times, now - config.windowMs)
  }

  function CooldownUntil(cell: Cell): int {
    if cell.cooldown.Some? then cell.cooldown.value else 0
  }

  function StatusAt(limit: Option<Config>, cell: Cell, now: int): Status {
    match limit
    case None => Status(None, 0, false)
    case Some(config) =>
      if now < CooldownUntil(cell) then Status(Some(0), CooldownUntil(cell), true)
      else
        var inWindow := InWindow(config, cell.times, now);
        var left := config.maxOperations - |inWindow|;
        var remaining := if left < 0 then 0 else left;
        Status(Some(remaining),
               (if |inWindow| > 0 then inWindow[0] else now) + config.windowMs,
               remaining <= 0)
  }

  function Recorded(limit: Option<Config>, cell: Cell, now: int): Cell {
    match limit
    case None => cell
    case Some(config) =>
      var active := InWindow(config, cell.times + [now], now);
      Cell(active, if |active| >= config.maxOperations then Some(now + config.cooldownMs) else cell.cooldown)
  }

  function LimitOf(limits: map<Action, Config>, action: Action): Option<Config> {
    if action in limits then Some(limits[action]) else None
  }

  /** Whether `op` is an accepted operation of this agent and action, given their cell. */
  predicate Accepts(limits: map<Action, Config>, cell: Cell, agent: Agent, action: Action, op: Op) {
    op.Consume? && op.agent == agent && op.action == action &&
    !StatusAt(LimitOf(limits, action), cell, op.checkedAt).isLimited
  }

  predicate Resets(agent: Agent, op: Op) {
    op.Clear? || (op.ResetAgent? && op.agent == agent)
  }

  function CellStep(limits: map<Action, Config>, cell: Cell, agent: Agent, action: Action, op: Op): Cell {
    if Resets(agent, op) then UNUSED
    else if Accepts(limits, cell, agent, action, op) then Recorded(LimitOf(limits, action), cell, op.recordedAt)
    else cell
  }

  // ---------------------------------------------------------------------
  // Runs
  // ---------------------------------------------------------------------

  function CellAfter(limits: map<Action, Config>, agent: Agent, action: Action, ops: seq<Op>): Cell {
    if ops == [] then UNUSED
    else
      var n := |ops| - 1;
      CellStep(limits, CellAfter(limits, agent, action, ops[..n]), agent, action, ops[n])
  }

  /** The record times of the accepted operations since the last reset, none forgotten. */
  function AcceptedLog(limits: map<Action, Config>, agent: Agent, action: Action, ops: seq<Op>): seq<int> {
    if ops == [] then []
    else
      var n := |ops| - 1;
      var log := AcceptedLog(limits, agent, action, ops[..n]);
      if Resets(agent, ops[n]) then []
      else if Accepts(limits, CellAfter(limits, agent, action, ops[..n]), agent, action, ops[n])
      then log + [ops[n].recordedAt]
      else log
  }

  /** The latest clock reading of a run; the clock starts at the epoch. */
  function Latest(ops: seq<Op>): int {
    if ops == [] then 0
    else
      var last := ops[|ops| - 1];
      if last.Consume? then last.recordedAt else Latest(ops[..|ops| - 1])
  }

  /** The clock never runs backwards, within a call or between calls. */
  predicate ClockOrdered(ops: seq<Op>) {
    ops == [] ||
    var n := |ops| - 1;
    ClockOrdered(ops[..n]) &&
    (ops[n].Consume? ==> Latest(ops[..n]) <= ops[n].checkedAt <= ops[n].recordedAt)
  }

  /** How many of `times` lie in the half-open window (lo, hi]. */
  function Within(times: seq<int>, lo: int, hi: int): nat {
    if times == [] then 0
    else
      var last := times[|times| - 1];
      Within(times[..|times| - 1], lo, hi) + if lo < last <= hi then 1 else 0
  }

  function AtLeastZero(n: int): nat {
    if n < 0 then 0 else n
  }

  // ---------------------------------------------------------------------
  // Filtering sorted times
  // ---------------------------------------------------------------------

  predicate Sorted(times: seq<int>) {
    forall j, k :: 0 <= j <= k < |times| ==> times[j] <= times[k]
  }

  /** Every time is at most `now`. */
  predicate UpTo(times: seq<int>, now: int) {
    forall k :: 0 <= k < |times| ==> times[k] <= now
  }

  lemma AfterSnoc(times: seq<int>, t: int, start: int)
    ensures After(times + [t], start) == After(times, start) + if t > start then [t] else []
  {
    assert (times + [t])[..|times|] == times;
  }

  lemma {:induction false} AfterShorter(times: seq<int>, start: int)
    ensures |After(times, start)| <= |times|
  {
    if times != [] {
      AfterShorter(times[..|times| - 1], start);
    }
  }

  lemma {:induction false} AfterTwice(times: seq<int>, early: int, late: int)
    requires early <= late
    ensures After(After(times, early), late) == After(times, late)
  {
    if times != [] {
      var front, last := times[..|times| - 1], times[|times| - 1];
      AfterTwice(front, early, late);
      if last > early {
        AfterSnoc(After(front, early), last, late);
      } else {
        assert After(times, early) == After(front, early);
      }
    }
  }

  lemma {:induction false} AfterNone(times: seq<int>, start: int)
    requires UpTo(times, start)
    ensures After(times, start) == []
  {
    if times != [] {
      AfterNone(times[..|times| - 1], start);
    }
  }

  lemma SuffixSnoc(times: seq<int>, n: nat)
    requires n < |times|
    ensures times[n..] == times[..|times| - 1][n..] + [times[|times| - 1]]
  {
  }

  /** On sorted times filtering keeps the suffix from some position `n` on. */
  lemma {:induction false} AfterIsSuffix(times: seq<int>, start: int) returns (n: nat)
    requires Sorted(times)
    ensures n <= |times| && After(times, start) == times[n..]
    ensures forall k :: 0 <= k < n ==> times[k] <= start
    ensures forall k :: n <= k < |times| ==> times[k] > start
  {
    n := 0;
    if times != [] {
      var front, last := times[..|times| - 1], times[|times| - 1];
      if last > start {
        assert forall k :: 0 <= k < |front| ==> front[k] == times[k];
        n := AfterIsSuffix(front, start);
        SuffixSnoc(times, n);
        assert After(times, start) == After(front, start) + [last];
      } else {
        n := |times|;
        AfterNone(times, start);
      }
    }
  }

  lemma AfterShrinks(times: seq<int>, early: int, late: int)
    requires early <= late
    ensures |After(times, late)| <= |After(times, early)|
  {
    AfterTwice(times, early, late);
    AfterShorter(After(times, early), late);
  }

  lemma {:induction false} WithinIsAfter(times: seq<int>, lo: int, hi: int)
    requires UpTo(times, hi)
    ensures Within(times, lo, hi) == |After(times, lo)|
  {
    if times != [] {
      WithinIsAfter(times[..|times| - 1], lo, hi);
    }
  }

  lemma WithinSnoc(times: seq<int>, t: int, lo: int, hi: int)
    ensures Within(times + [t], lo, hi) == Within(times, lo, hi) + if lo < t <= hi then 1 else 0
  {
    assert (times + [t])[..|times|] == times;
  }

  // ---------------------------------------------------------------------
  // The invariant of one cell
  // ---------------------------------------------------------------------

  predicate WindowBounded(log: seq<int>, w: int, max: nat, x: int) {
    Within(log, x - w, x) <= max
  }

  /** No window of `w` milliseconds holds more than `max` of the accepted times. */
  ghost predicate WindowsBounded(log: seq<int>, w: int, max: nat) {
    forall x :: WindowBounded(log, w, max, x)
  }

  function Last(log: seq<int>): int {
    if log == [] then 0 else log[|log| - 1]
  }

  /** The stored times are exactly the recent part of the log. */
  predicate Pruned(times: seq<int>, log: seq<int>, w: int) {
    times == After(log, Last(log) - w)
  }

  /** A full window means a pending cooldown, and only a full window does. */
  predicate Cooled(config: Config, cell: Cell, log: seq<int>) {
    if log == [] then cell == UNUSED
    else
      1 <= config.maxOperations && |cell.times| <= config.maxOperations &&
      (|cell.times| == config.maxOperations ==> cell.cooldown == Some(Last(log) + config.cooldownMs)) &&
      (|cell.times| < config.maxOperations && cell.cooldown.Some? ==> cell.cooldown.value <= Last(log))
  }

  ghost predicate CellInv(config: Config, cell: Cell, log: seq<int>, latest: int) {
    Sorted(log) && UpTo(log, latest) && 0 <= latest &&
    Pruned(cell.times, log, config.windowMs) && Cooled(config, cell, log) &&
    WindowsBounded(log, config.windowMs, AtLeastZero(config.maxOperations))
  }

  /** Pruning loses nothing a later check would count. */
  lemma PruningIsExact(times: seq<int>, log: seq<int>, w: int, now: int)
    requires Pruned(times, log, w) && Last(log) <= now
    ensures After(times, now - w) == After(log, now - w)
  {
    AfterTwice(log, Last(log) - w, now - w);
  }

  lemma SortedSnoc(log: seq<int>, latest: int, t: int)
    requires Sorted(log) && UpTo(log, latest) && latest <= t
    ensures Sorted(log + [t]) && UpTo(log + [t], t)
  {
  }

  /** Accepting at `t`, having checked at `c`, keeps every window within the limit. */
  lemma AcceptKeepsWindows(log: seq<int>, w: int, max: nat, latest: int, c: int, t: int)
    requires UpTo(log, latest) && latest <= c <= t
    requires WindowsBounded(log, w, max)
    requires |After(log, c - w)| < max
    ensures WindowsBounded(log + [t], w, max)
  {
    forall x
      ensures WindowBounded(log + [t], w, max, x)
    {
      assert WindowBounded(log, w, max, x);
      WithinSnoc(log, t, x - w, x);
      if x - w < t <= x {
        WithinIsAfter(log, x - w, x);
        AfterShrinks(log, c - w, x - w);
      }
    }
  }

  lemma SnocKeepsAgreement(times: seq<int>, log: seq<int>, t: int, start: int)
    requires After(times, start) == After(log, start)
    ensures After(times + [t], start) == After(log + [t], start)
  {
    AfterSnoc(times, t, start);
    AfterSnoc(log, t, start);
  }

  lemma PrunedSnoc(times: seq<int>, log: seq<int>, w: int, t: int)
    requires times == After(log + [t], t - w)
    ensures Pruned(times, log + [t], w)
  {
    assert Last(log + [t]) == t;
  }

  lemma AcceptKeepsPruned(times: seq<int>, log: seq<int>, w: int, t: int)
    requires Pruned(times, log, w) && Last(log) <= t
    ensures Pruned(After(times + [t], t - w), log + [t], w)
  {
    PruningIsExact(times, log, w, t);
    SnocKeepsAgreement(times, log, t, t - w);
    PrunedSnoc(After(times + [t], t - w), log, w, t);
  }

  /** What passing the check says. */
  lemma NotLimited(config: Config, cell: Cell, c: int)
    requires !StatusAt(Some(config), cell, c).isLimited
    ensures |After(cell.times, c - config.windowMs)| < config.maxOperations && CooldownUntil(cell) <= c
  {
  }

  lemma AcceptKeepsCooled(config: Config, cell: Cell, log: seq<int>, c: int, t: int)
    requires |After(cell.times, c - config.windowMs)| < config.maxOperations && CooldownUntil(cell) <= c
    requires c <= t
    ensures Cooled(config, Recorded(Some(config), cell, t), log + [t])
  {
    AfterSnoc(cell.times, t, t - config.windowMs);
    AfterShrinks(cell.times, c - config.windowMs, t - config.windowMs);
  }

  lemma AcceptKeepsCell(config: Config, cell: Cell, log: seq<int>, latest: int, c: int, t: int)
    requires CellInv(config, cell, log, latest) && latest <= c <= t
    requires |After(cell.times, c - config.windowMs)| < config.maxOperations && CooldownUntil(cell) <= c
    ensures CellInv(config, Recorded(Some(config), cell, t), log + [t], t)
  {
    PruningIsExact(cell.times, log, config.windowMs, c);
    AcceptKeepsPruned(cell.times, log, config.windowMs, t);
    AcceptKeepsCooled(config, cell, log, c, t);
    AcceptKeepsWindows(log, config.windowMs, AtLeastZero(config.maxOperations), latest, c, t);
    SortedSnoc(log, latest, t);
  }

  lemma {:induction false} RunKeepsCell(
    limits: map<Action, Config>, agent: Agent, action: Action, ops: seq<Op>)
    requires action in limits && ClockOrdered(ops)
    ensures CellInv(limits[action], CellAfter(limits, agent, action, ops),
                    AcceptedLog(limits, agent, action, ops), Latest(ops))
  {
    if ops != [] {
      var n := |ops| - 1;
      RunKeepsCell(limits, agent, action, ops[..n]);
      var cell := CellAfter(limits, agent, action, ops[..n]);
      if Accepts(limits, cell, agent, action, ops[n]) {
        NotLimited(limits[action], cell, ops[n].checkedAt);
        AcceptKeepsCell(limits[action], cell, AcceptedLog(limits, agent, action, ops[..n]),
                        Latest(ops[..n]), ops[n].checkedAt, ops[n].recordedAt);
      }
    }
  }

  // ---------------------------------------------------------------------
  // What the limiter promises
  // ---------------------------------------------------------------------

  /**
   * In every run under a non-decreasing clock, no window (x - windowMs, x] holds more than
   * `maxOperations` accepted operations of one agent and action since their last reset.
   */
  lemma NoWindowOverflows(limits: map<Action, Config>, agent: Agent, action: Action, ops: seq<Op>, x: int)
    requires action in limits && ClockOrdered(ops)
    ensures Within(AcceptedLog(limits, agent, action, ops), x - limits[action].windowMs, x)
            <= AtLeastZero(limits[action].maxOperations)
  {
    RunKeepsCell(limits, agent, action, ops);
    assert WindowBounded(AcceptedLog(limits, agent, action, ops), limits[action].windowMs,
                         AtLeastZero(limits[action].maxOperations), x);
  }

  /** Once the operation recorded at `t` fills the window, nothing is accepted before `t + cooldownMs`. */
  lemma CooldownHolds(
    limits: map<Action, Config>, agent: Agent, action: Action, ops: seq<Op>, more: seq<Op>, t: int)
    requires action in limits && ClockOrdered(ops) && ClockOrdered(ops + more)
    requires var log := AcceptedLog(limits, agent, action, ops);
             log != [] && t == log[|log| - 1] &&
             Within(log, t - limits[action].windowMs, t) >= limits[action].maxOperations
    requires forall k :: 0 <= k < |more| ==> !Resets(agent, more[k])
    ensures var log := AcceptedLog(limits, agent, action, ops);
            var later := AcceptedLog(limits, agent, action, ops + more);
            log <= later &&
            forall k :: |log| <= k < |later| ==> later[k] >= t + limits[action].cooldownMs
  {
    CooldownStarts(limits, agent, action, ops, t);
    CooldownLasts(limits, agent, action, ops, more, t);
  }

  /** The cooldown stays pending, and the accepted log only grows from its end on. */
  lemma {:induction false} CooldownLasts(
    limits: map<Action, Config>, agent: Agent, action: Action, ops: seq<Op>, more: seq<Op>, t: int)
    requires action in limits && ClockOrdered(ops + more)
    requires CoolingFrom(limits, CellAfter(limits, agent, action, ops), action, t) && t <= Latest(ops)
    requires forall k :: 0 <= k < |more| ==> !Resets(agent, more[k])
    ensures var log := AcceptedLog(limits, agent, action, ops);
            var later := AcceptedLog(limits, agent, action, ops + more);
            log <= later &&
            forall k :: |log| <= k < |later| ==> later[k] >= t + limits[action].cooldownMs
    ensures CoolingFrom(limits, CellAfter(limits, agent, action, ops + more), action, t)
    ensures t <= Latest(ops + more)
  {
    if more == [] {
      assert ops + more == ops;
    } else {
      var n := |more| - 1;
      var all := ops + more;
      assert all[..|all| - 1] == ops + more[..n] && all[|all| - 1] == more[n];
      CooldownLasts(limits, agent, action, ops, more[..n], t);
    }
  }

  predicate CoolingFrom(limits: map<Action, Config>, cell: Cell, action: Action, t: int) {
    action in limits && cell.cooldown.Some? && cell.cooldown.value >= t + limits[action].cooldownMs
  }

  lemma CooldownStarts(limits: map<Action, Config>, agent: Agent, action: Action, ops: seq<Op>, t: int)
    requires action in limits && ClockOrdered(ops)
    requires var log := AcceptedLog(limits, agent, action, ops);
             log != [] && t == log[|log| - 1] &&
             Within(log, t - limits[action].windowMs, t) >= limits[action].maxOperations
    ensures CoolingFrom(limits, CellAfter(limits, agent, action, ops), action, t)
    ensures t <= Latest(ops)
  {
    RunKeepsCell(limits, agent, action, ops);
    WithinIsAfter(AcceptedLog(limits, agent, action, ops), t - limits[action].windowMs, t);
  }

  /** While nothing more is accepted a window stays as full as it is until its oldest entry leaves. */
  lemma FullUntilOldestLeaves(config: Config, times: seq<int>, now: int)
    requires Sorted(times) && |InWindow(config, times, now)| > 0
    ensures var reset := InWindow(config, times, now)[0] + config.windowMs;
            now < reset && |InWindow(config, times, reset)| < |InWindow(config, times, now)|
    ensures forall t {:trigger InWindow(config, times, t)} ::
              now <= t < InWindow(config, times, now)[0] + config.windowMs ==>
                |InWindow(config, times, t)| == |InWindow(config, times, now)|
  {
    var w := config.windowMs;
    var n := AfterIsSuffix(times, now - w);
    var reset := times[n] + w;
    forall t {:trigger InWindow(config, times, t)} | now <= t < reset
      ensures |InWindow(config, times, t)| == |InWindow(config, times, now)|
    {
      var m := AfterIsSuffix(times, t - w);
      assert times[n] > t - w;
      assert m < |times| ==> times[m] > now - w;
    }
    var m := AfterIsSuffix(times, reset - w);
    assert m < |times| ==> times[m] > now - w;
  }

  /** Whether the agent would be refused at `now`. */
  predicate LimitedAt(config: Config, cell: Cell, now: int) {
    StatusAt(Some(config), cell, now).isLimited
  }

  /**
   * A limited agent that is not cooling down stays limited up to the reported `resetAt` if nothing
   * more is consumed; it is free at `resetAt` exactly if the limit admits any operation at all.
   */
  lemma ResetAtIsExactIff(
    limits: map<Action, Config>, agent: Agent, action: Action, ops: seq<Op>, now: int)
    requires action in limits && ClockOrdered(ops) && Latest(ops) <= now
    requires var cell := CellAfter(limits, agent, action, ops);
             now >= CooldownUntil(cell) && LimitedAt(limits[action], cell, now)
    ensures var cell := CellAfter(limits, agent, action, ops);
            var reset := StatusAt(Some(limits[action]), cell, now).resetAt;
            (forall t :: now <= t < reset ==> LimitedAt(limits[action], cell, t)) &&
            (now < reset && !LimitedAt(limits[action], cell, reset) <==> limits[action].maxOperations >= 1)
  {
    StoredTimes(limits, agent, action, ops);
    ResetAtIsExact(limits[action], CellAfter(limits, agent, action, ops), now);
  }

  lemma ResetAtIsExact(config: Config, cell: Cell, now: int)
    requires Sorted(cell.times) && |cell.times| <= AtLeastZero(config.maxOperations)
    requires now >= CooldownUntil(cell) && LimitedAt(config, cell, now)
    ensures var reset := StatusAt(Some(config), cell, now).resetAt;
            (forall t :: now <= t < reset ==> LimitedAt(config, cell, t)) &&
            (now < reset && !LimitedAt(config, cell, reset) <==> config.maxOperations >= 1)
  {
    if config.maxOperations >= 1 {
      FullUntilOldestLeaves(config, cell.times, now);
      AfterShorter(cell.times, now - config.windowMs);
    }
  }

  /** What the invariant says about the stored times, after any run. */
  lemma StoredTimes(limits: map<Action, Config>, agent: Agent, action: Action, ops: seq<Op>)
    requires action in limits && ClockOrdered(ops)
    ensures var cell := CellAfter(limits, agent, action, ops);
            var config := limits[action];
            Sorted(cell.times) && |cell.times| <= AtLeastZero(config.maxOperations) &&
            (CooldownUntil(cell) > Latest(ops) ==>
               cell.times != [] && |cell.times| == config.maxOperations)
  {
    RunKeepsCell(limits, agent, action, ops);
    var log := AcceptedLog(limits, agent, action, ops);
    StoredFacts(limits[action], CellAfter(limits, agent, action, ops), log, Latest(ops));
  }

  lemma StoredFacts(config: Config, cell: Cell, log: seq<int>, latest: int)
    requires CellInv(config, cell, log, latest)
    ensures Sorted(cell.times) && |cell.times| <= AtLeastZero(config.maxOperations)
    ensures CooldownUntil(cell) > latest ==> cell.times != [] && |cell.times| == config.maxOperations
  {
    StoredIsSorted(config, cell, log, latest);
  }

  lemma StoredIsSorted(config: Config, cell: Cell, log: seq<int>, latest: int)
    requires CellInv(config, cell, log, latest)
    ensures Sorted(cell.times) && UpTo(cell.times, latest)
  {
    if log != [] {
      var start := Last(log) - config.windowMs;
      var n := AfterIsSuffix(log, start);
      assert forall k :: 0 <= k < |cell.times| ==> cell.times[k] == log[n + k];
    }
  }

  /** Nothing was accepted yet, a limit below one: the agent is limited, and no less so at `resetAt`. */
  lemma NoLimitNoRelease(config: Config, now: int)
    requires config.maxOperations < 1 && now >= 0
    ensures var status := StatusAt(Some(config), UNUSED, now);
            status.isLimited && status.resetAt == now + config.windowMs &&
            (config.windowMs >= 0 ==> LimitedAt(config, UNUSED, status.resetAt))
  {
  }

  /**
   * While cooling down, the reported `resetAt` is the end of the cooldown; the agent is free then
   * exactly if its oldest remembered operation has left the window by that time.
   */
  lemma CooldownResetIsExactIff(
    limits: map<Action, Config>, agent: Agent, action: Action, ops: seq<Op>, now: int)
    requires action in limits && ClockOrdered(ops) && Latest(ops) <= now
    requires now < CooldownUntil(CellAfter(limits, agent, action, ops))
    ensures var cell := CellAfter(limits, agent, action, ops);
            var reset := StatusAt(Some(limits[action]), cell, now).resetAt;
            cell.times != [] && now < reset &&
            (forall t :: now <= t < reset ==> LimitedAt(limits[action], cell, t)) &&
            (!LimitedAt(limits[action], cell, reset) <==> cell.times[0] + limits[action].windowMs <= reset)
  {
    StoredTimes(limits, agent, action, ops);
    CooldownResetIsExact(limits[action], CellAfter(limits, agent, action, ops), now);
  }

  lemma CooldownResetIsExact(config: Config, cell: Cell, now: int)
    requires Sorted(cell.times) && cell.times != [] && |cell.times| == config.maxOperations
    requires now < CooldownUntil(cell)
    ensures var reset := StatusAt(Some(config), cell, now).resetAt;
            reset == CooldownUntil(cell) &&
            (!LimitedAt(config, cell, reset) <==> cell.times[0] + config.windowMs <= reset)
  {
    FullnessAfterIff(cell.times, CooldownUntil(cell) - config.windowMs);
  }

  /** The agent is cooling down at `now`, after these calls. */
  predicate CoolingAt(limits: map<Action, Config>, agent: Agent, action: Action, ops: seq<Op>, now: int) {
    ClockOrdered(ops) && Latest(ops) <= now < CooldownUntil(CellAfter(limits, agent, action, ops))
  }

  /** If nothing more is consumed the agent is free at the `resetAt` reported at `now`. */
  predicate FreeAtReset(limits: map<Action, Config>, agent: Agent, action: Action, ops: seq<Op>, now: int)
    requires action in limits
  {
    var cell := CellAfter(limits, agent, action, ops);
    !LimitedAt(limits[action], cell, StatusAt(Some(limits[action]), cell, now).resetAt)
  }

  ghost predicate ResetAlwaysFrees(limits: map<Action, Config>, agent: Agent, action: Action)
    requires action in limits
  {
    forall ops, now ::
      CoolingAt(limits, agent, action, ops, now) ==> FreeAtReset(limits, agent, action, ops, now)
  }

  /**
   * With a limit of at least one and a cooldown, the `resetAt` reported during a cooldown can be relied
   * on, in every run, if and only if the cooldown is no shorter than the window.
   */
  lemma CooldownResetIsReliableIff(limits: map<Action, Config>, agent: Agent, action: Action)
    requires action in limits && limits[action].maxOperations >= 1 && limits[action].cooldownMs > 0
    ensures ResetAlwaysFrees(limits, agent, action) <==> limits[action].cooldownMs >= limits[action].windowMs
  {
    var config := limits[action];
    if config.cooldownMs >= config.windowMs {
      forall ops, now | CoolingAt(limits, agent, action, ops, now)
        ensures FreeAtReset(limits, agent, action, ops, now)
      {
        CooldownResetIsExactIff(limits, agent, action, ops, now);
        OldestIsInTime(limits, agent, action, ops);
      }
    } else {
      ShortCooldown(limits, agent, action, 0);
    }
  }

  lemma OldestIsInTime(limits: map<Action, Config>, agent: Agent, action: Action, ops: seq<Op>)
    requires action in limits && ClockOrdered(ops)
    requires Latest(ops) < CooldownUntil(CellAfter(limits, agent, action, ops))
    ensures var cell := CellAfter(limits, agent, action, ops);
            cell.times != [] && cell.times[0] + limits[action].cooldownMs <= CooldownUntil(cell)
  {
    RunKeepsCell(limits, agent, action, ops);
    StoredTimes(limits, agent, action, ops);
    OldestIsOld(limits[action], CellAfter(limits, agent, action, ops), AcceptedLog(limits, agent, action, ops),
                Latest(ops));
  }

  lemma OldestIsOld(config: Config, cell: Cell, log: seq<int>, latest: int)
    requires CellInv(config, cell, log, latest) && cell.times != [] && latest < CooldownUntil(cell)
    ensures cell.times[0] + config.cooldownMs <= CooldownUntil(cell)
  {
    var n := AfterIsSuffix(log, Last(log) - config.windowMs);
    assert cell.times[0] == log[n] <= log[|log| - 1];
  }

  /** `n` calls in the millisecond `t`. */
  function Burst(agent: Agent, action: Action, n: nat, t: int): seq<Op> {
    if n == 0 then [] else Burst(agent, action, n - 1, t) + [Consume(agent, action, t, t)]
  }

  function Copies(t: int, n: nat): seq<int> {
    seq(n, _ => t)
  }

  lemma {:induction false} AfterKeepsAll(times: seq<int>, start: int)
    requires forall k :: 0 <= k < |times| ==> times[k] > start
    ensures After(times, start) == times
  {
    if times != [] {
      AfterKeepsAll(times[..|times| - 1], start);
      assert times == times[..|times| - 1] + [times[|times| - 1]];
    }
  }

  lemma CopiesSnoc(t: int, n: nat)
    ensures Copies(t, n) + [t] == Copies(t, n + 1) && |Copies(t, n)| == n
  {
  }

  lemma CopiesInWindow(config: Config, t: int, n: nat)
    requires config.windowMs > 0
    ensures InWindow(config, Copies(t, n), t) == Copies(t, n)
  {
    AfterKeepsAll(Copies(t, n), t - config.windowMs);
  }

  /** One more call of the burst is accepted, and starts the cooldown if it is the last. */
  lemma BurstStep(config: Config, t: int, n: nat)
    requires n < config.maxOperations && config.windowMs > 0 && t >= 0
    ensures !StatusAt(Some(config), Cell(Copies(t, n), None), t).isLimited
    ensures Recorded(Some(config), Cell(Copies(t, n), None), t) ==
              Cell(Copies(t, n + 1), if n + 1 == config.maxOperations then Some(t + config.cooldownMs) else None)
  {
    CopiesSnoc(t, n);
    CopiesSnoc(t, n + 1);
    CopiesInWindow(config, t, n);
    CopiesInWindow(config, t, n + 1);
  }

  /** What the burst makes of the cell. */
  function Filled(config: Config, t: int, n: nat): Cell {
    Cell(Copies(t, n), if n > 0 && n == config.maxOperations then Some(t + config.cooldownMs) else None)
  }

  lemma BurstCell(limits: map<Action, Config>, agent: Agent, action: Action, t: int, n: nat)
    requires action in limits && n < limits[action].maxOperations && limits[action].windowMs > 0 && t >= 0
    ensures CellStep(limits, Filled(limits[action], t, n), agent, action, Consume(agent, action, t, t)) ==
              Filled(limits[action], t, n + 1)
  {
    BurstStep(limits[action], t, n);
  }

  /** The run ends by `t`, and leaves the cell with `n` calls in it. */
  predicate Fills(limits: map<Action, Config>, agent: Agent, action: Action, ops: seq<Op>, n: nat, t: int)
    requires action in limits
  {
    ClockOrdered(ops) && Latest(ops) <= t &&
    CellAfter(limits, agent, action, ops) == Filled(limits[action], t, n)
  }

  lemma NothingFills(limits: map<Action, Config>, agent: Agent, action: Action, t: int)
    requires action in limits && t >= 0
    ensures Fills(limits, agent, action, [], 0, t)
  {
    assert Copies(t, 0) == [];
  }

  lemma OneMoreFills(limits: map<Action, Config>, agent: Agent, action: Action, ops: seq<Op>, n: nat, t: int)
    requires action in limits && n < limits[action].maxOperations && limits[action].windowMs > 0 && t >= 0
    requires Fills(limits, agent, action, ops, n, t)
    ensures Fills(limits, agent, action, ops + [Consume(agent, action, t, t)], n + 1, t)
  {
    RunSnoc(limits, agent, action, ops, Consume(agent, action, t, t));
    BurstCell(limits, agent, action, t, n);
  }

  /** Up to the limit every call of the burst is accepted; the last one starts the cooldown. */
  lemma {:induction false} BurstFills(limits: map<Action, Config>, agent: Agent, action: Action, n: nat, t: int)
    requires action in limits && n <= limits[action].maxOperations && limits[action].windowMs > 0 && t >= 0
    ensures Fills(limits, agent, action, Burst(agent, action, n, t), n, t)
  {
    if n == 0 {
      NothingFills(limits, agent, action, t);
    } else {
      BurstFills(limits, agent, action, n - 1, t);
      OneMoreFills(limits, agent, action, Burst(agent, action, n - 1, t), n - 1, t);
    }
  }

  /** One more call at the same millisecond. */
  lemma RunSnoc(limits: map<Action, Config>, agent: Agent, action: Action, ops: seq<Op>, op: Op)
    requires ClockOrdered(ops) && op.Consume? && Latest(ops) <= op.checkedAt <= op.recordedAt
    ensures ClockOrdered(ops + [op]) && Latest(ops + [op]) == op.recordedAt
    ensures CellAfter(limits, agent, action, ops + [op]) ==
              CellStep(limits, CellAfter(limits, agent, action, ops), agent, action, op)
  {
    assert (ops + [op])[..|ops|] == ops;
  }

  lemma ShortCooldownStatus(config: Config, cell: Cell, t: int)
    requires config.maxOperations >= 1 && 0 < config.cooldownMs < config.windowMs && t >= 0
    requires cell == Cell(Copies(t, config.maxOperations), Some(t + config.cooldownMs))
    ensures StatusAt(Some(config), cell, t).resetAt == t + config.cooldownMs
    ensures LimitedAt(config, cell, t + config.cooldownMs)
  {
    AfterKeepsAll(cell.times, t + config.cooldownMs - config.windowMs);
  }

  /** With a shorter cooldown, filling the window at once, at any time, makes the reported time too early. */
  lemma ShortCooldown(limits: map<Action, Config>, agent: Agent, action: Action, t: int)
    requires action in limits && limits[action].maxOperations >= 1 && t >= 0
    requires 0 < limits[action].cooldownMs < limits[action].windowMs
    ensures var ops := Burst(agent, action, limits[action].maxOperations, t);
            CoolingAt(limits, agent, action, ops, t) && !FreeAtReset(limits, agent, action, ops, t)
  {
    var n := limits[action].maxOperations;
    BurstFills(limits, agent, action, n, t);
    ShortCooldownStatus(limits[action], CellAfter(limits, agent, action, Burst(agent, action, n, t)), t);
  }

  /** Filtering sorted times drops something exactly if it drops the first. */
  lemma FullnessAfterIff(times: seq<int>, start: int)
    requires Sorted(times) && times != []
    ensures |After(times, start)| < |times| <==> times[0] <= start
  {
    var n := AfterIsSuffix(times, start);
  }

  // ---------------------------------------------------------------------
  // The limiter
  // ---------------------------------------------------------------------

  class RateLimiter {
    const limits: map<Action, Config>
    var windows: map<Agent, map<Action, seq<int>>>
    var cooldowns: map<Agent, map<Action, int>>
    ghost var history: seq<Op>

    ghost function CellOf(agent: Agent, action: Action): Cell
      reads this`windows, this`cooldowns
    {
      Cell(if agent in windows && action in windows[agent] then windows[agent][action] else [],
           if agent in cooldowns && action in cooldowns[agent] then Some(cooldowns[agent][action]) else None)
    }

    /** Every cell is what the calls so far make it: agents and actions never touch each other's. */
    ghost predicate Valid()
      reads this
    {
      ClockOrdered(history) &&
      forall agent, action {:trigger CellOf(agent, action)} ::
        CellOf(agent, action) == CellAfter(limits, agent, action, history)
    }

    constructor (limits: map<Action, Config>)
      ensures Valid() && this.limits == limits && history == []
    {
      this.limits := limits;
      windows, cooldowns := map[], map[];
      history := [];
    }

    method TryConsume(agent: Agent, action: Action, checkedAt: int, recordedAt: int) returns (allowed: bool)
      requires Valid() && Latest(history) <= checkedAt <= recordedAt
      modifies this
      ensures Valid() && history == old(history) + [Consume(agent, action, checkedAt, recordedAt)]
      ensures allowed == Accepts(limits, old(CellOf(agent, action)), agent, action,
                                 Consume(agent, action, checkedAt, recordedAt))
    {
      var status := GetStatus(agent, action, checkedAt);
      allowed := !status.isLimited;
      if allowed {
        Record(agent, action, recordedAt);
      }
      Append(Consume(agent, action, checkedAt, recordedAt));
    }

    method GetStatus(agent: Agent, action: Action, now: int) returns (status: Status)
      ensures status == StatusAt(LimitOf(limits, action), CellOf(agent, action), now)
    {
      if action !in limits {
        return Status(None, 0, false);
      }
      var config := limits[action];
      var cooldownUntil :=
        if agent in cooldowns && action in cooldowns[agent] then cooldowns[agent][action] else 0;
      if now < cooldownUntil {
        return Status(Some(0), cooldownUntil, true);
      }
      var timestamps := GetWindow(agent, action);
      var inWindow := InWindow(config, timestamps, now);
      var remaining := AtLeastZero(config.maxOperations - |inWindow|);
      var resetAt := now + config.windowMs;
      if |inWindow| > 0 {
        resetAt := inWindow[0] + config.windowMs;
      }
      status := Status(Some(remaining), resetAt, remaining <= 0);
    }

    ghost method Append(op: Op)
      requires ClockOrdered(history)
      requires op.Consume? ==> Latest(history) <= op.checkedAt <= op.recordedAt
      requires forall agent, action {:trigger CellOf(agent, action)} ::
                 CellOf(agent, action) ==
                   CellStep(limits, CellAfter(limits, agent, action, history), agent, action, op)
      modifies this`history
      ensures Valid() && history == old(history) + [op]
    {
      history := history + [op];
      assert history[..|history| - 1] == old(history);
    }

    method ResetAgent(agent: Agent)
      requires Valid()
      modifies this
      ensures Valid() && history == old(history) + [Op.ResetAgent(agent)]
    {
      windows := windows - {agent};
      cooldowns := cooldowns - {agent};
      forall other, act
        ensures CellOf(other, act) ==
                  CellStep(limits, CellAfter(limits, other, act, history), other, act, Op.ResetAgent(agent))
      {
        assert old(CellOf(other, act)) == CellAfter(limits, other, act, history);
      }
      Append(Op.ResetAgent(agent));
    }

    method Clear()
      requires Valid()
      modifies this
      ensures Valid() && history == old(history) + [Op.Clear]
    {
      windows, cooldowns := map[], map[];
      Append(Op.Clear);
    }

    method Record(agent: Agent, action: Action, now: int)
      modifies this`windows, this`cooldowns
      ensures forall other, act {:trigger CellOf(other, act)} ::
                CellOf(other, act) ==
                  if other == agent && act == action
                  then Recorded(LimitOf(limits, action), old(CellOf(agent, action)), now)
                  else old(CellOf(other, act))
    {
      var timestamps := GetWindow(agent, action);
      timestamps := timestamps + [now];
      if action in limits {
        var config := limits[action];
        var active := InWindow(config, timestamps, now);
        SetWindow(agent, action, active);
        if |active| >= config.maxOperations {
          SetCooldown(agent, action, now + config.cooldownMs);
        }
      }
    }

    method SetCooldown(agent: Agent, action: Action, until: int)
      modifies this`cooldowns
      ensures forall other, act {:trigger CellOf(other, act)} ::
                CellOf(other, act) ==
                  if other == agent && act == action
                  then old(CellOf(agent, action)).(cooldown := Some(until))
                  else old(CellOf(other, act))
    {
      if agent !in cooldowns {
        cooldowns := cooldowns[agent := map[]];
      }
      cooldowns := cooldowns[agent := cooldowns[agent][action := until]];
    }

    function GetWindow(agent: Agent, action: Action): (times: seq<int>)
      reads this
      ensures times == CellOf(agent, action).times
    {
      if agent in windows && action in windows[agent] then windows[agent][action] else []
    }

    method SetWindow(agent: Agent, action: Action, timestamps: seq<int>)
      modifies this`windows
      ensures forall other, act {:trigger CellOf(other, act)} ::
                CellOf(other, act) ==
                  if other == agent && act == action
                  then old(CellOf(agent, action)).(times := timestamps)
                  else old(CellOf(other, act))
    {
      if agent !in windows {
        windows := windows[agent := map[]];
      }
      windows := windows[agent := windows[agent][action := timestamps]];
    }

    /** The safety property, read off the limiter's own state after any calls. */
    lemma NeverOverflows(agent: Agent, action: Action, x: int)
      requires Valid() && action in limits
      ensures Within(AcceptedLog(limits, agent, action, history), x - limits[action].windowMs, x)
              <= AtLeastZero(limits[action].maxOperations)
    {
      NoWindowOverflows(limits, agent, action, history, x);
    }
  }
}
