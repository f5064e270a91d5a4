/** The permission protocol as one flat state machine: intents, approval requests, timers, the
    gateway's two id maps and the mode, with the effect of each outside call written out in full.
    The classes of module PermissionGateway are proved to have exactly these effects. */
module PermissionWorld {
  import opened Wrappers
  import opened PermissionChecker

  type Id = string

  datatype IntentStatus = Pending | Approved | Rejected | Executing | Completed | Failed | Invalidated

  datatype Intent = Intent(
    kind: IntentType,
    risk: RiskLevel,
    confidence: real,
    status: IntentStatus,
    createdAt: int,
    resolvedBy: Option<string>,
    rejectionReason: Option<string>)

  predicate Terminal(s: IntentStatus) {
    s == Completed || s == Failed || s == Rejected || s == Invalidated
  }

  datatype RequestStatus = Waiting | Granted | Denied | Expired | AutoGranted

  datatype RequestEvent = Created | Resolved(status: RequestStatus)

  datatype Request = Request(intentId: Id, approvals: seq<string>, countdownSec: real, status: RequestStatus)

  datatype TimerMode = Countdown | Timeout

  /** What the gateway decided when the intent was proposed. */
  datatype Verdict = Verdict(critical: bool, required: int, request: Option<Id>)

  /** Identities stamped on engine calls, and the reasons given for rejections. */
  datatype Identities = Identities(auto: string, manual: string, rejector: string)

  const TIMED_OUT := "approval request timed out"
  const REJECTED := "approval request rejected"
  const MODE_CHANGED := "mode changed"
  const NOT_PERMITTED := "not permitted in this mode"

  /** The engine's optional auto-approval policy. */
  datatype AutoApproval = AutoApproval(
    enabled: bool,
    allowedRisks: seq<RiskLevel>,
    allowedTypes: Option<seq<IntentType>>,
    minConfidence: real,
    approverIdentity: string)

  datatype Config = Config(tables: Tables, ids: Identities, autoApproval: Option<AutoApproval>)

  datatype World = World(
    intents: map<Id, Intent>,
    history: map<Id, seq<IntentStatus>>,
    requests: map<Id, Request>,
    required: map<Id, int>,
    timed: set<Id>,  // the requests opened with a countdown or a timeout
    timers: map<Id, TimerMode>,
    events: map<Id, seq<RequestEvent>>,
    requestToIntent: map<Id, Id>,
    intentToRequest: map<Id, Id>,
    verdicts: map<Id, Verdict>,
    mode: Mode)

  // ----- the pieces of an effect -----

  /** The intent takes a new status, which its history records. */
  function SetIntent(w: World, i: Id, intent: Intent): World {
    var past := if i in w.history then w.history[i] else [];
    w.(intents := w.intents[i := intent], history := w.history[i := past + [intent.status]])
  }

  /** The request takes a terminal status: its timer is cleared and the matching event emitted. */
  function FinishRequest(w: World, r: Id, status: RequestStatus): World
    requires r in w.requests
  {
    var past := if r in w.events then w.events[r] else [];
    w.(requests := w.requests[r := w.requests[r].(status := status)],
       timers := w.timers - {r},
       events := w.events[r := past + [Resolved(status)]])
  }

  function Forget(w: World, r: Id, i: Id): World {
    w.(requestToIntent := w.requestToIntent - {r}, intentToRequest := w.intentToRequest - {i})
  }

  predicate IsWaiting(w: World, r: Id) {
    r in w.requests && w.requests[r].status == Waiting
  }

  predicate IsPending(w: World, i: Id) {
    i in w.intents && w.intents[i].status == Pending
  }

  /** The engine resolved the intent: its outstanding request, if any, is forgotten and denied. */
  function DropRequest(w: World, i: Id): World {
    if i !in w.intentToRequest then w
    else
      var r := w.intentToRequest[i];
      var w' := Forget(w, r, i);
      if IsWaiting(w', r) then FinishRequest(w', r, Denied) else w'
  }

  function Resolution(intent: Intent, status: IntentStatus, who: string, reason: Option<string>): Intent {
    intent.(status := status, resolvedBy := Some(who),
            rejectionReason := if reason.Some? then reason else intent.rejectionReason)
  }

  // ----- effects of the outside calls -----

  /** Engine approval or rejection of a pending intent. */
  function ResolveIntent(w: World, i: Id, status: IntentStatus, who: string, reason: Option<string>): World {
    if IsPending(w, i) then DropRequest(SetIntent(w, i, Resolution(w.intents[i], status, who, reason)), i) else w
  }

  function InvalidateIntent(w: World, i: Id, reason: string): World {
    if i in w.intents && !Terminal(w.intents[i].status)
    then DropRequest(SetIntent(w, i, w.intents[i].(status := Invalidated, rejectionReason := Some(reason))), i)
    else w
  }

  /** Execution bookkeeping; nothing listens to these statuses. */
  function AdvanceIntent(w: World, i: Id, from: IntentStatus, to: IntentStatus, reason: Option<string>): World {
    if i in w.intents && w.intents[i].status == from
    then SetIntent(w, i, w.intents[i].(status := to,
                     rejectionReason := if reason.Some? then reason else w.intents[i].rejectionReason))
    else w
  }

  /** What a purge takes: a terminal intent created before the cutoff. */
  predicate OldAndDone(intent: Intent, cutoff: int) {
    Terminal(intent.status) && intent.createdAt < cutoff
  }

  function PurgeOld(w: World, cutoff: int): World {
    w.(intents := map i | i in w.intents && !OldAndDone(w.intents[i], cutoff) :: w.intents[i])
  }

  function OpenRequest(w: World, r: Id, i: Id, countdownSec: real, timeoutSec: real, count: int): World {
    w.(requests := w.requests[r := Request(i, [], countdownSec, Waiting)],
       required := w.required[r := count],
       timed := if countdownSec > 0.0 || timeoutSec > 0.0 then w.timed + {r} else w.timed,
       timers := if countdownSec > 0.0 then w.timers[r := Countdown]
                 else if timeoutSec > 0.0 then w.timers[r := Timeout]
                 else w.timers,
       events := w.events[r := [Created]])
  }

  /** How the gateway resolves an intent whose request was resolved. */
  function EchoResolution(intent: Intent, status: RequestStatus, ids: Identities): Intent {
    if status == Granted || status == AutoGranted then Resolution(intent, Approved, ids.manual, None)
    else Resolution(intent, Rejected, ids.manual, Some(if status == Expired then TIMED_OUT else REJECTED))
  }

  /** The gateway's reaction to a resolved request. If it opened the request, the pair is forgotten and
      a still pending intent is resolved accordingly. */
  function Echo(w: World, r: Id, status: RequestStatus, ids: Identities): World {
    if r !in w.requestToIntent then w
    else
      var i := w.requestToIntent[r];
      var w' := Forget(w, r, i);
      if IsPending(w', i) then SetIntent(w', i, EchoResolution(w.intents[i], status, ids)) else w'
  }

  /** A request reaches a terminal status, and the gateway hears of it. */
  function ResolveRequest(w: World, r: Id, status: RequestStatus, ids: Identities): World
    requires r in w.requests
  {
    Echo(FinishRequest(w, r, status), r, status, ids)
  }

  function AddApproval(approvals: seq<string>, who: string): seq<string> {
    if who in approvals then approvals else approvals + [who]
  }

  function ApproveRequest(w: World, r: Id, who: string, ids: Identities): World {
    if !IsWaiting(w, r) then w
    else
      var approvals := AddApproval(w.requests[r].approvals, who);
      var w1 := w.(requests := w.requests[r := w.requests[r].(approvals := approvals)]);
      var threshold := if r in w.required then w.required[r] else 1;
      if |approvals| >= threshold then ResolveRequest(w1, r, Granted, ids) else w1
  }

  function DenyRequest(w: World, r: Id, ids: Identities): World {
    if IsWaiting(w, r) then ResolveRequest(w, r, Denied, ids) else w
  }

  function FireTimer(w: World, r: Id, ids: Identities): World {
    if r in w.timers && r in w.requests
    then ResolveRequest(w, r, if w.timers[r] == Countdown then AutoGranted else Expired, ids)
    else w
  }

  /** Both maps are emptied; every tracked request that waits is denied and every tracked intent that
      is not terminal is invalidated. */
  function ChangeMode(w: World, next: Mode): World {
    if next == w.mode then w
    else
      ClearTracked(w.(mode := next, requestToIntent := map[], intentToRequest := map[]), w.requestToIntent)
  }

  function ClearTracked(w: World, pairs: map<Id, Id>): World {
    w.(requests := DenyAll(w.requests, pairs),
       timers := DisarmAll(w.timers, w.requests, pairs),
       events := TellAll(w.events, w.requests, pairs),
       intents := InvalidateAll(w.intents, pairs),
       history := NoteAll(w.history, w.intents, pairs))
  }

  predicate DeniedBy(requests: map<Id, Request>, pairs: map<Id, Id>, r: Id) {
    r in pairs && r in requests && requests[r].status == Waiting
  }

  function DenyAll(requests: map<Id, Request>, pairs: map<Id, Id>): map<Id, Request> {
    map r | r in requests :: if DeniedBy(requests, pairs, r) then requests[r].(status := Denied) else requests[r]
  }

  function DisarmAll(timers: map<Id, TimerMode>, requests: map<Id, Request>, pairs: map<Id, Id>): map<Id, TimerMode> {
    map r | r in timers && !DeniedBy(requests, pairs, r) :: timers[r]
  }

  function TellAll(events: map<Id, seq<RequestEvent>>, requests: map<Id, Request>, pairs: map<Id, Id>)
    : map<Id, seq<RequestEvent>>
  {
    map r | r in events.Keys + (set x | x in requests && DeniedBy(requests, pairs, x)) ::
      if DeniedBy(requests, pairs, r) then (if r in events then events[r] else []) + [Resolved(Denied)] else events[r]
  }

  predicate InvalidatedBy(intents: map<Id, Intent>, pairs: map<Id, Id>, i: Id) {
    i in pairs.Values && i in intents && !Terminal(intents[i].status)
  }

  function InvalidateAll(intents: map<Id, Intent>, pairs: map<Id, Id>): map<Id, Intent> {
    map i | i in intents ::
      if InvalidatedBy(intents, pairs, i)
      then intents[i].(status := Invalidated, rejectionReason := Some(MODE_CHANGED)) else intents[i]
  }

  function NoteAll(history: map<Id, seq<IntentStatus>>, intents: map<Id, Intent>, pairs: map<Id, Id>)
    : map<Id, seq<IntentStatus>>
  {
    map i | i in history.Keys + (set x | x in intents && InvalidatedBy(intents, pairs, x)) ::
      if InvalidatedBy(intents, pairs, i) then (if i in history then history[i] else []) + [Invalidated] else history[i]
  }

  // ----- proposing -----

  /** The proposal as the engine stores it, with what the risk assessor and the sensitive-file detector
      say about it. */
  datatype Proposal = Proposal(
    kind: IntentType, risk: RiskLevel, confidence: real, assessed: RiskLevel, sensitive: bool, now: int)

  function NewIntent(p: Proposal): Intent {
    Intent(p.kind, p.risk, p.confidence, Pending, p.now, None, None)
  }

  predicate ShouldAutoApprove(intent: Intent, policy: AutoApproval) {
    && policy.enabled
    && intent.risk in policy.allowedRisks
    && (policy.allowedTypes.Some? ==> intent.kind in policy.allowedTypes.value)
    && !(intent.confidence < policy.minConfidence)
  }

  /** The gateway's reaction to a proposed intent: nothing if an earlier listener has resolved it. */
  function HandleProposed(w: World, i: Id, r: Id, p: Proposal, cfg: Config): World {
    if IsPending(w, i) then JudgeProposed(w, i, r, p, cfg) else w
  }

  function JudgeProposed(w: World, i: Id, r: Id, p: Proposal, cfg: Config): World {
    var d := Decide(w.mode, p.kind, p.assessed, p.sensitive, cfg.tables);
    var critical := Critical(p.assessed, p.sensitive);
    var verdict := Verdict(critical, cfg.tables.policies(w.mode).requiredApprovals, None);
    var judged := w.(verdicts := w.verdicts[i := verdict]);
    match d
    case AutoApprove => ResolveIntent(judged, i, Approved, cfg.ids.auto, None)
    case AutoReject => ResolveIntent(judged, i, Rejected, cfg.ids.rejector, Some(NOT_PERMITTED))
    case HoldPending => judged
    case RequireApproval(countdown, timeout, count) =>
      var tracked := OpenRequest(judged, r, i, countdown, timeout, count);
      tracked.(requestToIntent := tracked.requestToIntent[r := i],
              intentToRequest := tracked.intentToRequest[i := r],
              verdicts := tracked.verdicts[i := tracked.verdicts[i].(request := Some(r))])
  }

  /** The engine's own policy, applied after its listeners have run. */
  function ApplyPolicy(w: World, i: Id, p: Proposal, policy: Option<AutoApproval>): World {
    if policy.Some? && ShouldAutoApprove(NewIntent(p), policy.value)
    then ResolveIntent(w, i, Approved, policy.value.approverIdentity, None)
    else w
  }

  function ProposeIntent(w: World, i: Id, r: Id, p: Proposal, cfg: Config): World {
    ApplyPolicy(HandleProposed(SetIntent(w, i, NewIntent(p)), i, r, p, cfg), i, p, cfg.autoApproval)
  }

  /** `propose` throws: its engine policy wants to approve an intent that is no longer pending. */
  predicate ProposeThrows(w: World, i: Id, r: Id, p: Proposal, cfg: Config) {
    && cfg.autoApproval.Some? && ShouldAutoApprove(NewIntent(p), cfg.autoApproval.value)
    && !IsPending(HandleProposed(SetIntent(w, i, NewIntent(p)), i, r, p, cfg), i)
  }

  // ----- runs -----

  datatype Op =
    | DoPropose(i: Id, r: Id, p: Proposal)
    | EngineApprove(i: Id, who: string)
    | EngineReject(i: Id, who: string, reason: string)
    | StartExecution(i: Id)
    | CompleteIntent(i: Id)
    | FailIntent(i: Id, reason: string)
    | Invalidate(i: Id, reason: string)
    | Purge(cutoff: int)
    | Open(r: Id, i: Id, countdownSec: real, timeoutSec: real, count: int)
    | Approve(r: Id, who: string)
    | Deny(r: Id)
    | Fire(r: Id)
    | SetMode(mode: Mode)

  /** Ids are fresh (never used before), and only an armed timer fires. */
  predicate Enabled(w: World, op: Op) {
    match op
    case DoPropose(i, r, _) => i !in w.history && i !in w.verdicts && r !in w.events
    case Open(r, _, _, _, _) => r !in w.events
    case Fire(r) => r in w.timers
    case _ => true
  }

  function Step(w: World, op: Op, cfg: Config): World {
    match op
    case DoPropose(i, r, p) => ProposeIntent(w, i, r, p, cfg)
    case EngineApprove(i, who) => ResolveIntent(w, i, Approved, who, None)
    case EngineReject(i, who, reason) => ResolveIntent(w, i, Rejected, who, Some(reason))
    case StartExecution(i) => AdvanceIntent(w, i, Approved, Executing, None)
    case CompleteIntent(i) => AdvanceIntent(w, i, Executing, Completed, None)
    case FailIntent(i, reason) => AdvanceIntent(w, i, Executing, Failed, Some(reason))
    case Invalidate(i, reason) => InvalidateIntent(w, i, reason)
    case Purge(cutoff) => PurgeOld(w, cutoff)
    case Open(r, i, countdown, timeout, count) => OpenRequest(w, r, i, countdown, timeout, count)
    case Approve(r, who) => ApproveRequest(w, r, who, cfg.ids)
    case Deny(r) => DenyRequest(w, r, cfg.ids)
    case Fire(r) => FireTimer(w, r, cfg.ids)
    case SetMode(mode) => ChangeMode(w, mode)
  }

  function Initial(mode: Mode): World {
    World(map[], map[], map[], map[], {}, map[], map[], map[], map[], map[], mode)
  }

  function Run(w: World, ops: seq<Op>, cfg: Config): World {
    if ops == [] then w else Step(Run(w, ops[..|ops| - 1], cfg), ops[|ops| - 1], cfg)
  }

  predicate EnabledRun(w: World, ops: seq<Op>, cfg: Config) {
    ops == [] ||
    (EnabledRun(w, ops[..|ops| - 1], cfg) && Enabled(Run(w, ops[..|ops| - 1], cfg), ops[|ops| - 1]))
  }
}
