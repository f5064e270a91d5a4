/** The three objects of the permission protocol and their synchronous listeners. A listener call is a
    nested method call; every method is proved to have the flat effect that module PermissionWorld
    gives for it, so each cascade terminates and ends where one update would. */
module PermissionGateway {
  import opened Wrappers
  import opened PermissionChecker
  import opened PermissionWorld

  datatype EngineError = IntentNotFound | WrongIntentStatus(status: IntentStatus)

  datatype ApprovalError = RequestNotFound | AlreadyResolved(status: RequestStatus)

  /** Statuses whose event the gateway listens to. */
  predicate Listened(s: IntentStatus) {
    s == Approved || s == Rejected || s == Invalidated
  }

  class IntentEngine {
    var intents: map<Id, Intent>
    ghost var history: map<Id, seq<IntentStatus>>
    var gateway: PermissionGateway?
    const autoApproval: Option<AutoApproval>

    constructor (autoApproval: Option<AutoApproval>)
      ensures intents == map[] && history == map[] && gateway == null && this.autoApproval == autoApproval
    {
      intents, history, gateway := map[], map[], null;
      this.autoApproval := autoApproval;
    }

    ghost predicate Attached()
      reads this, gateway, if gateway == null then {} else {gateway.engine, gateway.approvals, gateway.modes}
    {
      gateway != null && gateway.engine == this && gateway.Wired()
    }

    /** Stores the intent under its new status and lets the gateway hear of it. */
    method Store(i: Id, intent: Intent)
      requires Attached()
      modifies this`intents, this`history, gateway`requestToIntent, gateway`intentToRequest
      modifies gateway.approvals`requests, gateway.approvals`timers, gateway.approvals`events
      ensures gateway.View() ==
              var w := SetIntent(old(gateway.View()), i, intent);
              if Listened(intent.status) then DropRequest(w, i) else w
      decreases gateway.requestToIntent.Keys, gateway.intentToRequest.Keys, 5
    {
      ghost var w := gateway.View();
      intents := intents[i := intent];
      history := history[i := (if i in history then history[i] else []) + [intent.status]];
      assert gateway.View() == SetIntent(w, i, intent);
      if Listened(intent.status) {
        gateway.DropRequestForIntent(i);
      }
    }

    method Transition(i: Id, expected: IntentStatus, next: IntentStatus, who: Option<string>, reason: Option<string>)
      returns (r: Result<Intent, EngineError>)
      requires Attached()
      modifies this`intents, this`history, gateway`requestToIntent, gateway`intentToRequest
      modifies gateway.approvals`requests, gateway.approvals`timers, gateway.approvals`events
      ensures r == TransitionResult(old(intents), i, expected, next, who, reason)
      ensures gateway.View() ==
              if r.Err? then old(gateway.View())
              else
                var w := SetIntent(old(gateway.View()), i, r.value);
                if Listened(next) then DropRequest(w, i) else w
      decreases gateway.requestToIntent.Keys, gateway.intentToRequest.Keys, 6
    {
      if i !in intents {
        return Err(IntentNotFound);
      }
      var intent := intents[i];
      if intent.status != expected {
        return Err(WrongIntentStatus(intent.status));
      }
      var updated := intent.(status := next,
                             resolvedBy := if who.Some? then who else intent.resolvedBy,
                             rejectionReason := if reason.Some? then reason else intent.rejectionReason);
      Store(i, updated);
      return Ok(updated);
    }

    method Approve(i: Id, who: string) returns (r: Result<Intent, EngineError>)
      requires Attached()
      modifies this`intents, this`history, gateway`requestToIntent, gateway`intentToRequest
      modifies gateway.approvals`requests, gateway.approvals`timers, gateway.approvals`events
      ensures gateway.View() == ResolveIntent(old(gateway.View()), i, Approved, who, None)
      ensures r == TransitionResult(old(intents), i, Pending, Approved, Some(who), None)
    {
      r := Transition(i, Pending, Approved, Some(who), None);
    }

    method Reject(i: Id, who: string, reason: string) returns (r: Result<Intent, EngineError>)
      requires Attached()
      modifies this`intents, this`history, gateway`requestToIntent, gateway`intentToRequest
      modifies gateway.approvals`requests, gateway.approvals`timers, gateway.approvals`events
      ensures gateway.View() == ResolveIntent(old(gateway.View()), i, Rejected, who, Some(reason))
      ensures r == TransitionResult(old(intents), i, Pending, Rejected, Some(who), Some(reason))
    {
      r := Transition(i, Pending, Rejected, Some(who), Some(reason));
    }

    method StartExecution(i: Id) returns (r: Result<Intent, EngineError>)
      requires Attached()
      modifies this`intents, this`history, gateway`requestToIntent, gateway`intentToRequest
      modifies gateway.approvals`requests, gateway.approvals`timers, gateway.approvals`events
      ensures gateway.View() == AdvanceIntent(old(gateway.View()), i, Approved, Executing, None)
      ensures r == TransitionResult(old(intents), i, Approved, Executing, None, None)
    {
      r := Transition(i, Approved, Executing, None, None);
    }

    method Complete(i: Id) returns (r: Result<Intent, EngineError>)
      requires Attached()
      modifies this`intents, this`history, gateway`requestToIntent, gateway`intentToRequest
      modifies gateway.approvals`requests, gateway.approvals`timers, gateway.approvals`events
      ensures gateway.View() == AdvanceIntent(old(gateway.View()), i, Executing, Completed, None)
      ensures r == TransitionResult(old(intents), i, Executing, Completed, None, None)
    {
      r := Transition(i, Executing, Completed, None, None);
    }

    method Fail(i: Id, reason: string) returns (r: Result<Intent, EngineError>)
      requires Attached()
      modifies this`intents, this`history, gateway`requestToIntent, gateway`intentToRequest
      modifies gateway.approvals`requests, gateway.approvals`timers, gateway.approvals`events
      ensures gateway.View() == AdvanceIntent(old(gateway.View()), i, Executing, Failed, Some(reason))
      ensures r == TransitionResult(old(intents), i, Executing, Failed, None, Some(reason))
    {
      r := Transition(i, Executing, Failed, None, Some(reason));
    }

    method Invalidate(i: Id, reason: string) returns (r: Result<Intent, EngineError>)
      requires Attached()
      modifies this`intents, this`history, gateway`requestToIntent, gateway`intentToRequest
      modifies gateway.approvals`requests, gateway.approvals`timers, gateway.approvals`events
      ensures gateway.View() == InvalidateIntent(old(gateway.View()), i, reason)
      ensures r.Ok? <==> i in old(intents) && !Terminal(old(intents)[i].status)
      ensures r.Ok? ==> r.value == old(intents)[i].(status := Invalidated, rejectionReason := Some(reason))
      ensures r.Err? ==>
                r.error == if i in old(intents) then WrongIntentStatus(old(intents)[i].status) else IntentNotFound
      decreases gateway.requestToIntent.Keys, gateway.intentToRequest.Keys, 6
    {
      if i !in intents {
        return Err(IntentNotFound);
      }
      var intent := intents[i];
      if Terminal(intent.status) {
        return Err(WrongIntentStatus(intent.status));
      }
      var updated := intent.(status := Invalidated, rejectionReason := Some(reason));
      Store(i, updated);
      return Ok(updated);
    }

    /** Forgets the terminal intents created before `cutoff`; returns how many there were. */
    method PurgeOld(cutoff: int) returns (count: nat)
      requires Attached()
      modifies this`intents
      ensures gateway.View() == PermissionWorld.PurgeOld(old(gateway.View()), cutoff)
      ensures count == |old(intents)| - |intents|
    {
      count := 0;
      var left := intents.Keys;
      ghost var before := intents;
      while left != {}
        invariant left <= before.Keys
        invariant intents ==
                  map i | i in before && (i in left || !OldAndDone(before[i], cutoff)) :: before[i]
        invariant count + |intents| == |before|
        decreases left
      {
        var i :| i in left;
        left := left - {i};
        if Terminal(intents[i].status) && intents[i].createdAt < cutoff {
          intents := intents - {i};
          count := count + 1;
        }
      }
    }

    /** Proposes an intent under the fresh id `i`; `r` is the id of the request it may need. */
    method Propose(i: Id, r: Id, p: Proposal) returns (res: Result<Intent, EngineError>)
      requires Attached() && i !in history && r !in gateway.approvals.events
      modifies this`intents, this`history, gateway`requestToIntent, gateway`intentToRequest, gateway`verdicts
      modifies gateway.approvals`requests, gateway.approvals`requiredCounts, gateway.approvals`timed
      modifies gateway.approvals`timers, gateway.approvals`events
      ensures gateway.View() == ProposeIntent(old(gateway.View()), i, r, p, gateway.Cfg())
      ensures res.Err? <==> ProposeThrows(old(gateway.View()), i, r, p, gateway.Cfg())
      ensures res.Ok? ==>
                res.value == if autoApproval.Some? && ShouldAutoApprove(NewIntent(p), autoApproval.value)
                             then Resolution(NewIntent(p), Approved, autoApproval.value.approverIdentity, None)
                             else NewIntent(p)
    {
      var intent := NewIntent(p);
      ghost var w := gateway.View();
      intents := intents[i := intent];
      history := history[i := [Pending]];
      assert [] + [Pending] == [Pending];
      assert gateway.View() == SetIntent(w, i, intent);
      gateway.HandleProposed(i, r, p);
      PendingIsUntouched(SetIntent(w, i, intent), i, r, p, gateway.Cfg());
      if autoApproval.Some? && ShouldAutoApprove(intent, autoApproval.value) {
        res := Approve(i, autoApproval.value.approverIdentity);
      } else {
        res := Ok(intent);
      }
    }
  }

  /** An intent still pending after the gateway has judged it is still the one proposed. */
  lemma PendingIsUntouched(w: World, i: Id, r: Id, p: Proposal, cfg: Config)
    requires IsPending(w, i)
    ensures var w' := PermissionWorld.HandleProposed(w, i, r, p, cfg);
            IsPending(w', i) ==> w'.intents[i] == w.intents[i]
  {
    DecideIsSound(w.mode, p.kind, p.assessed, p.sensitive, cfg.tables);
  }

  function TransitionResult(
    intents: map<Id, Intent>, i: Id, expected: IntentStatus, next: IntentStatus,
    who: Option<string>, reason: Option<string>)
    : Result<Intent, EngineError>
  {
    if i !in intents then Err(IntentNotFound)
    else if intents[i].status != expected then Err(WrongIntentStatus(intents[i].status))
    else Ok(intents[i].(status := next,
                        resolvedBy := if who.Some? then who else intents[i].resolvedBy,
                        rejectionReason := if reason.Some? then reason else intents[i].rejectionReason))
  }

  class ApprovalManager {
    var requests: map<Id, Request>
    var requiredCounts: map<Id, int>
    var timers: map<Id, TimerMode>  // the armed handles, with what each is armed for
    ghost var timed: set<Id>
    ghost var events: map<Id, seq<RequestEvent>>
    var gateway: PermissionGateway?

    constructor ()
      ensures requests == map[] && requiredCounts == map[] && timers == map[] && timed == {} && events == map[]
      ensures gateway == null
    {
      requests, requiredCounts, timers, timed, events, gateway := map[], map[], map[], {}, map[], null;
    }

    ghost predicate Attached()
      reads this, gateway, if gateway == null then {} else {gateway.engine, gateway.approvals, gateway.modes}
    {
      gateway != null && gateway.approvals == this && gateway.Wired()
    }

    method Finalize(r: Id, status: RequestStatus) returns (updated: Request)
      requires Attached() && r in requests && status != Waiting
      modifies this`requests, this`timers, this`events, gateway`requestToIntent, gateway`intentToRequest
      modifies gateway.engine`intents, gateway.engine`history
      ensures gateway.View() == ResolveRequest(old(gateway.View()), r, status, gateway.ids)
      ensures updated == old(requests[r]).(status := status)
      decreases gateway.requestToIntent.Keys, gateway.intentToRequest.Keys, 5
    {
      ghost var w := gateway.View();
      timers := timers - {r};
      updated := requests[r].(status := status);
      requests := requests[r := updated];
      events := events[r := (if r in events then events[r] else []) + [Resolved(status)]];
      assert gateway.View() == FinishRequest(w, r, status);
      if status == Granted || status == AutoGranted {
        gateway.HandleApproved(r, status);
      } else {
        gateway.HandleRejected(r, status);
      }
    }

    /** Looks up a request that can still be resolved. */
    method RequireWaiting(r: Id) returns (res: Result<Request, ApprovalError>)
      ensures res == WaitingResult(requests, r)
    {
      if r !in requests {
        return Err(RequestNotFound);
      }
      var request := requests[r];
      return if request.status == Waiting then Ok(request) else Err(AlreadyResolved(request.status));
    }

    method Cancel(r: Id) returns (res: Result<Request, ApprovalError>)
      requires Attached()
      modifies this`requests, this`timers, this`events, gateway`requestToIntent, gateway`intentToRequest
      modifies gateway.engine`intents, gateway.engine`history
      ensures gateway.View() == DenyRequest(old(gateway.View()), r, gateway.ids)
      ensures var found := WaitingResult(old(requests), r);
              res == if found.Ok? then Ok(found.value.(status := Denied)) else found
      decreases gateway.requestToIntent.Keys, gateway.intentToRequest.Keys, 6
    {
      res := RequireWaiting(r);
      if res.Ok? {
        var updated := Finalize(r, Denied);
        res := Ok(updated);
      }
    }

    /** As `Cancel`; the rejecter is not recorded. */
    method Reject(r: Id, rejecter: string) returns (res: Result<Request, ApprovalError>)
      requires Attached()
      modifies this`requests, this`timers, this`events, gateway`requestToIntent, gateway`intentToRequest
      modifies gateway.engine`intents, gateway.engine`history
      ensures gateway.View() == DenyRequest(old(gateway.View()), r, gateway.ids)
      ensures var found := WaitingResult(old(requests), r);
              res == if found.Ok? then Ok(found.value.(status := Denied)) else found
    {
      res := RequireWaiting(r);
      if res.Ok? {
        var updated := Finalize(r, Denied);
        res := Ok(updated);
      }
    }

    method Approve(r: Id, approver: string) returns (res: Result<Request, ApprovalError>)
      requires Attached()
      modifies this`requests, this`timers, this`events, gateway`requestToIntent, gateway`intentToRequest
      modifies gateway.engine`intents, gateway.engine`history
      ensures gateway.View() == ApproveRequest(old(gateway.View()), r, approver, gateway.ids)
      ensures res.Err? <==> WaitingResult(old(requests), r).Err?
      ensures res.Ok? ==>
                var names := AddApproval(old(requests[r].approvals), approver);
                var threshold := if r in requiredCounts then requiredCounts[r] else 1;
                res.value ==
                  old(requests[r]).(approvals := names, status := if |names| >= threshold then Granted else Waiting)
    {
      res := RequireWaiting(r);
      if res.Err? {
        return;
      }
      var request := res.value;
      if approver !in request.approvals {
        request := request.(approvals := request.approvals + [approver]);
      }
      requests := requests[r := request];
      var threshold := if r in requiredCounts then requiredCounts[r] else 1;
      if |request.approvals| >= threshold {
        request := Finalize(r, Granted);
      }
      return Ok(request);
    }

    /** An armed timer fires. */
    method Fire(r: Id)
      requires Attached() && r in timers
      modifies this`requests, this`timers, this`events, gateway`requestToIntent, gateway`intentToRequest
      modifies gateway.engine`intents, gateway.engine`history
      ensures gateway.View() == FireTimer(old(gateway.View()), r, gateway.ids)
    {
      if r in requests {
        var updated := Finalize(r, if timers[r] == Countdown then AutoGranted else Expired);
      }
    }

    /** Opens a request under the fresh id `r`. */
    method Open(r: Id, i: Id, countdownSec: real, timeoutSec: real, count: int) returns (request: Request)
      requires Attached() && r !in events
      modifies this`requests, this`requiredCounts, this`timers, this`timed, this`events
      ensures gateway.View() == OpenRequest(old(gateway.View()), r, i, countdownSec, timeoutSec, count)
      ensures r in requests && request == requests[r]
    {
      request := Request(i, [], countdownSec, Waiting);
      requests := requests[r := request];
      requiredCounts := requiredCounts[r := count];
      if countdownSec > 0.0 {
        timers, timed := timers[r := Countdown], timed + {r};
      } else if timeoutSec > 0.0 {
        timers, timed := timers[r := Timeout], timed + {r};
      }
      events := events[r := [Created]];
    }
  }

  function WaitingResult(requests: map<Id, Request>, r: Id): Result<Request, ApprovalError> {
    if r !in requests then Err(RequestNotFound)
    else if requests[r].status != Waiting then Err(AlreadyResolved(requests[r].status))
    else Ok(requests[r])
  }

  class ModeManager {
    var current: Mode
    var gateway: PermissionGateway?

    constructor (initial: Mode)
      ensures current == initial && gateway == null
    {
      current, gateway := initial, null;
    }

    method SetMode(next: Mode) returns (changed: bool)
      requires gateway != null && gateway.modes == this && gateway.Wired()
      modifies this`current, gateway`requestToIntent, gateway`intentToRequest
      modifies gateway.engine`intents, gateway.engine`history
      modifies gateway.approvals`requests, gateway.approvals`timers, gateway.approvals`events
      ensures gateway.View() == ChangeMode(old(gateway.View()), next)
      ensures changed == (next != old(current))
    {
      if next == current {
        return false;
      }
      current := next;
      gateway.HandleModeChanged();
      return true;
    }
  }

  class PermissionGateway {
    const engine: IntentEngine
    const approvals: ApprovalManager
    const modes: ModeManager
    const tables: Tables
    const ids: Identities
    var requestToIntent: map<Id, Id>
    var intentToRequest: map<Id, Id>
    ghost var verdicts: map<Id, Verdict>

    constructor (engine: IntentEngine, approvals: ApprovalManager, modes: ModeManager, tables: Tables, ids: Identities)
      ensures this.engine == engine && this.approvals == approvals && this.modes == modes
      ensures this.tables == tables && this.ids == ids
      ensures requestToIntent == map[] && intentToRequest == map[] && verdicts == map[]
    {
      this.engine, this.approvals, this.modes, this.tables, this.ids := engine, approvals, modes, tables, ids;
      requestToIntent, intentToRequest, verdicts := map[], map[], map[];
    }

    /** Subscribes to the three objects. */
    method Attach()
      modifies engine`gateway, approvals`gateway, modes`gateway
      ensures Wired()
    {
      engine.gateway, approvals.gateway, modes.gateway := this, this, this;
    }

    ghost predicate Wired()
      reads this, engine, approvals, modes
    {
      engine.gateway == this && approvals.gateway == this && modes.gateway == this
    }

    ghost function View(): World
      reads this, engine, approvals, modes
    {
      World(engine.intents, engine.history, approvals.requests, approvals.requiredCounts, approvals.timed,
            approvals.timers, approvals.events, requestToIntent, intentToRequest, verdicts, modes.current)
    }

    ghost function Cfg(): Config
    {
      Config(tables, ids, engine.autoApproval)
    }

    method ForgetPair(r: Id, i: Id)
      modifies this`requestToIntent, this`intentToRequest
      ensures View() == Forget(old(View()), r, i)
    {
      requestToIntent := requestToIntent - {r};
      intentToRequest := intentToRequest - {i};
    }

    /** The intent got resolved by the engine: cancel the request that was opened for it. */
    method DropRequestForIntent(i: Id)
      requires Wired()
      modifies this`requestToIntent, this`intentToRequest, engine`intents, engine`history
      modifies approvals`requests, approvals`timers, approvals`events
      ensures View() == DropRequest(old(View()), i)
      decreases requestToIntent.Keys, intentToRequest.Keys, 4
    {
      if i in intentToRequest {
        var r := intentToRequest[i];
        ForgetPair(r, i);
        var ignored := approvals.Cancel(r);
      }
    }

    method HandleApproved(r: Id, ghost status: RequestStatus)
      requires Wired() && (status == Granted || status == AutoGranted)
      modifies this`requestToIntent, this`intentToRequest, engine`intents, engine`history
      modifies approvals`requests, approvals`timers, approvals`events
      ensures View() == Echo(old(View()), r, status, ids)
      decreases requestToIntent.Keys, intentToRequest.Keys, 4
    {
      if r in requestToIntent {
        var i := requestToIntent[r];
        ForgetPair(r, i);
        SafeApprove(i, ids.manual);
      }
    }

    method HandleRejected(r: Id, status: RequestStatus)
      requires Wired() && (status == Denied || status == Expired)
      modifies this`requestToIntent, this`intentToRequest, engine`intents, engine`history
      modifies approvals`requests, approvals`timers, approvals`events
      ensures View() == Echo(old(View()), r, status, ids)
      decreases requestToIntent.Keys, intentToRequest.Keys, 4
    {
      if r in requestToIntent {
        var i := requestToIntent[r];
        ForgetPair(r, i);
        SafeReject(i, ids.manual, if status == Expired then TIMED_OUT else REJECTED);
      }
    }

    method SafeApprove(i: Id, who: string)
      requires Wired()
      modifies this`requestToIntent, this`intentToRequest, engine`intents, engine`history
      modifies approvals`requests, approvals`timers, approvals`events
      ensures View() == ResolveIntent(old(View()), i, Approved, who, None)
      decreases requestToIntent.Keys, intentToRequest.Keys, 7
    {
      if i in engine.intents && engine.intents[i].status == Pending {
        var ignored := engine.Transition(i, Pending, Approved, Some(who), None);
      }
    }

    method SafeReject(i: Id, who: string, reason: string)
      requires Wired()
      modifies this`requestToIntent, this`intentToRequest, engine`intents, engine`history
      modifies approvals`requests, approvals`timers, approvals`events
      ensures View() == ResolveIntent(old(View()), i, Rejected, who, Some(reason))
      decreases requestToIntent.Keys, intentToRequest.Keys, 7
    {
      if i in engine.intents && engine.intents[i].status == Pending {
        var ignored := engine.Transition(i, Pending, Rejected, Some(who), Some(reason));
      }
    }

    method SafeInvalidate(i: Id, reason: string)
      requires Wired()
      modifies this`requestToIntent, this`intentToRequest, engine`intents, engine`history
      modifies approvals`requests, approvals`timers, approvals`events
      ensures View() == InvalidateIntent(old(View()), i, reason)
      decreases requestToIntent.Keys, intentToRequest.Keys, 7
    {
      if i in engine.intents && !Terminal(engine.intents[i].status) {
        var ignored := engine.Invalidate(i, reason);
      }
    }

    method HandleProposed(i: Id, r: Id, p: Proposal)
      requires Wired() && r !in approvals.events
      modifies this`requestToIntent, this`intentToRequest, this`verdicts, engine`intents, engine`history
      modifies approvals`requests, approvals`requiredCounts, approvals`timed, approvals`timers, approvals`events
      ensures View() == PermissionWorld.HandleProposed(old(View()), i, r, p, Cfg())
    {
      if i !in engine.intents || engine.intents[i].status != Pending {
        return;
      }
      var decision := Decide(modes.current, p.kind, p.assessed, p.sensitive, tables);
      var required := tables.policies(modes.current).requiredApprovals;
      verdicts := verdicts[i := Verdict(Critical(p.assessed, p.sensitive), required, None)];
      match decision {
        case AutoApprove => SafeApprove(i, ids.auto);
        case AutoReject => SafeReject(i, ids.rejector, NOT_PERMITTED);
        case HoldPending =>
        case RequireApproval(countdownSec, timeoutSec, count) =>
          var request := approvals.Open(r, i, countdownSec, timeoutSec, count);
          requestToIntent := requestToIntent[r := i];
          intentToRequest := intentToRequest[i := r];
          verdicts := verdicts[i := verdicts[i].(request := Some(r))];
      }
    }

    method CancelAndInvalidate(r: Id, i: Id)
      requires Wired()
      modifies this`requestToIntent, this`intentToRequest, engine`intents, engine`history
      modifies approvals`requests, approvals`timers, approvals`events
      ensures View() == InvalidateIntent(DenyRequest(old(View()), r, ids), i, MODE_CHANGED)
      decreases requestToIntent.Keys, intentToRequest.Keys, 8
    {
      var ignored := approvals.Cancel(r);
      SafeInvalidate(i, MODE_CHANGED);
    }

    /** One round of the loop over the tracked pairs. */
    method ClearPair(ghost w: World, ghost done: map<Id, Id>, r: Id, i: Id)
      requires Wired() && View() == ClearTracked(w, done) && r !in done
      requires w.requestToIntent == map[] && w.intentToRequest == map[]
      modifies this`requestToIntent, this`intentToRequest, engine`intents, engine`history
      modifies approvals`requests, approvals`timers, approvals`events
      ensures View() == ClearTracked(w, done[r := i])
      decreases requestToIntent.Keys, intentToRequest.Keys, 9
    {
      ClearOneMore(w, done, r, i, ids);
      CancelAndInvalidate(r, i);
    }

    /** Cancels every tracked request and invalidates its intent, in whatever order the map yields. */
    method HandleModeChanged()
      requires Wired()
      modifies this`requestToIntent, this`intentToRequest, engine`intents, engine`history
      modifies approvals`requests, approvals`timers, approvals`events
      ensures View() ==
              ClearTracked(old(View()).(requestToIntent := map[], intentToRequest := map[]), old(requestToIntent))
    {
      var pairs := requestToIntent;
      requestToIntent, intentToRequest := map[], map[];
      ClearPairs(pairs);
    }

    /** The loop over the pairs, once both maps are empty. */
    method ClearPairs(pairs: map<Id, Id>)
      requires Wired() && requestToIntent == map[] && intentToRequest == map[]
      modifies this`requestToIntent, this`intentToRequest, engine`intents, engine`history
      modifies approvals`requests, approvals`timers, approvals`events
      ensures View() == ClearTracked(old(View()), pairs)
    {
      ghost var w := View();
      var left := pairs.Keys;
      ClearNothing(w);
      AllLeft(pairs);
      while left != {}
        invariant left <= pairs.Keys && View() == ClearTracked(w, pairs - left)
        decreases left
      {
        var r :| r in left;
        OneFewerLeft(pairs, left, r);
        ClearPair(w, pairs - left, r, pairs[r]);
        left := left - {r};
      }
      AllLeft(pairs);
    }
  }

  lemma AllLeft(pairs: map<Id, Id>)
    ensures pairs - pairs.Keys == map[] && pairs - {} == pairs
  {
  }

  lemma OneFewerLeft(pairs: map<Id, Id>, left: set<Id>, r: Id)
    requires r in left && left <= pairs.Keys
    ensures r !in pairs - left && (pairs - left)[r := pairs[r]] == pairs - (left - {r})
  {
  }

  lemma ClearNothing(w: World)
    ensures ClearTracked(w, map[]) == w
  {
    assert DenyAll(w.requests, map[]) == w.requests;
    assert DisarmAll(w.timers, w.requests, map[]) == w.timers;
    assert TellAll(w.events, w.requests, map[]) == w.events;
    assert InvalidateAll(w.intents, map[]) == w.intents;
    assert NoteAll(w.history, w.intents, map[]) == w.history;
  }

  /** Cancelling one more request and invalidating its intent extends the cleared part by that pair. */
  lemma ClearOneMore(w: World, done: map<Id, Id>, r: Id, i: Id, ids: Identities)
    requires w.requestToIntent == map[] && w.intentToRequest == map[]
    requires r !in done
    ensures InvalidateIntent(DenyRequest(ClearTracked(w, done), r, ids), i, MODE_CHANGED) ==
            ClearTracked(w, done[r := i])
  {
    DeniedOneMore(w.requests, done, r, i);
    DenyOneMore(w.requests, w.timers, done, r, i);
    TellOneMore(w.requests, w.events, done, r, i);
    InvalidateOneMore(w.intents, done, r, i);
    NoteOneMore(w.intents, w.history, done, r, i);
  }

  lemma DeniedOneMore(requests: map<Id, Request>, done: map<Id, Id>, r: Id, i: Id)
    requires r !in done
    ensures r in requests ==> r in DenyAll(requests, done) && DenyAll(requests, done)[r] == requests[r]
  {
  }

  lemma DenyOneMore(requests: map<Id, Request>, timers: map<Id, TimerMode>, done: map<Id, Id>, r: Id, i: Id)
    requires r !in done
    ensures
      var denied := DenyAll(requests, done);
      if r in requests && requests[r].status == Waiting then
        && DenyAll(requests, done[r := i]) == denied[r := denied[r].(status := Denied)]
        && DisarmAll(timers, requests, done[r := i]) == DisarmAll(timers, requests, done) - {r}
      else
        && DenyAll(requests, done[r := i]) == denied
        && DisarmAll(timers, requests, done[r := i]) == DisarmAll(timers, requests, done)
  {
  }

  lemma TellOneMore(requests: map<Id, Request>, events: map<Id, seq<RequestEvent>>, done: map<Id, Id>, r: Id, i: Id)
    requires r !in done
    ensures
      var told := TellAll(events, requests, done);
      TellAll(events, requests, done[r := i]) ==
        if r in requests && requests[r].status == Waiting
        then told[r := (if r in told then told[r] else []) + [Resolved(Denied)]] else told
  {
  }

  lemma InvalidateOneMore(intents: map<Id, Intent>, done: map<Id, Id>, r: Id, i: Id)
    requires r !in done
    ensures
      var now := InvalidateAll(intents, done);
      InvalidateAll(intents, done[r := i]) ==
        if i in now && !Terminal(now[i].status)
        then now[i := now[i].(status := Invalidated, rejectionReason := Some(MODE_CHANGED))] else now
  {
    MoreValues(done, r, i);
  }

  lemma NoteOneMore(intents: map<Id, Intent>, history: map<Id, seq<IntentStatus>>, done: map<Id, Id>, r: Id, i: Id)
    requires r !in done
    ensures
      var now, noted := InvalidateAll(intents, done), NoteAll(history, intents, done);
      NoteAll(history, intents, done[r := i]) ==
        if i in now && !Terminal(now[i].status)
        then noted[i := (if i in noted then noted[i] else []) + [Invalidated]] else noted
  {
    MoreValues(done, r, i);
  }

  lemma MoreValues(done: map<Id, Id>, r: Id, i: Id)
    requires r !in done
    ensures done[r := i].Values == done.Values + {i}
  {
    assert r in done[r := i];
    forall x | x in done.Values
      ensures x in done[r := i].Values
    {
      var q :| q in done && done[q] == x;
      assert q in done[r := i] && done[r := i][q] == x;
    }
  }
}
