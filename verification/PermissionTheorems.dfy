/** What the invariants of the permission protocol mean for its users, over whole runs. */
module PermissionTheorems {
  import opened Wrappers
  import opened PermissionChecker
  import opened PermissionWorld
  import opened PermissionSafety
  import opened ApprovalOrigins

  // ----- agreement of the gateway's maps -----

  /** The two maps are inverse to each other, every tracked pair is a waiting request for a pending
      intent, and every waiting request the gateway opened is tracked. */
  ghost predicate Agreement(w: World) {
    && (forall r, i ::
          (r in w.requestToIntent && w.requestToIntent[r] == i) <==>
          (i in w.intentToRequest && w.intentToRequest[i] == r))
    && (forall r :: r in w.requestToIntent ==>
          IsWaiting(w, r) && w.requests[r].intentId == w.requestToIntent[r] && IsPending(w, w.requestToIntent[r]))
    && (forall r :: OpenedByGateway(w, r) && IsWaiting(w, r) ==> r in w.requestToIntent)
  }

  lemma InvMeansAgreement(w: World)
    requires Inv(w)
    ensures Agreement(w)
  {
    forall r, i
      ensures (r in w.requestToIntent && w.requestToIntent[r] == i) <==>
              (i in w.intentToRequest && w.intentToRequest[i] == r)
    {
      assert PairOk(w, r) && BackOk(w, i);
    }
    forall r | r in w.requestToIntent
      ensures IsWaiting(w, r) && w.requests[r].intentId == w.requestToIntent[r] && IsPending(w, w.requestToIntent[r])
    {
      assert PairOk(w, r);
    }
    forall r | OpenedByGateway(w, r) && IsWaiting(w, r)
      ensures r in w.requestToIntent
    {
      assert TrackedOk(w, r);
    }
  }

  /** The maps agree with both sides whenever no call is in progress. */
  lemma MapsAgree(mode: Mode, ops: seq<Op>, cfg: Config)
    requires EnabledRun(Initial(mode), ops, cfg)
    ensures Agreement(Run(Initial(mode), ops, cfg))
  {
    RunKeeps(mode, ops, cfg);
    InvMeansAgreement(Run(Initial(mode), ops, cfg));
  }

  lemma TrackedIntents(w: World)
    requires Inv(w)
    ensures w.requestToIntent.Values == w.intentToRequest.Keys
    ensures forall i :: i in w.intentToRequest ==> IsPending(w, i)
  {
    forall i
      ensures i in w.requestToIntent.Values <==> i in w.intentToRequest
      ensures i in w.intentToRequest ==> IsPending(w, i)
    {
      assert BackOk(w, i);
      if i in w.intentToRequest {
        assert PairOk(w, w.intentToRequest[i]);
      }
      forall r | r in w.requestToIntent
        ensures w.requestToIntent[r] in w.intentToRequest
      {
        assert PairOk(w, r);
      }
    }
  }

  /** A mode change leaves nothing tracked: every tracked request ends denied with its timer cleared,
      every tracked intent ends invalidated, and nothing else changes. */
  lemma ModeChangeClears(w: World, next: Mode)
    requires Inv(w) && next != w.mode
    ensures
      var w' := ChangeMode(w, next);
      && w'.requestToIntent == map[] && w'.intentToRequest == map[]
      && (forall r :: r in w.requestToIntent ==>
            r in w'.requests && w'.requests[r] == w.requests[r].(status := Denied) && r !in w'.timers)
      && (forall r :: r in w.requests && r !in w.requestToIntent ==>
            r in w'.requests && w'.requests[r] == w.requests[r])
      && (forall i :: i in w.intentToRequest ==> i in w'.intents && w'.intents[i].status == Invalidated)
      && (forall i :: i in w.intents && i !in w.intentToRequest ==> i in w'.intents && w'.intents[i] == w.intents[i])
  {
    var w' := ChangeMode(w, next);
    forall r
      ensures r in w.requestToIntent ==>
                r in w'.requests && w'.requests[r] == w.requests[r].(status := Denied) && r !in w'.timers
    {
      assert PairOk(w, r);
    }
    TrackedIntents(w);
  }

  // ----- requests -----

  /** In every reachable state a request has emitted its creation and, exactly when it is resolved, one
      terminal event; its timer is armed exactly while it waits and was opened with one; and while it
      waits it holds fewer distinct approvals than its threshold. */
  lemma RequestLifecycle(mode: Mode, ops: seq<Op>, cfg: Config, r: Id)
    requires EnabledRun(Initial(mode), ops, cfg)
    requires r in Run(Initial(mode), ops, cfg).requests
    ensures
      var w := Run(Initial(mode), ops, cfg);
      && r in w.events && r in w.required
      && w.events[r] ==
         (if w.requests[r].status == Waiting then [Created] else [Created, Resolved(w.requests[r].status)])
      && (r in w.timers <==> w.requests[r].status == Waiting && r in w.timed)
      && NoRepeats(w.requests[r].approvals)
      && (w.requests[r].status == Waiting && w.required[r] >= 1 ==> |w.requests[r].approvals| < w.required[r])
      && (w.requests[r].status == Granted ==> |w.requests[r].approvals| >= w.required[r])
  {
    RunKeeps(mode, ops, cfg);
    At(Run(Initial(mode), ops, cfg), r, r);
  }

  // ----- what one step may change -----

  /** A resolved request is never touched again. */
  predicate RequestStep(w: World, w': World, r: Id) {
    r in w.requests && w.requests[r].status != Waiting ==> r in w'.requests && w'.requests[r] == w.requests[r]
  }

  predicate OneStepLonger(h: seq<IntentStatus>, h': seq<IntentStatus>)
    requires h != []
  {
    h' != [] && h' == h + [Last(h')] && LifecycleEdge(Last(h), Last(h'))
  }

  /** The history grows by at most one legal step; a terminal intent is never touched, only purged; the
      gateway's verdict stands. */
  predicate IntentStep(w: World, w': World, i: Id) {
    && HistoryStep(w.history, w'.history, i)
    && TerminalStays(w.intents, w'.intents, i)
    && (i in w.verdicts ==> i in w'.verdicts && w'.verdicts[i] == w.verdicts[i])
  }

  predicate HistoryStep(history: map<Id, seq<IntentStatus>>, history': map<Id, seq<IntentStatus>>, i: Id) {
    i in history && history[i] != [] ==>
      i in history' && (history'[i] == history[i] || OneStepLonger(history[i], history'[i]))
  }

  predicate TerminalStays(intents: map<Id, Intent>, intents': map<Id, Intent>, i: Id) {
    i in intents && Terminal(intents[i].status) && i in intents' ==> intents'[i] == intents[i]
  }

  ghost predicate Steps(w: World, w': World) {
    && (forall r {:trigger RequestStep(w, w', r)} :: RequestStep(w, w', r))
    && (forall i {:trigger IntentStep(w, w', i)} :: IntentStep(w, w', i))
  }

  lemma SetAndDropSteps(w: World, i: Id, intent: Intent)
    requires Inv(w) && i in w.intents && LifecycleEdge(w.intents[i].status, intent.status)
    ensures Steps(w, DropRequest(SetIntent(w, i, intent), i))
  {
    var w' := DropRequest(SetIntent(w, i, intent), i);
    assert IntentOk(w, i);
    forall x
      ensures RequestStep(w, w', x) && IntentStep(w, w', x)
    {
    }
  }

  lemma ResolveIntentSteps(w: World, i: Id, status: IntentStatus, who: string, reason: Option<string>)
    requires Inv(w) && (status == Approved || status == Rejected)
    ensures Steps(w, ResolveIntent(w, i, status, who, reason))
  {
    if IsPending(w, i) {
      SetAndDropSteps(w, i, Resolution(w.intents[i], status, who, reason));
    }
  }

  lemma AdvanceSteps(w: World, i: Id, from: IntentStatus, to: IntentStatus, reason: Option<string>)
    requires Inv(w) && LifecycleEdge(from, to)
    ensures Steps(w, AdvanceIntent(w, i, from, to, reason))
  {
    var w' := AdvanceIntent(w, i, from, to, reason);
    assert IntentOk(w, i);
    forall x
      ensures RequestStep(w, w', x) && IntentStep(w, w', x)
    {
    }
  }

  lemma OpenSteps(w: World, r: Id, i: Id, countdownSec: real, timeoutSec: real, count: int)
    requires Inv(w) && r !in w.events
    ensures Steps(w, OpenRequest(w, r, i, countdownSec, timeoutSec, count))
  {
    assert EventsOk(w, r);
  }

  lemma ResolveRequestSteps(w: World, r: Id, status: RequestStatus, ids: Identities)
    requires IntentsInv(w) && PairsInv(w) && IsWaiting(w, r)
    ensures Steps(w, ResolveRequest(w, r, status, ids))
  {
    var w' := ResolveRequest(w, r, status, ids);
    forall x
      ensures RequestStep(w, w', x) && IntentStep(w, w', x)
    {
      ResolveRequestStep(w, r, status, ids, x);
      ResolveIntentStep(w, r, status, ids, x);
    }
  }

  lemma ResolveRequestStep(w: World, r: Id, status: RequestStatus, ids: Identities, x: Id)
    requires IntentsInv(w) && PairsInv(w) && IsWaiting(w, r)
    ensures RequestStep(w, ResolveRequest(w, r, status, ids), x)
  {
    assert PairOk(w, r);
  }

  lemma SetIntentStep(w: World, i: Id, intent: Intent, x: Id)
    requires IntentOk(w, i) && i in w.intents && LifecycleEdge(w.intents[i].status, intent.status)
    ensures IntentStep(w, SetIntent(w, i, intent), x)
  {
  }

  /** What a resolved request does to intents, histories and verdicts. */
  lemma EchoIntents(w: World, r: Id, status: RequestStatus, ids: Identities)
    requires r in w.requests && r in w.requestToIntent
    ensures var w' := ResolveRequest(w, r, status, ids);
            var i := w.requestToIntent[r];
            var w1 := if IsPending(w, i) then SetIntent(w, i, EchoResolution(w.intents[i], status, ids)) else w;
            w'.intents == w1.intents && w'.history == w1.history && w'.verdicts == w1.verdicts
  {
  }

  lemma ResolveIntentStep(w: World, r: Id, status: RequestStatus, ids: Identities, x: Id)
    requires IntentsInv(w) && IsWaiting(w, r)
    ensures IntentStep(w, ResolveRequest(w, r, status, ids), x)
  {
    if r in w.requestToIntent {
      EchoIntents(w, r, status, ids);
      var i := w.requestToIntent[r];
      if IsPending(w, i) {
        assert IntentOk(w, i);
        SetIntentStep(w, i, EchoResolution(w.intents[i], status, ids), x);
      }
    }
  }

  /** Recording an approval on a waiting request first makes no difference to what the step changes. */
  lemma RecordSteps(w: World, r: Id, approvals: seq<string>, w': World)
    requires IsWaiting(w, r)
    requires Steps(w.(requests := w.requests[r := w.requests[r].(approvals := approvals)]), w')
    ensures Steps(w, w')
  {
    var w1 := w.(requests := w.requests[r := w.requests[r].(approvals := approvals)]);
    forall x
      ensures RequestStep(w, w', x) && IntentStep(w, w', x)
    {
      assert RequestStep(w1, w', x) && IntentStep(w1, w', x);
    }
  }

  lemma ApproveSteps(w: World, r: Id, who: string, ids: Identities)
    requires Inv(w)
    ensures Steps(w, ApproveRequest(w, r, who, ids))
  {
    if IsWaiting(w, r) {
      var approvals := AddApproval(w.requests[r].approvals, who);
      var w1 := w.(requests := w.requests[r := w.requests[r].(approvals := approvals)]);
      assert ApprovalsOk(w, r);
      AddApprovalFacts(w.requests[r].approvals, who);
      RecordKeeps(w, r, approvals);
      if ApproveRequest(w, r, who, ids) == w1 {
        RecordSteps(w, r, approvals, w1);
      } else {
        ResolveRequestSteps(w1, r, Granted, ids);
        RecordSteps(w, r, approvals, ResolveRequest(w1, r, Granted, ids));
      }
    }
  }

  lemma FireSteps(w: World, r: Id, ids: Identities)
    requires Inv(w)
    ensures Steps(w, FireTimer(w, r, ids))
  {
    assert TimerOk(w, r);
    if r in w.timers {
      ResolveRequestSteps(w, r, if w.timers[r] == Countdown then AutoGranted else Expired, ids);
    }
  }

  lemma ChangeModeSteps(w: World, next: Mode)
    requires Inv(w)
    ensures Steps(w, ChangeMode(w, next))
  {
    var w' := ChangeMode(w, next);
    forall x
      ensures RequestStep(w, w', x)
    {
    }
    forall x
      ensures IntentStep(w, w', x)
    {
      if w' != w {
        ClearIntentStep(w, w', x);
      }
    }
  }

  lemma ClearIntentStep(w: World, w': World, i: Id)
    requires IntentsInv(w)
    requires w'.history == NoteAll(w.history, w.intents, w.requestToIntent)
    requires w'.intents == InvalidateAll(w.intents, w.requestToIntent)
    requires w'.verdicts == w.verdicts
    ensures IntentStep(w, w', i)
  {
    assert IntentOk(w, i);
    NoteAllStep(w.history, w.intents, w.requestToIntent, i);
    InvalidateAllStep(w.intents, w.requestToIntent, i);
  }

  lemma NoteAllStep(history: map<Id, seq<IntentStatus>>, intents: map<Id, Intent>, pairs: map<Id, Id>, i: Id)
    requires i in intents ==> i in history && history[i] != [] && Last(history[i]) == intents[i].status
    ensures HistoryStep(history, NoteAll(history, intents, pairs), i)
  {
  }

  lemma InvalidateAllStep(intents: map<Id, Intent>, pairs: map<Id, Id>, i: Id)
    ensures TerminalStays(intents, InvalidateAll(intents, pairs), i)
  {
  }

  /** Nothing but intent `i` and some waiting requests may differ. */
  ghost predicate SameBut(w: World, w': World, i: Id) {
    && (forall r {:trigger RequestStep(w, w', r)} :: RequestStep(w, w', r))
    && (forall j {:trigger SameAt(w, w', j)} :: j != i ==> SameAt(w, w', j))
  }

  predicate SameAt(w: World, w': World, j: Id) {
    && (j in w.history <==> j in w'.history) && (j in w.history ==> w'.history[j] == w.history[j])
    && (j in w.intents <==> j in w'.intents) && (j in w.intents ==> w'.intents[j] == w.intents[j])
    && (j in w.verdicts <==> j in w'.verdicts) && (j in w.verdicts ==> w'.verdicts[j] == w.verdicts[j])
  }

  lemma SameButTransitive(w: World, w': World, w'': World, i: Id)
    requires SameBut(w, w', i) && SameBut(w', w'', i)
    ensures SameBut(w, w'', i)
  {
    forall x
      ensures RequestStep(w, w'', x) && (x != i ==> SameAt(w, w'', x))
    {
      assert RequestStep(w, w', x) && RequestStep(w', w'', x);
      assert x != i ==> SameAt(w, w', x) && SameAt(w', w'', x);
    }
  }

  lemma DropRequestSameBut(w: World, i: Id)
    ensures SameBut(w, DropRequest(w, i), i)
  {
    var w' := DropRequest(w, i);
    assert w'.intents == w.intents && w'.history == w.history && w'.verdicts == w.verdicts;
  }

  lemma SetIntentSameBut(w: World, i: Id, intent: Intent)
    ensures SameBut(w, SetIntent(w, i, intent), i)
  {
  }

  lemma ResolveIntentSameBut(w: World, i: Id, status: IntentStatus, who: string, reason: Option<string>)
    ensures SameBut(w, ResolveIntent(w, i, status, who, reason), i)
  {
    if IsPending(w, i) {
      var w1 := SetIntent(w, i, Resolution(w.intents[i], status, who, reason));
      SetIntentSameBut(w, i, Resolution(w.intents[i], status, who, reason));
      DropRequestSameBut(w1, i);
      SameButTransitive(w, w1, DropRequest(w1, i), i);
    }
  }

  lemma JudgementSameBut(w: World, i: Id, v: Verdict)
    ensures SameBut(w, w.(verdicts := w.verdicts[i := v]), i)
  {
  }

  lemma TrackingSameBut(w: World, i: Id, r: Id, countdownSec: real, timeoutSec: real, count: int, v: Verdict)
    requires r !in w.requests
    ensures
      var w1 := OpenRequest(w, r, i, countdownSec, timeoutSec, count);
      SameBut(w, w1.(requestToIntent := w1.requestToIntent[r := i], intentToRequest := w1.intentToRequest[i := r],
                     verdicts := w1.verdicts[i := v]), i)
  {
  }

  lemma HandleProposedSameBut(w: World, i: Id, r: Id, p: Proposal, cfg: Config)
    requires r !in w.requests
    ensures SameBut(w, HandleProposed(w, i, r, p, cfg), i)
  {
    if IsPending(w, i) {
      var v := Verdict(Critical(p.assessed, p.sensitive), cfg.tables.policies(w.mode).requiredApprovals, None);
      var judged := w.(verdicts := w.verdicts[i := v]);
      JudgementSameBut(w, i, v);
      match Decide(w.mode, p.kind, p.assessed, p.sensitive, cfg.tables)
      case AutoApprove =>
        ResolveIntentSameBut(judged, i, Approved, cfg.ids.auto, None);
        SameButTransitive(w, judged, ResolveIntent(judged, i, Approved, cfg.ids.auto, None), i);
      case AutoReject =>
        ResolveIntentSameBut(judged, i, Rejected, cfg.ids.rejector, Some(NOT_PERMITTED));
        SameButTransitive(w, judged, ResolveIntent(judged, i, Rejected, cfg.ids.rejector, Some(NOT_PERMITTED)), i);
      case HoldPending =>
      case RequireApproval(countdown, timeout, count) =>
        TrackingSameBut(judged, i, r, countdown, timeout, count, v.(request := Some(r)));
        SameButTransitive(w, judged, HandleProposed(w, i, r, p, cfg), i);
    }
  }

  lemma ApplyPolicySameBut(w: World, i: Id, p: Proposal, policy: Option<AutoApproval>)
    ensures SameBut(w, ApplyPolicy(w, i, p, policy), i)
  {
    if policy.Some? {
      ResolveIntentSameBut(w, i, Approved, policy.value.approverIdentity, None);
    }
  }

  lemma ProposeSameBut(w: World, i: Id, r: Id, p: Proposal, cfg: Config)
    requires r !in w.requests
    ensures SameBut(w, ProposeIntent(w, i, r, p, cfg), i)
  {
    var w0 := SetIntent(w, i, NewIntent(p));
    var w1 := HandleProposed(w0, i, r, p, cfg);
    SetIntentSameBut(w, i, NewIntent(p));
    HandleProposedSameBut(w0, i, r, p, cfg);
    SameButTransitive(w, w0, w1, i);
    ApplyPolicySameBut(w1, i, p, cfg.autoApproval);
    SameButTransitive(w, w1, ApplyPolicy(w1, i, p, cfg.autoApproval), i);
  }

  lemma ProposeSteps(w: World, i: Id, r: Id, p: Proposal, cfg: Config)
    requires Inv(w) && Enabled(w, DoPropose(i, r, p))
    ensures Steps(w, ProposeIntent(w, i, r, p, cfg))
  {
    assert EventsOk(w, r) && IntentOk(w, i);
    var w' := ProposeIntent(w, i, r, p, cfg);
    ProposeSameBut(w, i, r, p, cfg);
    forall x
      ensures RequestStep(w, w', x) && IntentStep(w, w', x)
    {
      assert x != i ==> SameAt(w, w', x);
    }
  }

  lemma StepSteps(w: World, op: Op, cfg: Config)
    requires Inv(w) && Enabled(w, op)
    ensures Steps(w, Step(w, op, cfg))
  {
    match op
    case DoPropose(i, r, p) => ProposeSteps(w, i, r, p, cfg);
    case EngineApprove(i, who) => ResolveIntentSteps(w, i, Approved, who, None);
    case EngineReject(i, who, reason) => ResolveIntentSteps(w, i, Rejected, who, Some(reason));
    case StartExecution(i) => AdvanceSteps(w, i, Approved, Executing, None);
    case CompleteIntent(i) => AdvanceSteps(w, i, Executing, Completed, None);
    case FailIntent(i, reason) => AdvanceSteps(w, i, Executing, Failed, Some(reason));
    case Invalidate(i, reason) =>
      if i in w.intents && !Terminal(w.intents[i].status) {
        SetAndDropSteps(w, i, w.intents[i].(status := Invalidated, rejectionReason := Some(reason)));
      }
    case Purge(cutoff) =>
    case Open(r, i, countdown, timeout, count) => OpenSteps(w, r, i, countdown, timeout, count);
    case Approve(r, who) => ApproveSteps(w, r, who, cfg.ids);
    case Deny(r) =>
      if IsWaiting(w, r) {
        ResolveRequestSteps(w, r, Denied, cfg.ids);
      }
    case Fire(r) => FireSteps(w, r, cfg.ids);
    case SetMode(mode) => ChangeModeSteps(w, mode);
  }

  /** Over any run each intent's statuses form a path of the documented life cycle, and the stored
      status is where the path ends. */
  lemma HistoriesAreLegal(mode: Mode, ops: seq<Op>, cfg: Config, i: Id)
    requires EnabledRun(Initial(mode), ops, cfg)
    ensures
      var w := Run(Initial(mode), ops, cfg);
      && (i in w.history ==> LegalHistory(w.history[i]))
      && (i in w.intents ==> i in w.history && w.history[i] != [] && Last(w.history[i]) == w.intents[i].status)
  {
    RunKeeps(mode, ops, cfg);
    At(Run(Initial(mode), ops, cfg), i, i);
  }

  predicate TerminalHistory(w: World, i: Id) {
    i in w.history && w.history[i] != [] && Terminal(Last(w.history[i]))
  }

  lemma TerminalStep(w: World, w': World, i: Id)
    requires IntentOk(w, i) && IntentStep(w, w', i) && TerminalHistory(w, i)
    requires i in w'.intents ==> i in w.intents
    ensures i in w'.history && w'.history[i] == w.history[i]
    ensures i in w'.intents ==> w'.intents[i] == w.intents[i]
  {
  }

  /** Once an intent is terminal, no continuation of the run changes its history, its status or who
      resolved it. */
  lemma {:induction false} TerminalForever(w: World, ops: seq<Op>, cfg: Config, i: Id)
    requires Inv(w) && EnabledRun(w, ops, cfg) && TerminalHistory(w, i)
    ensures
      var w' := Run(w, ops, cfg);
      && Inv(w')
      && i in w'.history && w'.history[i] == w.history[i]
      && (i in w'.intents ==> i in w.intents && w'.intents[i] == w.intents[i])
  {
    if ops != [] {
      var front, last := ops[..|ops| - 1], ops[|ops| - 1];
      TerminalForever(w, front, cfg, i);
      var w1 := Run(w, front, cfg);
      StepKeeps(w1, last, cfg);
      StepSteps(w1, last, cfg);
      NoReturn(w1, last, cfg, i);
      assert IntentOk(w1, i) && IntentStep(w1, Step(w1, last, cfg), i);
      TerminalStep(w1, Step(w1, last, cfg), i);
    }
  }

  /** A purged intent does not come back. */
  lemma NoReturn(w: World, op: Op, cfg: Config, i: Id)
    requires Inv(w) && Enabled(w, op) && i in w.history
    ensures i in Step(w, op, cfg).intents ==> i in w.intents
  {
    match op
    case DoPropose(j, r, p) =>
      assert EventsOk(w, r);
      ProposeSameBut(w, j, r, p, cfg);
      assert SameAt(w, ProposeIntent(w, j, r, p, cfg), i);
    case Approve(r, _) => RequestsReturnNothing(w, op, cfg, r, i);
    case Deny(r) => RequestsReturnNothing(w, op, cfg, r, i);
    case Fire(r) => RequestsReturnNothing(w, op, cfg, r, i);
    case _ =>
  }

  lemma RequestsReturnNothing(w: World, op: Op, cfg: Config, r: Id, i: Id)
    requires PairsInv(w) && (op.Approve? || op == Deny(r) || op == Fire(r)) && (op.Approve? ==> op.r == r)
    ensures i in Step(w, op, cfg).intents ==> i in w.intents
  {
    assert PairOk(w, r);
  }

  // ----- critical intents -----

  /** `propose` throws exactly when the engine's own policy would approve an intent that the gateway
      has just rejected. */
  lemma ProposeThrowsIff(w: World, i: Id, r: Id, p: Proposal, cfg: Config)
    requires Inv(w) && Enabled(w, DoPropose(i, r, p))
    ensures ProposeThrows(w, i, r, p, cfg) <==>
            && cfg.autoApproval.Some? && ShouldAutoApprove(NewIntent(p), cfg.autoApproval.value)
            && !Permitted(w.mode, p.kind, cfg.tables)
  {
    DecideIsSound(w.mode, p.kind, p.assessed, p.sensitive, cfg.tables);
    TrackedIntentIsKnown(w, i);
  }

  /** It does throw under the default rules: in `Ask` mode the first proposal of all is rejected by the
      gateway, and then a policy that allows safe intents tries to approve it. */
  lemma AskModeThrows(i: Id, r: Id, kind: IntentType, cfg: Config)
    requires cfg.tables.rules == DefaultRules
    requires cfg.autoApproval == Some(AutoApproval(true, [Safe], None, 0.0, "policy"))
    ensures
      var p := Proposal(kind, Safe, 1.0, Safe, false, 0);
      Enabled(Initial(Ask), DoPropose(i, r, p)) && ProposeThrows(Initial(Ask), i, r, p, cfg)
  {
    InitialInv(Ask);
    ProposeThrowsIff(Initial(Ask), i, r, Proposal(kind, Safe, 1.0, Safe, false, 0), cfg);
  }

  /** The run never approves an intent behind the gateway's back. */
  predicate ThroughGateway(ops: seq<Op>, cfg: Config) {
    cfg.autoApproval.None? && forall k :: 0 <= k < |ops| ==> !ops[k].EngineApprove?
  }

  /** An approved critical intent has a granted request. */
  predicate EvidenceOk(w: World, i: Id) {
    i in w.verdicts && w.verdicts[i].critical && i in w.history && Approved in w.history[i] ==>
      && w.verdicts[i].request.Some?
      && w.verdicts[i].request.value in w.requests
      && w.requests[w.verdicts[i].request.value].status == Granted
  }

  ghost predicate Evidence(w: World) {
    forall i {:trigger EvidenceOk(w, i)} :: EvidenceOk(w, i)
  }

  /** The step does not approve the intent, or grants the request that it approves it by. */
  predicate NoNewApproval(w: World, w': World, i: Id) {
    i in w'.verdicts && w'.verdicts[i].critical && i in w'.history && Approved in w'.history[i] ==>
      || (i in w.history && Approved in w.history[i] && i in w.verdicts && w'.verdicts[i] == w.verdicts[i])
      || EvidenceOk(w', i)
  }

  lemma EvidenceSurvives(w: World, w': World, i: Id)
    requires EvidenceOk(w, i) && Steps(w, w') && NoNewApproval(w, w', i)
    ensures EvidenceOk(w', i)
  {
    if i in w.verdicts && w.verdicts[i].request.Some? {
      assert RequestStep(w, w', w.verdicts[i].request.value);
    }
  }

  /** Only a granted request, or a fired countdown, approves; and critical intents have no countdown. */
  lemma ResolveRequestEvidence(w: World, r: Id, status: RequestStatus, ids: Identities, i: Id)
    requires IntentsInv(w) && PairsInv(w) && IsWaiting(w, r)
    requires status == AutoGranted ==> w.requests[r].countdownSec > 0.0
    ensures NoNewApproval(w, ResolveRequest(w, r, status, ids), i)
  {
    assert PairOk(w, r) && VerdictOk(w, i);
  }

  lemma ApproveEvidence(w: World, r: Id, who: string, ids: Identities, i: Id)
    requires Inv(w)
    ensures NoNewApproval(w, ApproveRequest(w, r, who, ids), i)
  {
    if IsWaiting(w, r) {
      var approvals := AddApproval(w.requests[r].approvals, who);
      assert ApprovalsOk(w, r);
      AddApprovalFacts(w.requests[r].approvals, who);
      RecordKeeps(w, r, approvals);
      var w1 := w.(requests := w.requests[r := w.requests[r].(approvals := approvals)]);
      ResolveRequestEvidence(w1, r, Granted, ids, i);
    }
  }

  lemma ProposeEvidence(w: World, j: Id, r: Id, p: Proposal, cfg: Config, i: Id)
    requires Inv(w) && Enabled(w, DoPropose(j, r, p)) && cfg.autoApproval.None?
    ensures NoNewApproval(w, ProposeIntent(w, j, r, p, cfg), i)
  {
    if i == j {
      FreshProposalIsNotApproved(w, j, r, p, cfg);
    } else {
      assert EventsOk(w, r);
      ProposeSameBut(w, j, r, p, cfg);
      assert SameAt(w, ProposeIntent(w, j, r, p, cfg), i);
    }
  }

  lemma EngineEvidence(w: World, op: Op, cfg: Config, i: Id)
    requires op.EngineReject? || op.StartExecution? || op.CompleteIntent? || op.FailIntent? || op.Invalidate?
    ensures NoNewApproval(w, Step(w, op, cfg), i)
  {
  }

  lemma QuietEvidence(w: World, op: Op, cfg: Config, i: Id)
    requires Inv(w) && Enabled(w, op) && (op.Purge? || op.Open? || op.SetMode?)
    ensures NoNewApproval(w, Step(w, op, cfg), i)
  {
    match op
    case Open(r, j, countdownSec, timeoutSec, count) => OpenEvidence(w, r, j, countdownSec, timeoutSec, count, i);
    case SetMode(next) => ModeEvidence(w, next, i);
    case Purge(_) =>
  }

  lemma OpenEvidence(w: World, r: Id, j: Id, countdownSec: real, timeoutSec: real, count: int, i: Id)
    ensures NoNewApproval(w, OpenRequest(w, r, j, countdownSec, timeoutSec, count), i)
  {
  }

  lemma NoteAllApproves(history: map<Id, seq<IntentStatus>>, intents: map<Id, Intent>, pairs: map<Id, Id>, i: Id)
    ensures var noted := NoteAll(history, intents, pairs);
            i in noted && Approved in noted[i] ==> i in history && Approved in history[i]
  {
  }

  lemma ModeEvidence(w: World, next: Mode, i: Id)
    ensures NoNewApproval(w, ChangeMode(w, next), i)
  {
    NoteAllApproves(w.history, w.intents, w.requestToIntent, i);
  }

  lemma FireEvidence(w: World, r: Id, cfg: Config, i: Id)
    requires Inv(w) && Enabled(w, Fire(r))
    ensures NoNewApproval(w, Step(w, Fire(r), cfg), i)
  {
    assert TimerOk(w, r);
    ResolveRequestEvidence(w, r, if w.timers[r] == Countdown then AutoGranted else Expired, cfg.ids, i);
  }

  lemma StepEvidence(w: World, op: Op, cfg: Config, i: Id)
    requires Inv(w) && Enabled(w, op) && cfg.autoApproval.None? && !op.EngineApprove?
    ensures NoNewApproval(w, Step(w, op, cfg), i)
  {
    match op
    case DoPropose(j, r, p) => ProposeEvidence(w, j, r, p, cfg, i);
    case Approve(r, who) => ApproveEvidence(w, r, who, cfg.ids, i);
    case Deny(r) =>
      if IsWaiting(w, r) {
        ResolveRequestEvidence(w, r, Denied, cfg.ids, i);
      }
    case Fire(r) => FireEvidence(w, r, cfg, i);
    case Purge(_) => QuietEvidence(w, op, cfg, i);
    case Open(_, _, _, _, _) => QuietEvidence(w, op, cfg, i);
    case SetMode(_) => QuietEvidence(w, op, cfg, i);
    case _ => EngineEvidence(w, op, cfg, i);
  }

  lemma FreshProposalIsNotApproved(w: World, i: Id, r: Id, p: Proposal, cfg: Config)
    requires Enabled(w, DoPropose(i, r, p)) && cfg.autoApproval.None?
    ensures
      var w' := ProposeIntent(w, i, r, p, cfg);
      i in w'.history && Approved !in w'.history[i]
  {
    DecideIsSound(w.mode, p.kind, p.assessed, p.sensitive, cfg.tables);
  }

  lemma {:induction false} RunEvidence(mode: Mode, ops: seq<Op>, cfg: Config)
    requires EnabledRun(Initial(mode), ops, cfg) && ThroughGateway(ops, cfg)
    ensures Evidence(Run(Initial(mode), ops, cfg))
  {
    if ops != [] {
      var front, last := ops[..|ops| - 1], ops[|ops| - 1];
      RunEvidence(mode, front, cfg);
      RunKeeps(mode, front, cfg);
      EvidenceKeeps(Run(Initial(mode), front, cfg), last, cfg);
    }
  }

  lemma EvidenceKeeps(w: World, op: Op, cfg: Config)
    requires Inv(w) && Evidence(w) && Enabled(w, op) && cfg.autoApproval.None? && !op.EngineApprove?
    ensures Evidence(Step(w, op, cfg))
  {
    var w' := Step(w, op, cfg);
    StepSteps(w, op, cfg);
    forall i
      ensures EvidenceOk(w', i)
    {
      StepEvidence(w, op, cfg, i);
      assert EvidenceOk(w, i);
      EvidenceSurvives(w, w', i);
    }
  }

  lemma ResolveIntentKeepsVerdicts(w: World, i: Id, status: IntentStatus, who: string, reason: Option<string>)
    ensures ResolveIntent(w, i, status, who, reason).verdicts == w.verdicts
  {
  }

  /** The verdict recorded for a proposal is the one the tables give in the mode of that moment. */
  lemma VerdictIsThePolicys(w: World, i: Id, r: Id, p: Proposal, cfg: Config)
    ensures
      var w' := ProposeIntent(w, i, r, p, cfg);
      && i in w'.verdicts
      && w'.verdicts[i].critical == Critical(p.assessed, p.sensitive)
      && w'.verdicts[i].required == cfg.tables.policies(w.mode).requiredApprovals
      && (w'.verdicts[i].request.Some? ==> w'.verdicts[i].request.value == r)
  {
    var w0 := SetIntent(w, i, NewIntent(p));
    HandleProposedVerdict(w0, i, r, p, cfg);
    var w1 := HandleProposed(w0, i, r, p, cfg);
    if cfg.autoApproval.Some? {
      ResolveIntentKeepsVerdicts(w1, i, Approved, cfg.autoApproval.value.approverIdentity, None);
    }
    assert ApplyPolicy(w1, i, p, cfg.autoApproval).verdicts == w1.verdicts;
  }

  lemma HandleProposedVerdict(w: World, i: Id, r: Id, p: Proposal, cfg: Config)
    requires IsPending(w, i)
    ensures
      var w' := HandleProposed(w, i, r, p, cfg);
      && i in w'.verdicts
      && w'.verdicts[i].critical == Critical(p.assessed, p.sensitive)
      && w'.verdicts[i].required == cfg.tables.policies(w.mode).requiredApprovals
      && (w'.verdicts[i].request.Some? ==> w'.verdicts[i].request.value == r)
  {
    var v := Verdict(Critical(p.assessed, p.sensitive), cfg.tables.policies(w.mode).requiredApprovals, None);
    var judged := w.(verdicts := w.verdicts[i := v]);
    match Decide(w.mode, p.kind, p.assessed, p.sensitive, cfg.tables)
    case AutoApprove => ResolveIntentKeepsVerdicts(judged, i, Approved, cfg.ids.auto, None);
    case AutoReject => ResolveIntentKeepsVerdicts(judged, i, Rejected, cfg.ids.rejector, Some(NOT_PERMITTED));
    case HoldPending =>
    case RequireApproval(_, _, _) =>
  }

  /** It stands for the rest of the run. */
  lemma {:induction false} VerdictStands(mode: Mode, ops: seq<Op>, cfg: Config, k: nat)
    requires EnabledRun(Initial(mode), ops, cfg) && k < |ops| && ops[k].DoPropose?
    ensures
      var w, i, p := Run(Initial(mode), ops, cfg), ops[k].i, ops[k].p;
      && i in w.verdicts
      && w.verdicts[i].critical == Critical(p.assessed, p.sensitive)
      && w.verdicts[i].required == cfg.tables.policies(Run(Initial(mode), ops[..k], cfg).mode).requiredApprovals
      && (w.verdicts[i].request.Some? ==> w.verdicts[i].request.value == ops[k].r)
  {
    var front, last := ops[..|ops| - 1], ops[|ops| - 1];
    var w := Run(Initial(mode), front, cfg);
    if k == |ops| - 1 {
      VerdictIsThePolicys(w, ops[k].i, ops[k].r, ops[k].p, cfg);
    } else {
      VerdictStands(mode, front, cfg, k);
      assert front[..k] == ops[..k];
      RunKeeps(mode, front, cfg);
      StepSteps(w, last, cfg);
      assert IntentStep(w, Step(w, last, cfg), ops[k].i);
    }
  }

  /** In every run without an engine policy and without direct engine approvals: an intent that was
      judged sensitive or dangerous when it was proposed is approved only by the request its proposal
      opened, granted (not by a countdown) by at least the number of distinct approvers that the policy
      of the mode of its proposal asks for, each of whom called for it after the proposal. */
  lemma CriticalNeedsApprovers(mode: Mode, ops: seq<Op>, cfg: Config, k: nat)
    requires EnabledRun(Initial(mode), ops, cfg) && ThroughGateway(ops, cfg)
    requires k < |ops| && ops[k].DoPropose? && Critical(ops[k].p.assessed, ops[k].p.sensitive)
    requires
      var w := Run(Initial(mode), ops, cfg);
      ops[k].i in w.history && Approved in w.history[ops[k].i]
    ensures
      var w, r := Run(Initial(mode), ops, cfg), ops[k].r;
      && r in w.requests && w.requests[r].intentId == ops[k].i && w.requests[r].status == Granted
      && NoRepeats(w.requests[r].approvals)
      && |w.requests[r].approvals| >= cfg.tables.policies(Run(Initial(mode), ops[..k], cfg).mode).requiredApprovals
      && |w.requests[r].approvals| >= 1
      && (forall who :: who in w.requests[r].approvals ==> ApprovesFrom(ops, k + 1, r, who))
  {
    var w, r := Run(Initial(mode), ops, cfg), ops[k].r;
    RunKeeps(mode, ops, cfg);
    RunEvidence(mode, ops, cfg);
    VerdictStands(mode, ops, cfg, k);
    GrantedRequest(w, ops[k].i);
    forall who | who in w.requests[r].approvals
      ensures ApprovesFrom(ops, k + 1, r, who)
    {
      ApproverCalledLater(mode, ops, cfg, k, who);
    }
  }

  lemma GrantedRequest(w: World, i: Id)
    requires Inv(w) && Evidence(w)
    requires i in w.verdicts && w.verdicts[i].critical && i in w.history && Approved in w.history[i]
    ensures
      && w.verdicts[i].request.Some?
      && var r := w.verdicts[i].request.value;
         && r in w.requests && w.requests[r].intentId == i && w.requests[r].status == Granted
         && NoRepeats(w.requests[r].approvals)
         && |w.requests[r].approvals| >= w.verdicts[i].required && |w.requests[r].approvals| >= 1
  {
    assert EvidenceOk(w, i);
    At(w, w.verdicts[i].request.value, i);
  }

  lemma ApproverCalledLater(mode: Mode, ops: seq<Op>, cfg: Config, k: nat, who: string)
    requires EnabledRun(Initial(mode), ops, cfg) && k < |ops| && ops[k].DoPropose?
    requires
      var w := Run(Initial(mode), ops, cfg);
      ops[k].r in w.requests && who in w.requests[ops[k].r].approvals
    ensures ApprovesFrom(ops, k + 1, ops[k].r, who)
  {
    var r := ops[k].r;
    NotOpenBefore(mode, ops, cfg, k);
    ApprovalsComeFromCalls(mode, ops, cfg, k, r, who);
    var m :| k <= m < |ops| && ops[m] == Approve(r, who);
    assert m != k;
  }

  lemma NotOpenBefore(mode: Mode, ops: seq<Op>, cfg: Config, k: nat)
    requires EnabledRun(Initial(mode), ops, cfg) && k < |ops| && ops[k].DoPropose?
    ensures ops[k].r !in Run(Initial(mode), ops[..k], cfg).requests
  {
    EnabledPrefix(Initial(mode), ops, cfg, k);
    EnabledPrefix(Initial(mode), ops, cfg, k + 1);
    RunKeeps(mode, ops[..k], cfg);
    LastEnabled(Initial(mode), ops[..k + 1], cfg);
    assert ops[..k + 1][..k] == ops[..k];
    FreshRequest(Run(Initial(mode), ops[..k], cfg), ops[k]);
  }

  lemma LastEnabled(w: World, ops: seq<Op>, cfg: Config)
    requires ops != [] && EnabledRun(w, ops, cfg)
    ensures Enabled(Run(w, ops[..|ops| - 1], cfg), ops[|ops| - 1])
  {
  }

  lemma {:induction false} EnabledPrefix(w: World, ops: seq<Op>, cfg: Config, n: nat)
    requires EnabledRun(w, ops, cfg) && n <= |ops|
    ensures EnabledRun(w, ops[..n], cfg)
  {
    if n == |ops| {
      assert ops[..n] == ops;
    } else {
      var front := ops[..|ops| - 1];
      EnabledPrefix(w, front, cfg, n);
      assert front[..n] == ops[..n];
    }
  }
}
