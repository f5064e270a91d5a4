/** Where the names in a request's list of approvals come from. */
module ApprovalOrigins {
  import opened Wrappers
  import opened PermissionChecker
  import opened PermissionWorld
  import opened PermissionSafety

  /** The request is there as before, with the same approvals. */
  predicate Kept(w: World, w': World, r: Id) {
    (r in w.requests <==> r in w'.requests) &&
    (r in w.requests ==> w'.requests[r].approvals == w.requests[r].approvals)
  }

  /** A request starts without approvals, and only an approving call adds a name: the caller's. */
  predicate Accounted(w: World, w': World, op: Op, r: Id) {
    r in w'.requests ==>
      if r in w.requests
      then || w'.requests[r].approvals == w.requests[r].approvals
           || (op.Approve? && op.r == r && w'.requests[r].approvals == AddApproval(w.requests[r].approvals, op.who))
      else w'.requests[r].approvals == []
  }

  lemma DropRequestKept(w: World, i: Id, r: Id)
    ensures Kept(w, DropRequest(w, i), r)
  {
  }

  lemma ResolveIntentKept(w: World, i: Id, status: IntentStatus, who: string, reason: Option<string>, r: Id)
    ensures Kept(w, ResolveIntent(w, i, status, who, reason), r)
  {
    if IsPending(w, i) {
      DropRequestKept(SetIntent(w, i, Resolution(w.intents[i], status, who, reason)), i, r);
    }
  }

  lemma EchoKept(w: World, r0: Id, status: RequestStatus, ids: Identities, r: Id)
    ensures Kept(w, Echo(w, r0, status, ids), r)
  {
  }

  lemma ResolveRequestKept(w: World, r0: Id, status: RequestStatus, ids: Identities, r: Id)
    requires r0 in w.requests
    ensures Kept(w, ResolveRequest(w, r0, status, ids), r)
  {
    EchoKept(FinishRequest(w, r0, status), r0, status, ids, r);
  }

  lemma ApproveAccounted(w: World, r0: Id, who: string, ids: Identities, r: Id)
    ensures Accounted(w, ApproveRequest(w, r0, who, ids), Approve(r0, who), r)
  {
    if IsWaiting(w, r0) {
      var approvals := AddApproval(w.requests[r0].approvals, who);
      var w1 := w.(requests := w.requests[r0 := w.requests[r0].(approvals := approvals)]);
      ResolveRequestKept(w1, r0, Granted, ids, r);
    }
  }

  lemma ProposeAccounted(w: World, i: Id, r0: Id, p: Proposal, cfg: Config, r: Id)
    requires r0 !in w.requests
    ensures Accounted(w, ProposeIntent(w, i, r0, p, cfg), DoPropose(i, r0, p), r)
  {
    var w0 := SetIntent(w, i, NewIntent(p));
    JudgeAccounted(w0, i, r0, p, cfg, r);
    var w1 := HandleProposed(w0, i, r0, p, cfg);
    if cfg.autoApproval.Some? {
      ResolveIntentKept(w1, i, Approved, cfg.autoApproval.value.approverIdentity, None, r);
    }
    assert Kept(w1, ApplyPolicy(w1, i, p, cfg.autoApproval), r);
  }

  lemma JudgeAccounted(w: World, i: Id, r0: Id, p: Proposal, cfg: Config, r: Id)
    requires r0 !in w.requests
    ensures Accounted(w, JudgeProposed(w, i, r0, p, cfg), DoPropose(i, r0, p), r)
  {
    var v := Verdict(Critical(p.assessed, p.sensitive), cfg.tables.policies(w.mode).requiredApprovals, None);
    var judged := w.(verdicts := w.verdicts[i := v]);
    match Decide(w.mode, p.kind, p.assessed, p.sensitive, cfg.tables)
    case AutoApprove => ResolveIntentKept(judged, i, Approved, cfg.ids.auto, None, r);
    case AutoReject => ResolveIntentKept(judged, i, Rejected, cfg.ids.rejector, Some(NOT_PERMITTED), r);
    case HoldPending =>
    case RequireApproval(_, _, _) =>
  }

  lemma DenyAllKeeps(requests: map<Id, Request>, pairs: map<Id, Id>, r: Id)
    requires r in requests
    ensures r in DenyAll(requests, pairs) && DenyAll(requests, pairs)[r].approvals == requests[r].approvals
  {
  }

  lemma ChangeModeKept(w: World, next: Mode, r: Id)
    ensures Kept(w, ChangeMode(w, next), r)
  {
    if next != w.mode {
      assert ChangeMode(w, next).requests == DenyAll(w.requests, w.requestToIntent);
      if r in w.requests {
        DenyAllKeeps(w.requests, w.requestToIntent, r);
      }
    }
  }

  predicate OnIntents(op: Op) {
    || op.EngineApprove? || op.EngineReject? || op.StartExecution? || op.CompleteIntent? || op.FailIntent?
    || op.Invalidate? || op.Purge?
  }

  lemma IntentCallKept(w: World, op: Op, cfg: Config, r: Id)
    requires OnIntents(op)
    ensures Kept(w, Step(w, op, cfg), r)
  {
    match op
    case EngineApprove(i, who) => ResolveIntentKept(w, i, Approved, who, None, r);
    case EngineReject(i, who, reason) => ResolveIntentKept(w, i, Rejected, who, Some(reason), r);
    case Invalidate(i, reason) => InvalidateKept(w, i, reason, r);
    case _ =>
  }

  lemma InvalidateKept(w: World, i: Id, reason: string, r: Id)
    ensures Kept(w, InvalidateIntent(w, i, reason), r)
  {
    if i in w.intents {
      DropRequestKept(SetIntent(w, i, w.intents[i].(status := Invalidated, rejectionReason := Some(reason))), i, r);
    }
  }

  lemma FireKept(w: World, r0: Id, ids: Identities, r: Id)
    ensures Kept(w, FireTimer(w, r0, ids), r)
  {
    if r0 in w.timers && r0 in w.requests {
      ResolveRequestKept(w, r0, if w.timers[r0] == Countdown then AutoGranted else Expired, ids, r);
    }
  }

  lemma DenyKept(w: World, r0: Id, ids: Identities, r: Id)
    ensures Kept(w, DenyRequest(w, r0, ids), r)
  {
    if IsWaiting(w, r0) {
      ResolveRequestKept(w, r0, Denied, ids, r);
    }
  }

  lemma OpenAccounted(w: World, op: Op, cfg: Config, r: Id)
    requires op.Open? && op.r !in w.requests
    ensures Accounted(w, Step(w, op, cfg), op, r)
  {
  }

  lemma FreshRequest(w: World, op: Op)
    requires Inv(w) && Enabled(w, op) && (op.DoPropose? || op.Open?)
    ensures op.r !in w.requests
  {
    assert EventsOk(w, op.r);
  }

  lemma StepAccounts(w: World, op: Op, cfg: Config, r: Id)
    requires op.DoPropose? || op.Open? ==> op.r !in w.requests
    ensures Accounted(w, Step(w, op, cfg), op, r)
  {
    match op
    case DoPropose(i, r0, p) => ProposeAccounted(w, i, r0, p, cfg, r);
    case Open(_, _, _, _, _) => OpenAccounted(w, op, cfg, r);
    case Approve(r0, who) => ApproveAccounted(w, r0, who, cfg.ids, r);
    case Deny(r0) => DenyKept(w, r0, cfg.ids, r);
    case Fire(r0) => FireKept(w, r0, cfg.ids, r);
    case SetMode(next) => ChangeModeKept(w, next, r);
    case _ => IntentCallKept(w, op, cfg, r);
  }

  /** `who` approves request `r` in a call of the run, the `from`-th or a later one. */
  ghost predicate ApprovesFrom(ops: seq<Op>, from: nat, r: Id, who: string) {
    exists m :: from <= m < |ops| && ops[m] == Approve(r, who)
  }

  /** Every name among a request's approvals is there because that very approver called for this
      request, after the request was opened. */
  lemma {:induction false} ApprovalsComeFromCalls(
    mode: Mode, ops: seq<Op>, cfg: Config, from: nat, r: Id, who: string)
    requires EnabledRun(Initial(mode), ops, cfg) && from <= |ops|
    requires r !in Run(Initial(mode), ops[..from], cfg).requests
    ensures
      var w := Run(Initial(mode), ops, cfg);
      r in w.requests && who in w.requests[r].approvals ==> ApprovesFrom(ops, from, r, who)
  {
    if from == |ops| {
      assert ops[..from] == ops;
    } else {
      var front, last := ops[..|ops| - 1], ops[|ops| - 1];
      assert front[..from] == ops[..from];
      ApprovalsComeFromCalls(mode, front, cfg, from, r, who);
      RunKeeps(mode, front, cfg);
      if last.DoPropose? || last.Open? {
        FreshRequest(Run(Initial(mode), front, cfg), last);
      }
      StepAccounts(Run(Initial(mode), front, cfg), last, cfg, r);
      if ApprovesFrom(front, from, r, who) {
        var m :| from <= m < |front| && front[m] == Approve(r, who);
        assert ops[m] == Approve(r, who);
      }
    }
  }
}
