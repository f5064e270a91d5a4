/** What every run of the permission protocol keeps. */
module PermissionSafety {
  import opened Wrappers
  import opened PermissionChecker
  import opened PermissionWorld

  // ----- the documented life cycle -----

  predicate LifecycleEdge(a: IntentStatus, b: IntentStatus) {
    match a
    case Pending => b == Approved || b == Rejected || b == Invalidated
    case Approved => b == Executing || b == Invalidated
    case Executing => b == Completed || b == Failed || b == Invalidated
    case _ => false
  }

  /** A path of the life cycle from `Pending`. */
  predicate LegalHistory(h: seq<IntentStatus>) {
    if |h| <= 1 then h == [Pending]
    else LegalHistory(h[..|h| - 1]) && LifecycleEdge(h[|h| - 2], h[|h| - 1])
  }

  function Last(h: seq<IntentStatus>): IntentStatus
    requires h != []
  {
    h[|h| - 1]
  }

  lemma LegalSnoc(h: seq<IntentStatus>, s: IntentStatus)
    requires LegalHistory(h) && LifecycleEdge(Last(h), s)
    ensures LegalHistory(h + [s])
  {
    assert (h + [s])[..|h|] == h;
  }

  // ----- invariants, one key at a time -----

  /** A tracked request waits, its intent is pending, and the maps point at each other. */
  predicate PairOk(w: World, r: Id) {
    r in w.requestToIntent ==>
      var i := w.requestToIntent[r];
      && i in w.intentToRequest && w.intentToRequest[i] == r
      && IsWaiting(w, r) && w.requests[r].intentId == i
      && IsPending(w, i)
      && i in w.verdicts && w.verdicts[i].request == Some(r)
  }

  predicate BackOk(w: World, i: Id) {
    i in w.intentToRequest ==>
      w.intentToRequest[i] in w.requestToIntent && w.requestToIntent[w.intentToRequest[i]] == i
  }

  /** The gateway opened this request, for the intent the request names. */
  predicate OpenedByGateway(w: World, r: Id) {
    && r in w.requests
    && var i := w.requests[r].intentId;
       i in w.verdicts && w.verdicts[i].request == Some(r)
  }

  predicate NoRepeats(names: seq<string>) {
    names == [] || (names[|names| - 1] !in names[..|names| - 1] && NoRepeats(names[..|names| - 1]))
  }

  /** One creation event, and one more exactly when the request has been resolved. */
  predicate EventsOk(w: World, r: Id) {
    (r in w.requests <==> r in w.events) &&
    (r in w.requests ==>
       w.events[r] == if w.requests[r].status == Waiting then [Created] else [Created, Resolved(w.requests[r].status)])
  }

  /** A timer is armed exactly for a waiting request that was opened with one. */
  predicate TimerOk(w: World, r: Id) {
    && (r in w.timers <==> IsWaiting(w, r) && r in w.timed)
    && (r in w.timers && w.timers[r] == Countdown ==> w.requests[r].countdownSec > 0.0)
    && (r in w.timed ==> r in w.requests)
  }

  /** Approvers are distinct, too few while the request waits and enough once it is granted. */
  predicate ApprovalsOk(w: World, r: Id) {
    r in w.requests ==>
      && r in w.required
      && NoRepeats(w.requests[r].approvals)
      && (w.requests[r].status == Waiting ==>
            |w.requests[r].approvals| < if w.required[r] >= 1 then w.required[r] else 1)
      && (w.requests[r].status == Granted ==>
            |w.requests[r].approvals| >= if w.required[r] >= 1 then w.required[r] else 1)
  }

  predicate TrackedOk(w: World, r: Id) {
    OpenedByGateway(w, r) && w.requests[r].status == Waiting ==> r in w.requestToIntent
  }

  predicate IntentOk(w: World, i: Id) {
    && (i in w.intents ==> i in w.history && w.history[i] != [] && Last(w.history[i]) == w.intents[i].status)
    && (i in w.history ==> LegalHistory(w.history[i]))
  }

  /** A verdict with a request: the request is the one opened for this intent with the policy's number
      of approvers, and without a countdown if the intent is critical. */
  predicate VerdictOk(w: World, i: Id) {
    i in w.verdicts ==>
      && i in w.history
      && (w.verdicts[i].request.Some? ==>
            var r := w.verdicts[i].request.value;
            && r in w.requests && w.requests[r].intentId == i
            && r in w.required && w.required[r] == w.verdicts[i].required
            && (w.verdicts[i].critical ==> !(w.requests[r].countdownSec > 0.0)))
  }

  ghost predicate RequestsInv(w: World) {
    && (forall r {:trigger EventsOk(w, r)} :: EventsOk(w, r))
    && (forall r {:trigger TimerOk(w, r)} :: TimerOk(w, r))
    && (forall r {:trigger ApprovalsOk(w, r)} :: ApprovalsOk(w, r))
  }

  ghost predicate IntentsInv(w: World) {
    && (forall i {:trigger IntentOk(w, i)} :: IntentOk(w, i))
    && (forall i {:trigger VerdictOk(w, i)} :: VerdictOk(w, i))
  }

  ghost predicate PairsInv(w: World) {
    && (forall r {:trigger PairOk(w, r)} :: PairOk(w, r))
    && (forall i {:trigger BackOk(w, i)} :: BackOk(w, i))
    && (forall r {:trigger TrackedOk(w, r)} :: TrackedOk(w, r))
  }

  ghost predicate Inv(w: World) {
    RequestsInv(w) && IntentsInv(w) && PairsInv(w)
  }

  lemma InitialInv(mode: Mode)
    ensures Inv(Initial(mode))
  {
  }

  /** Everything known about one request and one intent. */
  lemma At(w: World, r: Id, i: Id)
    requires Inv(w)
    ensures EventsOk(w, r) && TimerOk(w, r) && ApprovalsOk(w, r) && PairOk(w, r) && TrackedOk(w, r)
    ensures IntentOk(w, i) && VerdictOk(w, i) && BackOk(w, i)
  {
  }

  // ----- each effect keeps the invariants -----

  lemma SetIntentKeepsRequests(w: World, i: Id, intent: Intent)
    requires RequestsInv(w)
    ensures RequestsInv(SetIntent(w, i, intent))
  {
    var w' := SetIntent(w, i, intent);
    forall r
      ensures EventsOk(w', r) && TimerOk(w', r) && ApprovalsOk(w', r)
    {
      assert EventsOk(w, r) && TimerOk(w, r) && ApprovalsOk(w, r);
    }
  }

  lemma SetIntentKeepsIntents(w: World, i: Id, intent: Intent)
    requires IntentsInv(w)
    requires if i in w.intents then LifecycleEdge(w.intents[i].status, intent.status)
             else i !in w.history && intent.status == Pending
    ensures IntentsInv(SetIntent(w, i, intent))
  {
    var w' := SetIntent(w, i, intent);
    assert IntentOk(w, i);
    if i in w.intents {
      LegalSnoc(w.history[i], intent.status);
    }
    forall j
      ensures IntentOk(w', j) && VerdictOk(w', j)
    {
      assert IntentOk(w, j) && VerdictOk(w, j);
    }
  }

  /** As `RequestsInv`, except that request `r` may hold any number of distinct approvals. */
  ghost predicate RequestsInvBut(w: World, r: Id) {
    && (forall x {:trigger EventsOk(w, x)} :: EventsOk(w, x))
    && (forall x {:trigger TimerOk(w, x)} :: TimerOk(w, x))
    && (forall x {:trigger ApprovalsOk(w, x)} :: x != r ==> ApprovalsOk(w, x))
    && (r in w.requests ==> r in w.required && NoRepeats(w.requests[r].approvals))
  }

  lemma FinishKeepsRequests(w: World, r: Id, status: RequestStatus)
    requires RequestsInvBut(w, r) && IsWaiting(w, r) && status != Waiting
    requires status == Granted ==>
               r in w.required && |w.requests[r].approvals| >= w.required[r] && |w.requests[r].approvals| >= 1
    ensures RequestsInv(FinishRequest(w, r, status))
  {
    var w' := FinishRequest(w, r, status);
    forall x
      ensures EventsOk(w', x) && TimerOk(w', x) && ApprovalsOk(w', x)
    {
      assert EventsOk(w, x) && TimerOk(w, x) && (x != r ==> ApprovalsOk(w, x));
    }
  }

  lemma FinishKeepsIntents(w: World, r: Id, status: RequestStatus)
    requires IntentsInv(w) && r in w.requests
    ensures IntentsInv(FinishRequest(w, r, status))
  {
    var w' := FinishRequest(w, r, status);
    forall i
      ensures IntentOk(w', i) && VerdictOk(w', i)
    {
      assert IntentOk(w, i) && VerdictOk(w, i);
    }
  }

  /** The request half and the intent half of the state ignore the gateway's maps. */
  lemma ForgetKeeps(w: World, r: Id, i: Id)
    ensures RequestsInv(w) ==> RequestsInv(Forget(w, r, i))
    ensures IntentsInv(w) ==> IntentsInv(Forget(w, r, i))
  {
    var w' := Forget(w, r, i);
    forall x
      ensures EventsOk(w, x) ==> EventsOk(w', x)
      ensures TimerOk(w, x) ==> TimerOk(w', x)
      ensures ApprovalsOk(w, x) ==> ApprovalsOk(w', x)
      ensures IntentOk(w, x) ==> IntentOk(w', x)
      ensures VerdictOk(w, x) ==> VerdictOk(w', x)
    {
    }
  }

  /** An engine-side resolution together with the drop of the outstanding request. */
  lemma SetAndDropKeeps(w: World, i: Id, intent: Intent)
    requires Inv(w) && i in w.intents && LifecycleEdge(w.intents[i].status, intent.status)
    ensures Inv(DropRequest(SetIntent(w, i, intent), i))
  {
    var w1 := SetIntent(w, i, intent);
    SetIntentKeepsRequests(w, i, intent);
    SetIntentKeepsIntents(w, i, intent);
    assert BackOk(w, i);
    if i in w.intentToRequest {
      var r := w.intentToRequest[i];
      assert PairOk(w, r);
      ForgetKeeps(w1, r, i);
      var w2 := Forget(w1, r, i);
      assert ApprovalsOk(w2, r);
      FinishKeepsRequests(w2, r, Denied);
      FinishKeepsIntents(w2, r, Denied);
    }
    SetAndDropKeepsPairs(w, i, intent);
  }

  lemma SetAndDropKeepsPairs(w: World, i: Id, intent: Intent)
    requires PairsInv(w) && i in w.intents
    ensures PairsInv(DropRequest(SetIntent(w, i, intent), i))
  {
    var w' := DropRequest(SetIntent(w, i, intent), i);
    forall x
      ensures PairOk(w', x) && BackOk(w', x) && TrackedOk(w', x)
    {
      SetAndDropKeepsPair(w, i, intent, x);
      SetAndDropKeepsBack(w, i, intent, x);
    }
  }

  lemma SetAndDropKeepsPair(w: World, i: Id, intent: Intent, x: Id)
    requires PairsInv(w) && i in w.intents
    ensures PairOk(DropRequest(SetIntent(w, i, intent), i), x)
    ensures TrackedOk(DropRequest(SetIntent(w, i, intent), i), x)
  {
    assert PairOk(w, x) && TrackedOk(w, x) && BackOk(w, i);
    if i in w.intentToRequest {
      assert PairOk(w, w.intentToRequest[i]);
    }
  }

  lemma SetAndDropKeepsBack(w: World, i: Id, intent: Intent, x: Id)
    requires PairsInv(w) && i in w.intents
    ensures BackOk(DropRequest(SetIntent(w, i, intent), i), x)
  {
    assert BackOk(w, i) && BackOk(w, x);
  }

  /** A status change of an intent that is not pending cannot concern a tracked pair. */
  lemma AdvanceKeeps(w: World, i: Id, intent: Intent)
    requires Inv(w) && i in w.intents && w.intents[i].status != Pending
    requires LifecycleEdge(w.intents[i].status, intent.status)
    ensures Inv(SetIntent(w, i, intent))
  {
    SetIntentKeepsRequests(w, i, intent);
    SetIntentKeepsIntents(w, i, intent);
    var w' := SetIntent(w, i, intent);
    forall x
      ensures PairOk(w', x) && BackOk(w', x) && TrackedOk(w', x)
    {
      assert PairOk(w, x) && BackOk(w, x) && TrackedOk(w, x);
    }
  }

  lemma PurgeKeeps(w: World, cutoff: int)
    requires Inv(w)
    ensures Inv(PurgeOld(w, cutoff))
  {
    var w' := PurgeOld(w, cutoff);
    forall x
      ensures PairOk(w', x) && BackOk(w', x) && TrackedOk(w', x)
    {
      assert PairOk(w, x) && BackOk(w, x) && TrackedOk(w, x);
    }
    forall x
      ensures EventsOk(w', x) && TimerOk(w', x) && ApprovalsOk(w', x) && IntentOk(w', x) && VerdictOk(w', x)
    {
      At(w, x, x);
    }
  }

  /** Opening a request under a fresh id that the gateway does not (yet) track. */
  lemma OpenKeeps(w: World, r: Id, i: Id, countdownSec: real, timeoutSec: real, count: int)
    requires Inv(w) && r !in w.events
    ensures Inv(OpenRequest(w, r, i, countdownSec, timeoutSec, count))
  {
    var w' := OpenRequest(w, r, i, countdownSec, timeoutSec, count);
    assert EventsOk(w, r) && TimerOk(w, r);
    forall x
      ensures EventsOk(w', x) && TimerOk(w', x) && ApprovalsOk(w', x)
    {
      assert EventsOk(w, x) && TimerOk(w, x) && ApprovalsOk(w, x);
    }
    OpenKeepsIntents(w, r, i, countdownSec, timeoutSec, count);
    OpenKeepsPairs(w, r, i, countdownSec, timeoutSec, count);
  }

  lemma OpenKeepsIntents(w: World, r: Id, i: Id, countdownSec: real, timeoutSec: real, count: int)
    requires IntentsInv(w) && r !in w.requests
    ensures IntentsInv(OpenRequest(w, r, i, countdownSec, timeoutSec, count))
  {
    var w' := OpenRequest(w, r, i, countdownSec, timeoutSec, count);
    forall x
      ensures IntentOk(w', x) && VerdictOk(w', x)
    {
      assert IntentOk(w, x) && VerdictOk(w, x);
    }
  }

  lemma OpenKeepsPairs(w: World, r: Id, i: Id, countdownSec: real, timeoutSec: real, count: int)
    requires IntentsInv(w) && PairsInv(w) && r !in w.requests
    ensures PairsInv(OpenRequest(w, r, i, countdownSec, timeoutSec, count))
  {
    var w' := OpenRequest(w, r, i, countdownSec, timeoutSec, count);
    assert VerdictOk(w, i);
    forall x
      ensures PairOk(w', x) && BackOk(w', x) && TrackedOk(w', x)
    {
      assert PairOk(w, x) && BackOk(w, x) && TrackedOk(w, x);
    }
  }

  /** The end of a request: resolved, forgotten, and its pending intent resolved with it. */
  lemma ResolveRequestKeeps(w: World, r: Id, status: RequestStatus, ids: Identities)
    requires RequestsInvBut(w, r) && IntentsInv(w) && PairsInv(w) && IsWaiting(w, r) && status != Waiting
    requires status == Granted ==>
               r in w.required && |w.requests[r].approvals| >= w.required[r] && |w.requests[r].approvals| >= 1
    ensures Inv(ResolveRequest(w, r, status, ids))
  {
    var w1 := FinishRequest(w, r, status);
    FinishKeepsRequests(w, r, status);
    FinishKeepsIntents(w, r, status);
    assert PairOk(w, r) && TrackedOk(w, r);
    if r in w.requestToIntent {
      var i := w.requestToIntent[r];
      ForgetKeeps(w1, r, i);
      var w2 := Forget(w1, r, i);
      var intent := ResolveRequest(w, r, status, ids).intents[i];
      SetIntentKeepsRequests(w2, i, intent);
      SetIntentKeepsIntents(w2, i, intent);
    }
    ResolveRequestKeepsPairs(w, r, status, ids);
  }

  lemma ResolveRequestKeepsPairs(w: World, r: Id, status: RequestStatus, ids: Identities)
    requires PairsInv(w) && IsWaiting(w, r) && status != Waiting
    ensures PairsInv(ResolveRequest(w, r, status, ids))
  {
    var w' := ResolveRequest(w, r, status, ids);
    assert PairOk(w, r);
    forall x
      ensures PairOk(w', x) && TrackedOk(w', x)
    {
      assert PairOk(w, x) && TrackedOk(w, x);
    }
    forall x
      ensures BackOk(w', x)
    {
      assert BackOk(w, x);
    }
  }

  lemma AddApprovalFacts(approvals: seq<string>, who: string)
    requires NoRepeats(approvals)
    ensures NoRepeats(AddApproval(approvals, who)) && who in AddApproval(approvals, who)
    ensures approvals <= AddApproval(approvals, who)
  {
    assert (approvals + [who])[..|approvals|] == approvals;
  }

  /** Recording an approval disturbs nothing but, possibly, the count of this request. */
  lemma RecordKeeps(w: World, r: Id, approvals: seq<string>)
    requires Inv(w) && r in w.requests && NoRepeats(approvals)
    ensures
      var w1 := w.(requests := w.requests[r := w.requests[r].(approvals := approvals)]);
      && RequestsInvBut(w1, r) && IntentsInv(w1) && PairsInv(w1)
      && (ApprovalsOk(w1, r) ==> Inv(w1))
  {
    var w1 := w.(requests := w.requests[r := w.requests[r].(approvals := approvals)]);
    assert ApprovalsOk(w, r);
    forall x
      ensures EventsOk(w1, x) && TimerOk(w1, x) && (x != r ==> ApprovalsOk(w1, x))
    {
      assert EventsOk(w, x) && TimerOk(w, x) && ApprovalsOk(w, x);
    }
    forall x
      ensures IntentOk(w1, x) && VerdictOk(w1, x)
    {
      assert IntentOk(w, x) && VerdictOk(w, x);
    }
    forall x
      ensures PairOk(w1, x) && BackOk(w1, x) && TrackedOk(w1, x)
    {
      assert PairOk(w, x) && BackOk(w, x) && TrackedOk(w, x);
    }
  }

  lemma ApproveKeeps(w: World, r: Id, who: string, ids: Identities)
    requires Inv(w)
    ensures Inv(ApproveRequest(w, r, who, ids))
  {
    if IsWaiting(w, r) {
      var approvals := AddApproval(w.requests[r].approvals, who);
      assert ApprovalsOk(w, r);
      AddApprovalFacts(w.requests[r].approvals, who);
      RecordKeeps(w, r, approvals);
      var w1 := w.(requests := w.requests[r := w.requests[r].(approvals := approvals)]);
      if |approvals| >= w.required[r] {
        ResolveRequestKeeps(w1, r, Granted, ids);
      }
    }
  }

  lemma ResolveWaitingKeeps(w: World, r: Id, status: RequestStatus, ids: Identities)
    requires Inv(w) && IsWaiting(w, r) && status != Waiting && status != Granted
    ensures Inv(ResolveRequest(w, r, status, ids))
  {
    assert ApprovalsOk(w, r);
    ResolveRequestKeeps(w, r, status, ids);
  }

  lemma FireKeeps(w: World, r: Id, ids: Identities)
    requires Inv(w)
    ensures Inv(FireTimer(w, r, ids))
  {
    assert TimerOk(w, r);
    if r in w.timers {
      ResolveWaitingKeeps(w, r, if w.timers[r] == Countdown then AutoGranted else Expired, ids);
    }
  }

  // ----- mode changes -----

  lemma ChangeModeKeeps(w: World, next: Mode)
    requires Inv(w)
    ensures Inv(ChangeMode(w, next))
  {
    if next != w.mode {
      ClearKeepsRequests(w, next);
      ClearKeepsIntents(w, next);
      ClearKeepsPairs(w, next);
    }
  }

  lemma ClearKeepsRequests(w: World, next: Mode)
    requires RequestsInv(w) && next != w.mode
    ensures RequestsInv(ChangeMode(w, next))
  {
    var w' := ChangeMode(w, next);
    forall r
      ensures EventsOk(w', r) && TimerOk(w', r) && ApprovalsOk(w', r)
    {
      assert EventsOk(w, r) && TimerOk(w, r) && ApprovalsOk(w, r);
    }
  }

  lemma ClearKeepsIntents(w: World, next: Mode)
    requires IntentsInv(w) && next != w.mode
    ensures IntentsInv(ChangeMode(w, next))
  {
    var w' := ChangeMode(w, next);
    forall i
      ensures IntentOk(w', i) && VerdictOk(w', i)
    {
      assert IntentOk(w, i) && VerdictOk(w, i);
      if InvalidatedBy(w.intents, w.requestToIntent, i) {
        LegalSnoc(w.history[i], Invalidated);
      }
    }
  }

  lemma ClearKeepsPairs(w: World, next: Mode)
    requires PairsInv(w) && next != w.mode
    ensures PairsInv(ChangeMode(w, next))
  {
    var w' := ChangeMode(w, next);
    forall x
      ensures PairOk(w', x) && BackOk(w', x) && TrackedOk(w', x)
    {
      assert TrackedOk(w, x);
    }
  }

  // ----- proposing -----

  lemma ProposalOpens(w: World, i: Id, intent: Intent, v: Verdict)
    requires Inv(w) && i !in w.history && i !in w.verdicts && intent.status == Pending && v.request == None
    ensures Inv(SetIntent(w, i, intent).(verdicts := w.verdicts[i := v]))
  {
    assert IntentOk(w, i);
    SetIntentKeepsRequests(w, i, intent);
    SetIntentKeepsIntents(w, i, intent);
    var w1 := SetIntent(w, i, intent);
    var w' := w1.(verdicts := w.verdicts[i := v]);
    forall x
      ensures EventsOk(w', x) && TimerOk(w', x) && ApprovalsOk(w', x)
    {
      assert EventsOk(w1, x) && TimerOk(w1, x) && ApprovalsOk(w1, x);
    }
    forall x
      ensures IntentOk(w', x) && VerdictOk(w', x)
    {
      assert IntentOk(w1, x) && VerdictOk(w1, x);
    }
    forall x
      ensures PairOk(w', x) && BackOk(w', x) && TrackedOk(w', x)
    {
      assert PairOk(w, x) && BackOk(w, x) && TrackedOk(w, x);
    }
  }

  /** The gateway starts tracking the request it has just opened. */
  lemma TrackKeeps(w: World, r: Id, i: Id)
    requires Inv(w) && IsPending(w, i) && IsWaiting(w, r) && w.requests[r].intentId == i
    requires i in w.verdicts && w.verdicts[i].request == None
    requires r in w.required && w.required[r] == w.verdicts[i].required
    requires w.verdicts[i].critical ==> !(w.requests[r].countdownSec > 0.0)
    requires i !in w.intentToRequest && r !in w.requestToIntent
    ensures Inv(w.(requestToIntent := w.requestToIntent[r := i], intentToRequest := w.intentToRequest[i := r],
                   verdicts := w.verdicts[i := w.verdicts[i].(request := Some(r))]))
  {
    var w' := w.(requestToIntent := w.requestToIntent[r := i], intentToRequest := w.intentToRequest[i := r],
                 verdicts := w.verdicts[i := w.verdicts[i].(request := Some(r))]);
    forall x
      ensures EventsOk(w', x) && TimerOk(w', x) && ApprovalsOk(w', x)
    {
      assert EventsOk(w, x) && TimerOk(w, x) && ApprovalsOk(w, x);
    }
    forall x
      ensures IntentOk(w', x) && VerdictOk(w', x)
    {
      assert IntentOk(w, x) && VerdictOk(w, x);
    }
    forall x
      ensures PairOk(w', x) && BackOk(w', x) && TrackedOk(w', x)
    {
      assert PairOk(w, x) && BackOk(w, x) && TrackedOk(w, x);
    }
  }

  lemma ResolveIntentKeeps(w: World, i: Id, status: IntentStatus, who: string, reason: Option<string>)
    requires Inv(w) && (status == Approved || status == Rejected)
    ensures Inv(ResolveIntent(w, i, status, who, reason))
  {
    if IsPending(w, i) {
      SetAndDropKeeps(w, i, Resolution(w.intents[i], status, who, reason));
    }
  }

  lemma ProposeKeeps(w: World, i: Id, r: Id, p: Proposal, cfg: Config)
    requires Inv(w) && Enabled(w, DoPropose(i, r, p))
    ensures Inv(ProposeIntent(w, i, r, p, cfg))
  {
    var w0 := SetIntent(w, i, NewIntent(p));
    var v := Verdict(Critical(p.assessed, p.sensitive), cfg.tables.policies(w.mode).requiredApprovals, None);
    var judged := w0.(verdicts := w0.verdicts[i := v]);
    ProposalOpens(w, i, NewIntent(p), v);
    DecideIsSound(w.mode, p.kind, p.assessed, p.sensitive, cfg.tables);
    var w1 := HandleProposed(w0, i, r, p, cfg);
    match Decide(w.mode, p.kind, p.assessed, p.sensitive, cfg.tables) {
      case AutoApprove =>
        ResolveIntentKeeps(judged, i, Approved, cfg.ids.auto, None);
      case AutoReject =>
        ResolveIntentKeeps(judged, i, Rejected, cfg.ids.rejector, Some(NOT_PERMITTED));
      case HoldPending =>
      case RequireApproval(countdown, timeout, count) =>
        OpenKeeps(judged, r, i, countdown, timeout, count);
        At(w, r, i);
        assert BackOk(w, i) && EventsOk(w, r);
        TrackedIntentIsKnown(w, i);
        TrackKeeps(OpenRequest(judged, r, i, countdown, timeout, count), r, i);
    }
    if cfg.autoApproval.Some? {
      ResolveIntentKeeps(w1, i, Approved, cfg.autoApproval.value.approverIdentity, None);
    }
  }

  lemma TrackedIntentIsKnown(w: World, i: Id)
    requires Inv(w)
    ensures i in w.intentToRequest ==> i in w.history
  {
    if i in w.intentToRequest {
      assert BackOk(w, i) && IntentOk(w, i);
      assert PairOk(w, w.intentToRequest[i]);
    }
  }

  // ----- every step, every run -----

  lemma StepKeeps(w: World, op: Op, cfg: Config)
    requires Inv(w) && Enabled(w, op)
    ensures Inv(Step(w, op, cfg))
  {
    match op
    case DoPropose(i, r, p) => ProposeKeeps(w, i, r, p, cfg);
    case EngineApprove(i, who) => ResolveIntentKeeps(w, i, Approved, who, None);
    case EngineReject(i, who, reason) => ResolveIntentKeeps(w, i, Rejected, who, Some(reason));
    case StartExecution(i) => AdvanceIntentKeeps(w, i, Approved, Executing, None);
    case CompleteIntent(i) => AdvanceIntentKeeps(w, i, Executing, Completed, None);
    case FailIntent(i, reason) => AdvanceIntentKeeps(w, i, Executing, Failed, Some(reason));
    case Invalidate(i, reason) =>
      if i in w.intents && !Terminal(w.intents[i].status) {
        SetAndDropKeeps(w, i, w.intents[i].(status := Invalidated, rejectionReason := Some(reason)));
      }
    case Purge(cutoff) => PurgeKeeps(w, cutoff);
    case Open(r, i, countdown, timeout, count) => OpenKeeps(w, r, i, countdown, timeout, count);
    case Approve(r, who) => ApproveKeeps(w, r, who, cfg.ids);
    case Deny(r) =>
      if IsWaiting(w, r) {
        ResolveWaitingKeeps(w, r, Denied, cfg.ids);
      }
    case Fire(r) => FireKeeps(w, r, cfg.ids);
    case SetMode(mode) => ChangeModeKeeps(w, mode);
  }

  lemma AdvanceIntentKeeps(w: World, i: Id, from: IntentStatus, to: IntentStatus, reason: Option<string>)
    requires Inv(w) && from != Pending && LifecycleEdge(from, to)
    ensures Inv(AdvanceIntent(w, i, from, to, reason))
  {
    if i in w.intents && w.intents[i].status == from {
      AdvanceKeeps(w, i, AdvanceIntent(w, i, from, to, reason).intents[i]);
    }
  }

  lemma {:induction false} RunKeeps(mode: Mode, ops: seq<Op>, cfg: Config)
    requires EnabledRun(Initial(mode), ops, cfg)
    ensures Inv(Run(Initial(mode), ops, cfg))
  {
    if ops == [] {
      InitialInv(mode);
    } else {
      var front := ops[..|ops| - 1];
      RunKeeps(mode, front, cfg);
      StepKeeps(Run(Initial(mode), front, cfg), ops[|ops| - 1], cfg);
    }
  }
}
