/** Exclusive editing zones: humans override AI claims, AI claims expire. */
module ZoneManager {
  import opened Wrappers

  datatype Range = Range(startLine: int, startColumn: int, endLine: int, endColumn: int)

  datatype Kind = Human | Ai

  datatype Zone = Zone(
    file: string, region: Range, claimerId: string, claimerType: Kind, claimedAt: int, expiresAt: Option<int>)

  datatype Request = Request(
    file: string, region: Range, participantId: string, participantType: Kind, duration: Option<int>)

  /** A refusal names the claim in the way; its resolution is always "denied". */
  datatype Outcome = Granted(claim: Zone) | Denied(existing: Zone)

  const DEFAULT_AI_CLAIM_EXPIRY_MS := 60_000

  // ---------------------------------------------------------------------
  // Ranges
  // ---------------------------------------------------------------------

  predicate RangesOverlap(a: Range, b: Range) {
    !(a.endLine < b.startLine || b.endLine < a.startLine) &&
    !(a.endLine == b.startLine && a.endColumn <= b.startColumn) &&
    !(b.endLine == a.startLine && b.endColumn <= a.startColumn)
  }

  /** Positions in a text: line first, then column. */
  predicate Before(line: int, column: int, line': int, column': int) {
    line < line' || (line == line' && column < column')
  }

  /** The half-open stretch of text from the start of a range up to its end. */
  predicate Covers(r: Range, line: int, column: int) {
    !Before(line, column, r.startLine, r.startColumn) && Before(line, column, r.endLine, r.endColumn)
  }

  predicate NonEmpty(r: Range) {
    Before(r.startLine, r.startColumn, r.endLine, r.endColumn)
  }

  ghost predicate ShareAPosition(a: Range, b: Range) {
    exists line, column :: Covers(a, line, column) && Covers(b, line, column)
  }

  /** On non-empty ranges the column tests decide exactly whether some position lies in both. */
  lemma OverlapIffShared(a: Range, b: Range)
    requires NonEmpty(a) && NonEmpty(b)
    ensures RangesOverlap(a, b) <==> ShareAPosition(a, b)
  {
    if RangesOverlap(a, b) {
      if Before(a.startLine, a.startColumn, b.startLine, b.startColumn) {
        assert Covers(a, b.startLine, b.startColumn) && Covers(b, b.startLine, b.startColumn);
      } else {
        assert Covers(a, a.startLine, a.startColumn) && Covers(b, a.startLine, a.startColumn);
      }
    }
  }

  /** An empty range shares no position with anything, yet it overlaps what it lies strictly inside. */
  lemma CaretOverlapIff(caret: Range, b: Range)
    requires caret.startLine == caret.endLine && caret.startColumn == caret.endColumn
    ensures !ShareAPosition(caret, b)
    ensures RangesOverlap(caret, b) <==>
              Before(b.startLine, b.startColumn, caret.startLine, caret.startColumn) &&
              Before(caret.startLine, caret.startColumn, b.endLine, b.endColumn)
  {
  }

  // ---------------------------------------------------------------------
  // Selecting claims
  // ---------------------------------------------------------------------

  /** The tests the manager filters a file's claims by. */
  datatype Test = ActiveAt(now: int) | Overlapping(region: Range) | OfKind(kind: Kind) | NotBy(ids: set<string>)

  predicate Passes(test: Test, zone: Zone) {
    match test
    case ActiveAt(now) => zone.expiresAt.None? || zone.expiresAt.value == 0 || zone.expiresAt.value > now
    case Overlapping(region) => RangesOverlap(zone.region, region)
    case OfKind(kind) => zone.claimerType == kind
    case NotBy(ids) => zone.claimerId !in ids
  }

  function Select(test: Test, zones: seq<Zone>): seq<Zone> {
    if zones == [] then []
    else
      var n := |zones| - 1;
      var front := Select(test, zones[..n]);
      if Passes(test, zones[n]) then front + [zones[n]] else front
  }

  lemma {:induction false} SelectIff(test: Test, zones: seq<Zone>, zone: Zone)
    ensures zone in Select(test, zones) <==> zone in zones && Passes(test, zone)
  {
    if zones != [] {
      var n := |zones| - 1;
      SelectIff(test, zones[..n], zone);
      assert zones == zones[..n] + [zones[n]];
    }
  }

  /** Selecting everything changes nothing. */
  lemma {:induction false} SelectAll(test: Test, zones: seq<Zone>)
    requires forall zone :: zone in zones ==> Passes(test, zone)
    ensures Select(test, zones) == zones
  {
    if zones != [] {
      var n := |zones| - 1;
      SelectAll(test, zones[..n]);
      assert zones == zones[..n] + [zones[n]];
    }
  }

  /** Removing one participant after others is removing them together. */
  lemma {:induction false} SelectNotByTwice(ids: set<string>, more: set<string>, zones: seq<Zone>)
    ensures Select(NotBy(more), Select(NotBy(ids), zones)) == Select(NotBy(ids + more), zones)
  {
    if zones != [] {
      var n := |zones| - 1;
      SelectNotByTwice(ids, more, zones[..n]);
      if zones[n].claimerId !in ids {
        SelectSnoc(NotBy(more), Select(NotBy(ids), zones[..n]), zones[n]);
      }
    }
  }

  lemma SelectSnoc(test: Test, zones: seq<Zone>, zone: Zone)
    ensures Select(test, zones + [zone]) ==
              if Passes(test, zone) then Select(test, zones) + [zone] else Select(test, zones)
  {
    assert (zones + [zone])[..|zones|] == zones;
  }

  // ---------------------------------------------------------------------
  // What a request does to the claims of its file
  // ---------------------------------------------------------------------

  /** The overlapping claims that stop a request: human ones, and for an AI every other participant's. */
  function Blockers(zones: seq<Zone>, request: Request): seq<Zone> {
    var overlapping := Select(Overlapping(request.region), zones);
    var humans := Select(OfKind(Human), overlapping);
    if request.participantType == Human || humans != [] then humans
    else Select(NotBy({request.participantId}), overlapping)
  }

  /** The participants whose claims on the file a request removes. */
  function Evicted(zones: seq<Zone>, request: Request): set<string> {
    (if request.participantType == Human
     then Claimers(Select(OfKind(Ai), Select(Overlapping(request.region), zones)))
     else {}) +
    if Blockers(zones, request) == [] then {request.participantId} else {}
  }

  function Claimers(zones: seq<Zone>): set<string> {
    set zone | zone in zones :: zone.claimerId
  }

  function NewZone(request: Request, now: int): Zone {
    Zone(request.file, request.region, request.participantId, request.participantType, now,
         if request.participantType == Ai
         then Some(now + if request.duration.Some? then request.duration.value else DEFAULT_AI_CLAIM_EXPIRY_MS)
         else None)
  }

  function OutcomeOf(zones: seq<Zone>, request: Request, grantedAt: int): Outcome {
    var blockers := Blockers(zones, request);
    if blockers == [] then Granted(NewZone(request, grantedAt)) else Denied(blockers[0])
  }

  /** The claims of the file after the request, from the active claims before it. */
  function Settled(zones: seq<Zone>, request: Request, grantedAt: int): seq<Zone> {
    var left := Select(NotBy(Evicted(zones, request)), zones);
    if Blockers(zones, request) == [] then left + [NewZone(request, grantedAt)] else left
  }

  // ---------------------------------------------------------------------
  // Runs
  // ---------------------------------------------------------------------

  /** One call; `Look` is any query, which first drops what has expired. */
  datatype Op =
    | Claim(request: Request, now: int, grantedAt: int)
    | Release(file: string, participantId: string)
    | ReleaseAll(participantId: string)
    | Look(now: int)
    | Clear

  function FileStep(file: string, zones: seq<Zone>, op: Op): seq<Zone> {
    match op
    case Claim(request, now, grantedAt) =>
      var active := Select(ActiveAt(now), zones);
      if request.file == file then Settled(active, request, grantedAt) else active
    case Release(f, id) => if f == file then Select(NotBy({id}), zones) else zones
    case ReleaseAll(id) => Select(NotBy({id}), zones)
    case Look(now) => Select(ActiveAt(now), zones)
    case Clear => []
  }

  /** The claims of one file after a run of calls. */
  function FileAfter(file: string, ops: seq<Op>): seq<Zone> {
    if ops == [] then []
    else FileStep(file, FileAfter(file, ops[..|ops| - 1]), ops[|ops| - 1])
  }

  // ---------------------------------------------------------------------
  // Exclusiveness
  // ---------------------------------------------------------------------

  predicate Apart(c: Zone, d: Zone) {
    c.claimerId != d.claimerId && !RangesOverlap(c.region, d.region)
  }

  predicate ApartFromAll(zones: seq<Zone>, d: Zone) {
    forall c :: c in zones ==> Apart(c, d)
  }

  /** Every claim is apart from all earlier ones. */
  predicate Exclusive(zones: seq<Zone>) {
    zones == [] ||
    var n := |zones| - 1;
    Exclusive(zones[..n]) && ApartFromAll(zones[..n], zones[n])
  }

  /** A claim lies on the file it is filed under; a human claim never expires. */
  predicate WellFiled(file: string, zones: seq<Zone>) {
    forall z :: z in zones ==> z.file == file && (z.claimerType == Human ==> z.expiresAt == None)
  }

  lemma ExclusiveSnoc(zones: seq<Zone>, zone: Zone)
    requires Exclusive(zones) && ApartFromAll(zones, zone)
    ensures Exclusive(zones + [zone])
  {
    assert (zones + [zone])[..|zones|] == zones;
  }

  lemma {:induction false} ExclusivePairs(zones: seq<Zone>, j: nat, k: nat)
    requires Exclusive(zones) && j < k < |zones|
    ensures Apart(zones[j], zones[k])
  {
    var n := |zones| - 1;
    if k < n {
      ExclusivePairs(zones[..n], j, k);
    } else {
      assert zones[..n][j] == zones[j];
    }
  }

  lemma {:induction false} SelectKeepsExclusive(test: Test, zones: seq<Zone>)
    requires Exclusive(zones)
    ensures Exclusive(Select(test, zones))
  {
    if zones != [] {
      var n := |zones| - 1;
      SelectKeepsExclusive(test, zones[..n]);
      forall c | c in Select(test, zones[..n])
        ensures Apart(c, zones[n])
      {
        SelectIff(test, zones[..n], c);
      }
      if Passes(test, zones[n]) {
        ExclusiveSnoc(Select(test, zones[..n]), zones[n]);
      }
    }
  }

  lemma SelectKeepsFiled(file: string, test: Test, zones: seq<Zone>)
    requires WellFiled(file, zones)
    ensures WellFiled(file, Select(test, zones))
  {
    forall z | z in Select(test, zones)
      ensures z in zones
    {
      SelectIff(test, zones, z);
    }
  }

  /** What is left when a request is granted is apart from the new claim. */
  lemma GrantLeavesRoom(zones: seq<Zone>, request: Request, grantedAt: int)
    requires Blockers(zones, request) == []
    ensures ApartFromAll(Select(NotBy(Evicted(zones, request)), zones), NewZone(request, grantedAt))
  {
    var evicted := Evicted(zones, request);
    forall c | c in Select(NotBy(evicted), zones)
      ensures Apart(c, NewZone(request, grantedAt))
    {
      SelectIff(NotBy(evicted), zones, c);
      if RangesOverlap(c.region, request.region) {
        OverlappingIsOwnOrEvicted(zones, request, c);
      }
    }
  }

  lemma OverlappingIsOwnOrEvicted(zones: seq<Zone>, request: Request, c: Zone)
    requires c in zones && RangesOverlap(c.region, request.region)
    requires Blockers(zones, request) == []
    ensures c.claimerId in Evicted(zones, request)
  {
    var overlapping := Select(Overlapping(request.region), zones);
    SelectIff(Overlapping(request.region), zones, c);
    SelectIff(OfKind(Human), overlapping, c);
    SelectIff(OfKind(Ai), overlapping, c);
    SelectIff(NotBy({request.participantId}), overlapping, c);
  }

  lemma SettledIsExclusive(zones: seq<Zone>, request: Request, grantedAt: int)
    requires Exclusive(zones) && WellFiled(request.file, zones)
    ensures Exclusive(Settled(zones, request, grantedAt))
    ensures WellFiled(request.file, Settled(zones, request, grantedAt))
  {
    var evicted := Evicted(zones, request);
    SelectKeepsExclusive(NotBy(evicted), zones);
    SelectKeepsFiled(request.file, NotBy(evicted), zones);
    if Blockers(zones, request) == [] {
      GrantLeavesRoom(zones, request, grantedAt);
      ExclusiveSnoc(Select(NotBy(evicted), zones), NewZone(request, grantedAt));
    }
  }

  lemma {:induction false} RunKeepsExclusive(file: string, ops: seq<Op>)
    ensures Exclusive(FileAfter(file, ops)) && WellFiled(file, FileAfter(file, ops))
  {
    if ops != [] {
      var zones := FileAfter(file, ops[..|ops| - 1]);
      RunKeepsExclusive(file, ops[..|ops| - 1]);
      StepKeepsExclusive(file, zones, ops[|ops| - 1]);
    }
  }

  lemma StepKeepsExclusive(file: string, zones: seq<Zone>, op: Op)
    requires Exclusive(zones) && WellFiled(file, zones)
    ensures Exclusive(FileStep(file, zones, op)) && WellFiled(file, FileStep(file, zones, op))
  {
    match op
    case Claim(request, now, grantedAt) =>
      SelectKeepsExclusive(ActiveAt(now), zones);
      SelectKeepsFiled(file, ActiveAt(now), zones);
      if request.file == file {
        SettledIsExclusive(Select(ActiveAt(now), zones), request, grantedAt);
      }
    case Release(_, id) =>
      SelectKeepsExclusive(NotBy({id}), zones);
      SelectKeepsFiled(file, NotBy({id}), zones);
    case ReleaseAll(id) =>
      SelectKeepsExclusive(NotBy({id}), zones);
      SelectKeepsFiled(file, NotBy({id}), zones);
    case Look(now) =>
      SelectKeepsExclusive(ActiveAt(now), zones);
      SelectKeepsFiled(file, ActiveAt(now), zones);
    case Clear =>
  }

  /**
   * In every reachable state two claims of a file have different holders and do not overlap,
   * so two non-empty ones share no position.
   */
  lemma ClaimsAreExclusive(file: string, ops: seq<Op>, j: nat, k: nat)
    requires j < k < |FileAfter(file, ops)|
    ensures var zones := FileAfter(file, ops);
            Apart(zones[j], zones[k]) && zones[j].file == zones[k].file == file &&
            (NonEmpty(zones[j].region) && NonEmpty(zones[k].region) ==>
               !ShareAPosition(zones[j].region, zones[k].region))
  {
    var zones := FileAfter(file, ops);
    RunKeepsExclusive(file, ops);
    ExclusivePairs(zones, j, k);
    if NonEmpty(zones[j].region) && NonEmpty(zones[k].region) {
      OverlapIffShared(zones[j].region, zones[k].region);
    }
  }

  // ---------------------------------------------------------------------
  // Who can remove a claim
  // ---------------------------------------------------------------------

  /** A call by which a participant gives up or renews a claim on a file. */
  predicate ByHolder(file: string, id: string, op: Op) {
    match op
    case Claim(request, _, _) => request.file == file && request.participantId == id
    case Release(f, p) => f == file && p == id
    case ReleaseAll(p) => p == id
    case Look(_) => false
    case Clear => false
  }

  /** In an exclusive list a participant's only claim tells everything about the participant. */
  lemma OneClaimEach(zones: seq<Zone>, c: Zone, d: Zone)
    requires Exclusive(zones) && c in zones && d in zones && c.claimerId == d.claimerId
    ensures c == d
  {
    var j :| 0 <= j < |zones| && zones[j] == c;
    var k :| 0 <= k < |zones| && zones[k] == d;
    if j < k {
      ExclusivePairs(zones, j, k);
    } else if k < j {
      ExclusivePairs(zones, k, j);
    }
  }

  /** A human asks for a region that overlaps an AI claim. */
  predicate Overrides(request: Request, zone: Zone) {
    request.participantType == Human && zone.claimerType == Ai && RangesOverlap(zone.region, request.region)
  }

  /** Who a request by another participant evicts: exactly the AI claims that overlap a human request. */
  lemma EvictedIff(zones: seq<Zone>, request: Request, zone: Zone)
    requires Exclusive(zones) && zone in zones && zone.claimerId != request.participantId
    ensures zone.claimerId in Evicted(zones, request) <==> Overrides(request, zone)
  {
    var overlapping := Select(Overlapping(request.region), zones);
    var ai := Select(OfKind(Ai), overlapping);
    SelectIff(Overlapping(request.region), zones, zone);
    SelectIff(OfKind(Ai), overlapping, zone);
    forall c | c in ai && c.claimerId == zone.claimerId
      ensures c == zone
    {
      SelectIff(Overlapping(request.region), zones, c);
      SelectIff(OfKind(Ai), overlapping, c);
      OneClaimEach(zones, c, zone);
    }
  }

  /**
   * A call by anyone but the holder removes a claim exactly if it clears everything, or the claim has
   * expired by then, or it is an AI claim that a human request overlaps, whether or not that request is
   * granted.
   */
  lemma LostToOthersIff(file: string, ops: seq<Op>, op: Op, zone: Zone)
    requires zone in FileAfter(file, ops) && !ByHolder(file, zone.claimerId, op)
    ensures zone !in FileAfter(file, ops + [op]) <==>
              op.Clear? || Expires(op, zone) || (op.Claim? && op.request.file == file && Overrides(op.request, zone))
  {
    assert (ops + [op])[..|ops|] == ops;
    RunKeepsExclusive(file, ops);
    if op.Claim? && op.request.file == file {
      LostToRequestIff(FileAfter(file, ops), op.request, op.now, op.grantedAt, zone);
    } else {
      LostElsewhereIff(file, FileAfter(file, ops), op, zone);
    }
  }

  /** The clock reading of the call finds the claim expired. */
  predicate Expires(op: Op, zone: Zone) {
    match op
    case Claim(_, now, _) => !Passes(ActiveAt(now), zone)
    case Look(now) => !Passes(ActiveAt(now), zone)
    case _ => false
  }

  lemma LostToRequestIff(zones: seq<Zone>, request: Request, now: int, grantedAt: int, zone: Zone)
    requires Exclusive(zones) && zone in zones && zone.claimerId != request.participantId
    ensures zone !in Settled(Select(ActiveAt(now), zones), request, grantedAt) <==>
              !Passes(ActiveAt(now), zone) || Overrides(request, zone)
  {
    SelectIff(ActiveAt(now), zones, zone);
    SelectKeepsExclusive(ActiveAt(now), zones);
    InSettledIff(Select(ActiveAt(now), zones), request, grantedAt, zone);
  }

  lemma InSettledIff(zones: seq<Zone>, request: Request, grantedAt: int, zone: Zone)
    requires Exclusive(zones) && zone.claimerId != request.participantId
    ensures zone in Settled(zones, request, grantedAt) <==> zone in zones && !Overrides(request, zone)
  {
    assert zone != NewZone(request, grantedAt);
    var evicted := Evicted(zones, request);
    SelectIff(NotBy(evicted), zones, zone);
    if zone in zones {
      EvictedIff(zones, request, zone);
    }
  }

  lemma LostElsewhereIff(file: string, zones: seq<Zone>, op: Op, zone: Zone)
    requires zone in zones && !ByHolder(file, zone.claimerId, op)
    requires op.Claim? ==> op.request.file != file
    ensures zone !in FileStep(file, zones, op) <==> op.Clear? || Expires(op, zone)
  {
    match op
    case Claim(_, now, _) => SelectIff(ActiveAt(now), zones, zone);
    case Release(_, id) => SelectIff(NotBy({id}), zones, zone);
    case ReleaseAll(id) => SelectIff(NotBy({id}), zones, zone);
    case Look(now) => SelectIff(ActiveAt(now), zones, zone);
    case Clear =>
  }

  /** Over any further calls a human claim stays until its own holder releases it or claims again, or all
      claims are cleared. */
  lemma {:induction false} HumanClaimStays(file: string, ops: seq<Op>, more: seq<Op>, zone: Zone)
    requires zone in FileAfter(file, ops) && zone.claimerType == Human
    requires forall k :: 0 <= k < |more| ==> !ByHolder(file, zone.claimerId, more[k]) && !more[k].Clear?
    ensures zone in FileAfter(file, ops + more)
  {
    if more == [] {
      assert ops + more == ops;
    } else {
      var n := |more| - 1;
      HumanClaimStays(file, ops, more[..n], zone);
      RunKeepsExclusive(file, ops + more[..n]);
      LostToOthersIff(file, ops + more[..n], more[n], zone);
      assert ops + more == ops + more[..n] + [more[n]];
    }
  }

  /**
   * When a request succeeds: no active human claim overlaps it, and if it is an AI's no active claim
   * of another participant does either. A refusal names such a claim.
   */
  lemma GrantedIff(zones: seq<Zone>, request: Request, grantedAt: int)
    ensures OutcomeOf(zones, request, grantedAt).Granted? <==>
              forall z :: z in zones && RangesOverlap(z.region, request.region) ==>
                z.claimerType == Ai &&
                (request.participantType == Human || z.claimerId == request.participantId)
    ensures OutcomeOf(zones, request, grantedAt).Denied? ==>
              var existing := OutcomeOf(zones, request, grantedAt).existing;
              existing in zones && RangesOverlap(existing.region, request.region) &&
              (existing.claimerType == Human || existing.claimerId != request.participantId)
  {
    var overlapping := Select(Overlapping(request.region), zones);
    forall z
      ensures z in overlapping <==> z in zones && RangesOverlap(z.region, request.region)
      ensures z in Select(OfKind(Human), overlapping) <==> z in overlapping && z.claimerType == Human
      ensures z in Select(NotBy({request.participantId}), overlapping) <==>
                z in overlapping && z.claimerId != request.participantId
    {
      SelectIff(Overlapping(request.region), zones, z);
      SelectIff(OfKind(Human), overlapping, z);
      SelectIff(NotBy({request.participantId}), overlapping, z);
    }
    var blockers := Blockers(zones, request);
    assert blockers != [] ==> blockers[0] in blockers;
  }

  /** A run on which a refused human request still costs an AI its claim. */
  lemma RefusedYetOverridden(file: string)
    ensures
      var ai := Request(file, Range(1, 0, 2, 0), "ai", Ai, None);
      var first := Request(file, Range(3, 0, 4, 0), "h1", Human, None);
      var second := Request(file, Range(1, 0, 4, 0), "h2", Human, None);
      var before := FileAfter(file, [Claim(ai, 0, 0), Claim(first, 0, 0)]);
      var after := FileAfter(file, [Claim(ai, 0, 0), Claim(first, 0, 0)] + [Claim(second, 0, 0)]);
      OutcomeOf(Select(ActiveAt(0), before), second, 0).Denied? &&
      NewZone(ai, 0) in before && NewZone(ai, 0) !in after
  {
    var ai := Request(file, Range(1, 0, 2, 0), "ai", Ai, None);
    var first := Request(file, Range(3, 0, 4, 0), "h1", Human, None);
    var second := Request(file, Range(1, 0, 4, 0), "h2", Human, None);
    assert |"ai"| == 2 && "ai"[0] != "h1"[0] && "ai"[0] != "h2"[0];
    Overridden(file, ai, first, second);
  }

  lemma Overridden(file: string, ai: Request, first: Request, second: Request)
    requires ai.file == first.file == second.file == file && ai.duration == None
    requires ai.participantType == Ai && first.participantType == second.participantType == Human
    requires ai.participantId != first.participantId && ai.participantId != second.participantId
    requires !RangesOverlap(ai.region, first.region)
    requires RangesOverlap(ai.region, second.region) && RangesOverlap(first.region, second.region)
    ensures
      var ops := [Claim(ai, 0, 0), Claim(first, 0, 0)];
      OutcomeOf(Select(ActiveAt(0), FileAfter(file, ops)), second, 0).Denied? &&
      NewZone(ai, 0) in FileAfter(file, ops) && NewZone(ai, 0) !in FileAfter(file, ops + [Claim(second, 0, 0)])
  {
    var ops := [Claim(ai, 0, 0), Claim(first, 0, 0)];
    TwoClaims(file, ai, first);
    var active := Select(ActiveAt(0), FileAfter(file, ops));
    SelectIff(ActiveAt(0), FileAfter(file, ops), NewZone(first, 0));
    GrantedIff(active, second, 0);
    LostToOthersIff(file, ops, Claim(second, 0, 0), NewZone(ai, 0));
  }

  lemma TwoClaims(file: string, ai: Request, first: Request)
    requires ai.file == first.file == file && ai.duration == None
    requires ai.participantType == Ai && first.participantType == Human
    requires ai.participantId != first.participantId && !RangesOverlap(ai.region, first.region)
    ensures NewZone(ai, 0) in FileAfter(file, [Claim(ai, 0, 0), Claim(first, 0, 0)])
    ensures NewZone(first, 0) in FileAfter(file, [Claim(ai, 0, 0), Claim(first, 0, 0)])
  {
    var ops := [Claim(ai, 0, 0)];
    FirstClaim(file, ai);
    LostToOthersIff(file, ops, Claim(first, 0, 0), NewZone(ai, 0));
    SecondClaim(file, ops, NewZone(ai, 0), first);
    assert ops + [Claim(first, 0, 0)] == [Claim(ai, 0, 0), Claim(first, 0, 0)];
  }

  lemma FileAfterSnoc(file: string, ops: seq<Op>, op: Op)
    ensures FileAfter(file, ops + [op]) == FileStep(file, FileAfter(file, ops), op)
  {
    assert (ops + [op])[..|ops|] == ops;
  }

  lemma FirstClaim(file: string, request: Request)
    requires request.file == file
    ensures FileAfter(file, [Claim(request, 0, 0)]) == [NewZone(request, 0)]
  {
    FileAfterSnoc(file, [], Claim(request, 0, 0));
    assert [] + [Claim(request, 0, 0)] == [Claim(request, 0, 0)];
  }

  lemma SecondClaim(file: string, ops: seq<Op>, zone: Zone, request: Request)
    requires FileAfter(file, ops) == [zone] && request.file == file
    requires Passes(ActiveAt(0), zone) && !RangesOverlap(zone.region, request.region)
    ensures NewZone(request, 0) in FileAfter(file, ops + [Claim(request, 0, 0)])
  {
    FileAfterSnoc(file, ops, Claim(request, 0, 0));
    SelectAll(ActiveAt(0), [zone]);
    GrantedIff([zone], request, 0);
  }

  // ---------------------------------------------------------------------
  // The manager
  // ---------------------------------------------------------------------

  lemma {:induction false} SelectLength(test: Test, zones: seq<Zone>)
    ensures |Select(test, zones)| <= |zones|
    ensures |Select(test, zones)| == |zones| ==> Select(test, zones) == zones
  {
    if zones != [] {
      var n := |zones| - 1;
      SelectLength(test, zones[..n]);
      assert zones == zones[..n] + [zones[n]];
    }
  }

  class ZoneManager {
    var claims: map<string, seq<Zone>>
    ghost var history: seq<Op>

    function At(file: string): seq<Zone>
      reads this`claims
    {
      if file in claims then claims[file] else []
    }

    /** The stored lists are what the calls so far make them; no empty list is kept. */
    ghost predicate Valid()
      reads this
    {
      (forall file {:trigger At(file)} :: At(file) == FileAfter(file, history)) &&
      NoEmptyLists()
    }

    ghost predicate NoEmptyLists()
      reads this`claims
    {
      forall file :: file in claims ==> claims[file] != []
    }

    constructor ()
      ensures Valid() && history == []
    {
      claims := map[];
      history := [];
    }

    method Claim(request: Request, now: int, grantedAt: int) returns (outcome: Outcome)
      requires Valid()
      modifies this
      ensures Valid() && history == old(history) + [Op.Claim(request, now, grantedAt)]
      ensures outcome == OutcomeOf(Select(ActiveAt(now), old(At(request.file))), request, grantedAt)
    {
      RemoveExpired(now);
      outcome := Resolve(request, grantedAt);
      Append(Op.Claim(request, now, grantedAt));
    }

    /** The decision itself, once expired claims are gone. */
    method Resolve(request: Request, grantedAt: int) returns (outcome: Outcome)
      requires NoEmptyLists()
      modifies this`claims
      ensures NoEmptyLists()
      ensures forall f {:trigger At(f)} ::
                At(f) == if f == request.file then Settled(old(At(f)), request, grantedAt) else old(At(f))
      ensures outcome == OutcomeOf(old(At(request.file)), request, grantedAt)
    {
      var fileClaims := At(request.file);
      var overlapping := Select(Overlapping(request.region), fileClaims);
      if overlapping == [] {
        outcome := GrantClaim(request, grantedAt);
        assert Evicted(fileClaims, request) == {request.participantId};
        return;
      }
      if request.participantType == Human {
        var aiOverlaps := Select(OfKind(Ai), overlapping);
        RemoveClaimers(request.file, aiOverlaps);
        var humanOverlaps := Select(OfKind(Human), overlapping);
        if humanOverlaps == [] {
          outcome := GrantClaim(request, grantedAt);
          SelectNotByTwice(Claimers(aiOverlaps), {request.participantId}, fileClaims);
        } else {
          outcome := Denied(humanOverlaps[0]);
          assert Evicted(fileClaims, request) == Claimers(aiOverlaps);
        }
        return;
      }
      var humanOverlaps := Select(OfKind(Human), overlapping);
      var others := Select(NotBy({request.participantId}), overlapping);
      if humanOverlaps != [] {
        outcome := Denied(humanOverlaps[0]);
        SelectAll(NotBy({}), fileClaims);
        assert Evicted(fileClaims, request) == {};
      } else if others != [] {
        outcome := Denied(others[0]);
        SelectAll(NotBy({}), fileClaims);
        assert Evicted(fileClaims, request) == {};
      } else {
        outcome := GrantClaim(request, grantedAt);
        assert Evicted(fileClaims, request) == {request.participantId};
      }
    }

    method Release(file: string, participantId: string)
      requires Valid()
      modifies this
      ensures Valid() && history == old(history) + [Op.Release(file, participantId)]
    {
      RemoveClaim(file, participantId);
      Append(Op.Release(file, participantId));
    }

    method ReleaseAll(participantId: string)
      requires Valid()
      modifies this
      ensures Valid() && history == old(history) + [Op.ReleaseAll(participantId)]
    {
      var todo := claims.Keys;
      while todo != {}
        invariant NoEmptyLists() && history == old(history)
        invariant forall f {:trigger At(f)} ::
                    At(f) == if f in todo then old(At(f)) else Select(NotBy({participantId}), old(At(f)))
        decreases |todo|
      {
        var file :| file in todo;
        RemoveClaim(file, participantId);
        todo := todo - {file};
      }
      Append(Op.ReleaseAll(participantId));
    }

    method Clear()
      requires Valid()
      modifies this
      ensures Valid() && history == old(history) + [Op.Clear] && claims == map[]
    {
      claims := map[];
      Append(Op.Clear);
    }

    method GetFileClaims(file: string, now: int) returns (zones: seq<Zone>)
      requires Valid()
      modifies this
      ensures Valid() && history == old(history) + [Look(now)]
      ensures zones == FileAfter(file, history)
    {
      RemoveExpired(now);
      zones := At(file);
      Append(Look(now));
    }

    /** The test ignores columns: it is asked about a whole line. */
    method IsClaimedByOther(file: string, line: int, participantId: string, now: int) returns (claimed: bool)
      requires Valid()
      modifies this
      ensures Valid() && history == old(history) + [Look(now)]
      ensures claimed <==>
                exists z :: z in FileAfter(file, history) && z.claimerId != participantId &&
                            z.region.startLine <= line <= z.region.endLine
    {
      RemoveExpired(now);
      var fileClaims := At(file);
      Append(Look(now));
      claimed := exists z :: z in fileClaims && z.claimerId != participantId &&
                             z.region.startLine <= line <= z.region.endLine;
    }

    method GrantClaim(request: Request, now: int) returns (outcome: Outcome)
      requires NoEmptyLists()
      modifies this`claims
      ensures NoEmptyLists()
      ensures forall f {:trigger At(f)} ::
                At(f) == if f == request.file
                         then Select(NotBy({request.participantId}), old(At(f))) + [NewZone(request, now)]
                         else old(At(f))
      ensures outcome == Granted(NewZone(request, now))
    {
      var zone := NewZone(request, now);
      RemoveClaim(request.file, request.participantId);
      claims := claims[request.file := At(request.file) + [zone]];
      outcome := Granted(zone);
    }

    method RemoveClaim(file: string, participantId: string)
      requires NoEmptyLists()
      modifies this`claims
      ensures NoEmptyLists()
      ensures forall f {:trigger At(f)} ::
                At(f) == if f == file then Select(NotBy({participantId}), old(At(f))) else old(At(f))
    {
      if file in claims {
        var filtered := Select(NotBy({participantId}), claims[file]);
        Store(file, filtered);
      }
    }

    method Store(file: string, zones: seq<Zone>)
      requires NoEmptyLists()
      modifies this`claims
      ensures NoEmptyLists()
      ensures forall f {:trigger At(f)} :: At(f) == if f == file then zones else old(At(f))
    {
      if zones == [] {
        claims := claims - {file};
      } else {
        claims := claims[file := zones];
      }
    }

    /** Evicts the holders of the given claims one after the other. */
    method RemoveClaimers(file: string, zones: seq<Zone>)
      requires NoEmptyLists()
      modifies this`claims
      ensures NoEmptyLists()
      ensures forall f {:trigger At(f)} ::
                At(f) == if f == file then Select(NotBy(Claimers(zones)), old(At(f))) else old(At(f))
    {
      SelectAll(NotBy({}), At(file));
      assert Claimers(zones[..0]) == {};
      for i := 0 to |zones|
        invariant NoEmptyLists()
        invariant forall f {:trigger At(f)} ::
                    At(f) == if f == file then Select(NotBy(Claimers(zones[..i])), old(At(f))) else old(At(f))
      {
        SelectNotByTwice(Claimers(zones[..i]), {zones[i].claimerId}, old(At(file)));
        assert zones[..i + 1] == zones[..i] + [zones[i]];
        assert Claimers(zones[..i + 1]) == Claimers(zones[..i]) + {zones[i].claimerId};
        RemoveClaim(file, zones[i].claimerId);
      }
      assert zones[..|zones|] == zones;
    }

    method RemoveExpired(now: int)
      requires NoEmptyLists()
      modifies this`claims
      ensures NoEmptyLists()
      ensures forall f {:trigger At(f)} :: At(f) == Select(ActiveAt(now), old(At(f)))
    {
      var todo := claims.Keys;
      while todo != {}
        invariant NoEmptyLists()
        invariant forall f {:trigger At(f)} ::
                    At(f) == if f in todo then old(At(f)) else Select(ActiveAt(now), old(At(f)))
        decreases |todo|
      {
        var file :| file in todo;
        var active := Select(ActiveAt(now), At(file));
        SelectLength(ActiveAt(now), At(file));
        if active == [] || |active| != |At(file)| {
          Store(file, active);
        }
        todo := todo - {file};
      }
    }

    ghost method Append(op: Op)
      requires NoEmptyLists()
      requires forall f {:trigger At(f)} :: At(f) == FileStep(f, FileAfter(f, history), op)
      modifies this`history
      ensures Valid() && history == old(history) + [op]
    {
      history := history + [op];
      assert history[..|history| - 1] == old(history);
    }
  }
}
