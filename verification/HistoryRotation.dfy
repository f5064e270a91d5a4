/** Which session logs `rotateHistory` deletes, and how it accounts for their bytes. */
module HistoryRotation {
  import opened Wrappers

  datatype Session = Session(id: string, lastEntry: int, size: nat)

  /** A limit that is absent or zero is no limit. */
  datatype Limits = Limits(maxAgeMs: int, maxSessions: Option<int>, maxSizeBytes: Option<int>)

  datatype Pass = Age | Count | Size

  /** Whether the file system lets a session's file be deleted when a pass tries to. */
  type Unlink = (Pass, string) -> bool

  const MS_PER_DAY := 24 * 60 * 60 * 1000

  function LimitsOf(maxAgeDays: Option<int>, maxSizeBytes: Option<int>, maxSessions: Option<int>): Limits {
    Limits((if maxAgeDays.Some? then maxAgeDays.value else 30) * MS_PER_DAY, maxSessions, maxSizeBytes)
  }

  // ---------------------------------------------------------------------
  // Lists of sessions
  // ---------------------------------------------------------------------

  function Total(list: seq<Session>): nat {
    if list == [] then 0 else Total(list[..|list| - 1]) + list[|list| - 1].size
  }

  function Ids(list: seq<Session>): seq<string> {
    if list == [] then [] else Ids(list[..|list| - 1]) + [list[|list| - 1].id]
  }

  /** The sessions whose ids are not among `ids`. */
  function Without(list: seq<Session>, ids: seq<string>): seq<Session> {
    if list == [] then []
    else
      var front, last := Without(list[..|list| - 1], ids), list[|list| - 1];
      if last.id in ids then front else front + [last]
  }

  /** The ids are the names of distinct files. */
  predicate DistinctIds(list: seq<Session>) {
    list == [] ||
    var n := |list| - 1;
    DistinctIds(list[..n]) && list[n].id !in Ids(list[..n])
  }

  predicate UpTo(list: seq<Session>, t: int) {
    forall s :: s in list ==> s.lastEntry <= t
  }

  predicate OldestFirst(list: seq<Session>) {
    list == [] ||
    var n := |list| - 1;
    OldestFirst(list[..n]) && UpTo(list[..n], list[n].lastEntry)
  }

  /** Puts `s` after every session at most as young. */
  function InsertByAge(list: seq<Session>, s: Session): seq<Session> {
    if list == [] then [s]
    else
      var n := |list| - 1;
      if list[n].lastEntry <= s.lastEntry then list + [s] else InsertByAge(list[..n], s) + [list[n]]
  }

  /** The stable sort by last entry. */
  function SortByAge(list: seq<Session>): seq<Session> {
    if list == [] then [] else InsertByAge(SortByAge(list[..|list| - 1]), list[|list| - 1])
  }

  lemma FrontAndLast<T>(list: seq<T>)
    requires list != []
    ensures list == list[..|list| - 1] + [list[|list| - 1]]
    ensures multiset(list) == multiset(list[..|list| - 1]) + multiset{list[|list| - 1]}
  {
    assert list == list[..|list| - 1] + [list[|list| - 1]];
  }

  lemma Snoc(list: seq<Session>, s: Session)
    ensures OldestFirst(list + [s]) <==> OldestFirst(list) && UpTo(list, s.lastEntry)
    ensures DistinctIds(list + [s]) <==> DistinctIds(list) && s.id !in Ids(list)
    ensures Total(list + [s]) == Total(list) + s.size
    ensures Ids(list + [s]) == Ids(list) + [s.id]
  {
    assert (list + [s])[..|list|] == list;
  }

  lemma {:induction false} IdsOf(list: seq<Session>, s: Session)
    requires s in list
    ensures s.id in Ids(list)
  {
    var n := |list| - 1;
    FrontAndLast(list);
    if s == list[n] {
      assert Ids(list)[|Ids(list)| - 1] == s.id;
    } else {
      IdsOf(list[..n], s);
    }
  }

  lemma {:induction false} InsertKeepsAll(list: seq<Session>, s: Session)
    ensures multiset(InsertByAge(list, s)) == multiset(list) + multiset{s}
  {
    if list != [] {
      var n := |list| - 1;
      FrontAndLast(list);
      if list[n].lastEntry > s.lastEntry {
        InsertKeepsAll(list[..n], s);
      }
    }
  }

  lemma {:induction false} InsertSorts(list: seq<Session>, s: Session)
    requires OldestFirst(list)
    ensures OldestFirst(InsertByAge(list, s))
  {
    if list != [] {
      var n := |list| - 1;
      if list[n].lastEntry <= s.lastEntry {
        FrontAndLast(list);
        Snoc(list, s);
      } else {
        var rest := InsertByAge(list[..n], s);
        InsertSorts(list[..n], s);
        InsertKeepsAll(list[..n], s);
        forall x | x in rest
          ensures x.lastEntry <= list[n].lastEntry
        {
          assert x in multiset(rest);
        }
        Snoc(rest, list[n]);
      }
    }
  }

  lemma {:induction false} SortSorts(list: seq<Session>)
    ensures OldestFirst(SortByAge(list)) && multiset(SortByAge(list)) == multiset(list)
  {
    if list != [] {
      var n := |list| - 1;
      SortSorts(list[..n]);
      FrontAndLast(list);
      InsertSorts(SortByAge(list[..n]), list[n]);
      InsertKeepsAll(SortByAge(list[..n]), list[n]);
    }
  }

  lemma {:induction false} InsertKeepsIds(list: seq<Session>, s: Session, id: string)
    ensures id in Ids(InsertByAge(list, s)) <==> id in Ids(list) || id == s.id
  {
    Snoc(list, s);
    if list != [] {
      var n := |list| - 1;
      if list[n].lastEntry > s.lastEntry {
        InsertKeepsIds(list[..n], s, id);
        Snoc(InsertByAge(list[..n], s), list[n]);
      }
    }
  }

  lemma {:induction false} InsertKeepsDistinct(list: seq<Session>, s: Session)
    requires DistinctIds(list) && s.id !in Ids(list)
    ensures DistinctIds(InsertByAge(list, s))
  {
    Snoc(list, s);
    if list != [] {
      var n := |list| - 1;
      if list[n].lastEntry > s.lastEntry {
        InsertKeepsDistinct(list[..n], s);
        InsertKeepsIds(list[..n], s, list[n].id);
        Snoc(InsertByAge(list[..n], s), list[n]);
      }
    }
  }

  lemma {:induction false} SortKeepsDistinct(list: seq<Session>)
    requires DistinctIds(list)
    ensures DistinctIds(SortByAge(list))
    ensures forall id :: id in Ids(SortByAge(list)) <==> id in Ids(list)
  {
    if list != [] {
      var n := |list| - 1;
      SortKeepsDistinct(list[..n]);
      InsertKeepsDistinct(SortByAge(list[..n]), list[n]);
      forall id
        ensures id in Ids(SortByAge(list)) <==> id in Ids(list)
      {
        InsertKeepsIds(SortByAge(list[..n]), list[n], id);
      }
    }
  }

  // ---------------------------------------------------------------------
  // What is left after deleting some ids
  // ---------------------------------------------------------------------

  lemma WithoutSnoc(list: seq<Session>, s: Session, ids: seq<string>)
    ensures Without(list + [s], ids) ==
              if s.id in ids then Without(list, ids) else Without(list, ids) + [s]
  {
    assert (list + [s])[..|list|] == list;
  }

  /** The bytes left do not depend on the order of the list. */
  lemma {:induction false} InsertKeepsBytes(list: seq<Session>, s: Session, ids: seq<string>)
    ensures Total(Without(InsertByAge(list, s), ids)) ==
              Total(Without(list, ids)) + if s.id in ids then 0 else s.size
  {
    WithoutSnoc(list, s, ids);
    Snoc(Without(list, ids), s);
    if list != [] {
      var n := |list| - 1;
      if list[n].lastEntry > s.lastEntry {
        var rest := InsertByAge(list[..n], s);
        InsertKeepsBytes(list[..n], s, ids);
        WithoutSnoc(rest, list[n], ids);
        Snoc(Without(rest, ids), list[n]);
        Snoc(Without(list[..n], ids), list[n]);
      }
    }
  }

  lemma {:induction false} SortKeepsBytes(list: seq<Session>, ids: seq<string>)
    ensures Total(Without(SortByAge(list), ids)) == Total(Without(list, ids))
  {
    if list != [] {
      var n := |list| - 1;
      SortKeepsBytes(list[..n], ids);
      InsertKeepsBytes(SortByAge(list[..n]), list[n], ids);
      Snoc(Without(list[..n], ids), list[n]);
    }
  }

  lemma {:induction false} WithoutIff(list: seq<Session>, ids: seq<string>, s: Session)
    ensures s in Without(list, ids) <==> s in list && s.id !in ids
  {
    if list != [] {
      FrontAndLast(list);
      WithoutIff(list[..|list| - 1], ids, s);
    }
  }

  lemma {:induction false} WithoutKeepsDistinct(list: seq<Session>, ids: seq<string>)
    requires DistinctIds(list)
    ensures DistinctIds(Without(list, ids))
    ensures forall id :: id in Ids(Without(list, ids)) ==> id in Ids(list)
  {
    if list != [] {
      var n := |list| - 1;
      WithoutKeepsDistinct(list[..n], ids);
      Snoc(Without(list[..n], ids), list[n]);
    }
  }

  lemma {:induction false} WithoutUnused(list: seq<Session>, ids: seq<string>, id: string)
    requires id !in Ids(list)
    ensures Without(list, ids + [id]) == Without(list, ids)
  {
    if list != [] {
      var n := |list| - 1;
      assert Ids(list)[|Ids(list)| - 1] == list[n].id;
      assert Ids(list)[..|Ids(list)| - 1] == Ids(list[..n]);
      WithoutUnused(list[..n], ids, id);
    }
  }

  /** Deleting one more session takes exactly its bytes from what is left. */
  lemma {:induction false} DeleteOne(list: seq<Session>, ids: seq<string>, s: Session)
    requires DistinctIds(list) && s in list && s.id !in ids
    ensures Total(Without(list, ids + [s.id])) + s.size == Total(Without(list, ids))
  {
    var n := |list| - 1;
    var front, last := list[..n], list[n];
    var more := ids + [s.id];
    FrontAndLast(list);
    Snoc(Without(front, ids), last);
    Snoc(Without(front, more), last);
    assert last.id in more <==> last.id in ids || last.id == s.id;
    if s == last {
      WithoutUnused(front, ids, s.id);
      assert Without(list, more) == Without(front, more) == Without(front, ids);
      assert Without(list, ids) == Without(front, ids) + [last];
    } else {
      IdsOf(front, s);
      assert last.id != s.id;
      DeleteOne(front, ids, s);
    }
  }

  lemma IdsSnoc(list: seq<Session>, s: Session)
    ensures Ids(list + [s]) == Ids(list) + [s.id]
  {
    assert (list + [s])[..|list|] == list;
  }

  lemma Regroup(p: seq<string>, q: seq<string>, id: string)
    ensures p + q + [id] == p + (q + [id])
  {
  }

  lemma {:induction false} IdsConcat(front: seq<Session>, rest: seq<Session>)
    ensures Ids(front + rest) == Ids(front) + Ids(rest)
  {
    if rest == [] {
      assert front + rest == front;
    } else {
      var init, last := rest[..|rest| - 1], rest[|rest| - 1];
      IdsConcat(front, init);
      assert front + rest == front + init + [last];
      IdsSnoc(front + init, last);
      Regroup(Ids(front), Ids(init), last.id);
    }
  }

  lemma {:induction false} WithoutAll(list: seq<Session>, ids: seq<string>)
    requires forall s :: s in list ==> s.id in ids
    ensures Without(list, ids) == []
  {
    if list != [] {
      FrontAndLast(list);
      WithoutAll(list[..|list| - 1], ids);
    }
  }

  lemma AllDeleted(list: seq<Session>)
    ensures Without(list, Ids(list)) == []
  {
    forall s | s in list
      ensures s.id in Ids(list)
    {
      IdsOf(list, s);
    }
    WithoutAll(list, Ids(list));
  }

  /** A session whose id is not in the front survives the deletion of the front. */
  lemma LastSurvives(front: seq<Session>, middle: seq<Session>, last: Session)
    requires DistinctIds(front + middle + [last])
    ensures DistinctIds(front + middle) && last.id !in Ids(front)
  {
    Snoc(front + middle, last);
    IdsConcat(front, middle);
  }

  /** Deleting the ids of the front of a list leaves the rest of it. */
  lemma {:induction false} WithoutFront(front: seq<Session>, rest: seq<Session>)
    requires DistinctIds(front + rest)
    ensures Without(front + rest, Ids(front)) == rest
  {
    if rest == [] {
      assert front + rest == front;
      AllDeleted(front);
    } else {
      var middle, last := rest[..|rest| - 1], rest[|rest| - 1];
      assert rest == middle + [last];
      assert front + rest == front + middle + [last];
      LastSurvives(front, middle, last);
      WithoutFront(front, middle);
      WithoutSnoc(front + middle, last, Ids(front));
    }
  }

  lemma {:induction false} NothingDeleted(list: seq<Session>)
    ensures Without(list, []) == list
  {
    if list != [] {
      FrontAndLast(list);
      NothingDeleted(list[..|list| - 1]);
    }
  }

  // ---------------------------------------------------------------------
  // The limits, and the longest list that meets them
  // ---------------------------------------------------------------------

  predicate TooOld(s: Session, maxAgeMs: int, now: int) {
    now - s.lastEntry > maxAgeMs
  }

  predicate Limited(limit: Option<int>) {
    limit.Some? && limit.value != 0
  }

  /** Nothing is too old, and the count and the size are within their limits unless nothing is left. */
  predicate Meets(list: seq<Session>, limits: Limits, now: int) {
    list == [] ||
    ((forall s :: s in list ==> !TooOld(s, limits.maxAgeMs, now)) &&
     (Limited(limits.maxSessions) ==> |list| <= limits.maxSessions.value) &&
     (Limited(limits.maxSizeBytes) ==> Total(list) <= limits.maxSizeBytes.value))
  }

  /** What is left when the oldest session is dropped again and again until the limits are met. */
  function LongestAllowed(list: seq<Session>, limits: Limits, now: int): seq<Session> {
    if Meets(list, limits, now) then list else LongestAllowed(list[1..], limits, now)
  }

  /** It is the longest end of the list that meets the limits. */
  lemma {:induction false} LongestAllowedIff(list: seq<Session>, limits: Limits, now: int, k: nat)
    requires k <= |list|
    ensures |LongestAllowed(list, limits, now)| <= |list|
    ensures LongestAllowed(list, limits, now) == list[k..] <==>
              Meets(list[k..], limits, now) && forall j :: 0 <= j < k ==> !Meets(list[j..], limits, now)
  {
    assert list[0..] == list;
    if !Meets(list, limits, now) {
      var rest := list[1..];
      if k > 0 {
        LongestAllowedIff(rest, limits, now, k - 1);
        assert rest[k - 1..] == list[k..];
        assert forall j :: 0 < j < k ==> rest[j - 1..] == list[j..];
        forall j | 0 <= j < k - 1
          ensures rest[j..] == list[j + 1..]
        {
        }
      } else {
        LongestAllowedIff(rest, limits, now, 0);
      }
    }
  }

  function Old(list: seq<Session>, maxAgeMs: int, now: int): seq<Session> {
    if list == [] then []
    else
      var front, last := Old(list[..|list| - 1], maxAgeMs, now), list[|list| - 1];
      if TooOld(last, maxAgeMs, now) then front + [last] else front
  }

  function Young(list: seq<Session>, maxAgeMs: int, now: int): seq<Session> {
    if list == [] then []
    else
      var front, last := Young(list[..|list| - 1], maxAgeMs, now), list[|list| - 1];
      if TooOld(last, maxAgeMs, now) then front else front + [last]
  }

  /** How many the count pass goes for: all that exceed the limit, and no more than there are. */
  function CountCut(count: nat, limit: Option<int>): nat {
    if Limited(limit) && count > limit.value
    then if limit.value < 0 then count else count - limit.value
    else 0
  }

  /** How many the size pass goes for, if every deletion succeeds. */
  function SizeCut(list: seq<Session>, limit: Option<int>): nat {
    if list == [] || !Limited(limit) || Total(list) <= limit.value then 0 else 1 + SizeCut(list[1..], limit)
  }

  lemma {:induction false} OldAndYoung(list: seq<Session>, maxAgeMs: int, now: int)
    ensures forall s :: s in Old(list, maxAgeMs, now) ==> s in list && TooOld(s, maxAgeMs, now)
    ensures forall s :: s in Young(list, maxAgeMs, now) ==> s in list && !TooOld(s, maxAgeMs, now)
  {
    if list != [] {
      FrontAndLast(list);
      OldAndYoung(list[..|list| - 1], maxAgeMs, now);
    }
  }

  lemma {:induction false} AllOldNoneYoung(list: seq<Session>, maxAgeMs: int, now: int)
    requires forall s :: s in list ==> TooOld(s, maxAgeMs, now)
    ensures Young(list, maxAgeMs, now) == []
  {
    if list != [] {
      FrontAndLast(list);
      AllOldNoneYoung(list[..|list| - 1], maxAgeMs, now);
    }
  }

  /** On a list sorted by age the old sessions come first. */
  lemma {:induction false} OldComeFirst(list: seq<Session>, maxAgeMs: int, now: int)
    requires OldestFirst(list)
    ensures list == Old(list, maxAgeMs, now) + Young(list, maxAgeMs, now)
  {
    if list != [] {
      var n := |list| - 1;
      FrontAndLast(list);
      OldComeFirst(list[..n], maxAgeMs, now);
      if TooOld(list[n], maxAgeMs, now) {
        AllOldNoneYoung(list[..n], maxAgeMs, now);
      }
    }
  }

  lemma {:induction false} TotalFirst(list: seq<Session>)
    requires list != []
    ensures Total(list) == list[0].size + Total(list[1..])
  {
    var n := |list| - 1;
    if n > 0 {
      TotalFirst(list[..n]);
      assert list[..n][1..] == list[1..][..n - 1];
    }
  }

  /** Sessions that are too old are in no list that meets the limits. */
  lemma {:induction false} DropOld(front: seq<Session>, rest: seq<Session>, limits: Limits, now: int)
    requires forall s :: s in front ==> TooOld(s, limits.maxAgeMs, now)
    ensures LongestAllowed(front + rest, limits, now) == LongestAllowed(rest, limits, now)
  {
    if front == [] {
      assert front + rest == rest;
    } else {
      assert front[0] in front && (front + rest)[0] == front[0];
      assert !Meets(front + rest, limits, now);
      assert (front + rest)[1..] == front[1..] + rest;
      DropOld(front[1..], rest, limits, now);
    }
  }

  /** A list longer than the count limit does not meet it. */
  lemma {:induction false} DropExcess(front: seq<Session>, rest: seq<Session>, limits: Limits, now: int)
    requires front != [] ==> Limited(limits.maxSessions) && |rest| >= limits.maxSessions.value
    ensures LongestAllowed(front + rest, limits, now) == LongestAllowed(rest, limits, now)
  {
    if front == [] {
      assert front + rest == rest;
    } else {
      assert !Meets(front + rest, limits, now);
      assert (front + rest)[1..] == front[1..] + rest;
      DropExcess(front[1..], rest, limits, now);
    }
  }

  /** Once nothing is too old and the count fits, size alone decides. */
  lemma {:induction false} DropBySize(list: seq<Session>, limits: Limits, now: int)
    requires forall s :: s in list ==> !TooOld(s, limits.maxAgeMs, now)
    requires CountCut(|list|, limits.maxSessions) == 0
    ensures SizeCut(list, limits.maxSizeBytes) <= |list|
    ensures LongestAllowed(list, limits, now) == list[SizeCut(list, limits.maxSizeBytes)..]
  {
    assert list[0..] == list;
    if !Meets(list, limits, now) {
      var rest := list[1..];
      DropBySize(rest, limits, now);
      var z := SizeCut(rest, limits.maxSizeBytes);
      assert rest[z..] == list[z + 1..];
    }
  }

  // ---------------------------------------------------------------------
  // The three passes
  // ---------------------------------------------------------------------

  /** No byte is lost: what was freed and what is left make up the initial total. */
  predicate Accounted(infos: seq<Session>, deleted: seq<string>, freed: int) {
    freed + Total(Without(infos, deleted)) == Total(infos)
  }

  ghost predicate AllSucceed(unlinks: Unlink) {
    forall pass, id :: unlinks(pass, id)
  }

  /** Which sessions a pass goes for, of those it looks at. */
  datatype Due = Always | OlderThan(maxAgeMs: int, now: int)

  predicate IsDue(due: Due, s: Session) {
    due.Always? || TooOld(s, due.maxAgeMs, due.now)
  }

  predicate Gone(s: Session, due: Due, pass: Pass, unlinks: Unlink) {
    IsDue(due, s) && unlinks(pass, s.id)
  }

  /** The ids a pass deletes among the first `n` sessions of its list. */
  function Swept(list: seq<Session>, n: nat, due: Due, pass: Pass, unlinks: Unlink): seq<string>
    requires n <= |list|
  {
    if n == 0 then []
    else
      var before := Swept(list, n - 1, due, pass, unlinks);
      if Gone(list[n - 1], due, pass, unlinks) then before + [list[n - 1].id] else before
  }

  function SweptBytes(list: seq<Session>, n: nat, due: Due, pass: Pass, unlinks: Unlink): nat
    requires n <= |list|
  {
    if n == 0 then 0
    else
      SweptBytes(list, n - 1, due, pass, unlinks) +
      if Gone(list[n - 1], due, pass, unlinks) then list[n - 1].size else 0
  }

  method AgePass(infos: seq<Session>, maxAgeMs: int, now: int, unlinks: Unlink)
    returns (deleted: seq<string>, freed: nat)
    ensures deleted == Swept(infos, |infos|, OlderThan(maxAgeMs, now), Age, unlinks)
    ensures freed == SweptBytes(infos, |infos|, OlderThan(maxAgeMs, now), Age, unlinks)
  {
    deleted, freed := [], 0;
    for i := 0 to |infos|
      invariant deleted == Swept(infos, i, OlderThan(maxAgeMs, now), Age, unlinks)
      invariant freed == SweptBytes(infos, i, OlderThan(maxAgeMs, now), Age, unlinks)
    {
      if TooOld(infos[i], maxAgeMs, now) {
        if unlinks(Age, infos[i].id) {
          deleted := deleted + [infos[i].id];
          freed := freed + infos[i].size;
        }
      }
    }
  }

  method CountPass(toDelete: seq<Session>, unlinks: Unlink, already: seq<string>, before: nat)
    returns (deleted: seq<string>, freed: nat)
    ensures deleted == already + Swept(toDelete, |toDelete|, Always, Count, unlinks)
    ensures freed == before + SweptBytes(toDelete, |toDelete|, Always, Count, unlinks)
  {
    deleted, freed := already, before;
    for i := 0 to |toDelete|
      invariant deleted == already + Swept(toDelete, i, Always, Count, unlinks)
      invariant freed == before + SweptBytes(toDelete, i, Always, Count, unlinks)
    {
      if unlinks(Count, toDelete[i].id) {
        deleted := deleted + [toDelete[i].id];
        freed := freed + toDelete[i].size;
      }
    }
  }

  /** The bytes left after the size pass has looked at `n` sessions. */
  function Left(remaining: seq<Session>, n: nat, unlinks: Unlink): int
    requires n <= |remaining|
  {
    Total(remaining) - SweptBytes(remaining, n, Always, Size, unlinks)
  }

  /** Where the size pass, having looked at `n` sessions, stops: where the limit is met, or at the end. */
  function StopFrom(remaining: seq<Session>, n: nat, limit: int, unlinks: Unlink): nat
    requires n <= |remaining|
    decreases |remaining| - n
  {
    if n == |remaining| || Left(remaining, n, unlinks) <= limit then n
    else StopFrom(remaining, n + 1, limit, unlinks)
  }

  lemma {:induction false} StopFromIsLeast(remaining: seq<Session>, n: nat, limit: int, unlinks: Unlink)
    requires n <= |remaining|
    ensures var stop := StopFrom(remaining, n, limit, unlinks);
            n <= stop <= |remaining| &&
            (stop == |remaining| || Left(remaining, stop, unlinks) <= limit) &&
            forall k :: n <= k < stop ==> Left(remaining, k, unlinks) > limit
    decreases |remaining| - n
  {
    if n < |remaining| && Left(remaining, n, unlinks) > limit {
      StopFromIsLeast(remaining, n + 1, limit, unlinks);
    }
  }

  method SizePass(remaining: seq<Session>, limit: int, unlinks: Unlink, already: seq<string>, before: nat)
    returns (deleted: seq<string>, freed: nat)
    ensures var stop := StopFrom(remaining, 0, limit, unlinks);
            stop <= |remaining| &&
            deleted == already + Swept(remaining, stop, Always, Size, unlinks) &&
            freed == before + SweptBytes(remaining, stop, Always, Size, unlinks)
  {
    deleted, freed := already, before;
    var totalSize := Total(remaining);
    var i := 0;
    while i < |remaining|
      invariant 0 <= i <= |remaining| && totalSize == Left(remaining, i, unlinks)
      invariant StopFrom(remaining, 0, limit, unlinks) == StopFrom(remaining, i, limit, unlinks)
      invariant deleted == already + Swept(remaining, i, Always, Size, unlinks)
      invariant freed == before + SweptBytes(remaining, i, Always, Size, unlinks)
    {
      if totalSize <= limit {
        break;
      }
      if unlinks(Size, remaining[i].id) {
        deleted := deleted + [remaining[i].id];
        freed := freed + remaining[i].size;
        totalSize := totalSize - remaining[i].size;
      }
      i := i + 1;
    }
  }

  // ---------------------------------------------------------------------
  // What a pass comes to
  // ---------------------------------------------------------------------

  /** The list of a pass: some of the sessions, none of them deleted yet. */
  predicate Pending(infos: seq<Session>, list: seq<Session>, already: seq<string>) {
    DistinctIds(list) &&
    forall k {:trigger Undeleted(infos, list[k], already)} :: 0 <= k < |list| ==> Undeleted(infos, list[k], already)
  }

  predicate Undeleted(infos: seq<Session>, s: Session, already: seq<string>) {
    s in infos && s.id !in already
  }

  lemma {:induction false} DistinctPairs(list: seq<Session>, j: nat, k: nat)
    requires DistinctIds(list) && j < k < |list|
    ensures list[j].id != list[k].id
  {
    var n := |list| - 1;
    if k < n {
      DistinctPairs(list[..n], j, k);
    } else {
      assert list[..n][j] in list[..n];
      IdsOf(list[..n], list[j]);
    }
  }

  lemma {:induction false} SweptIff(
    list: seq<Session>, n: nat, due: Due, pass: Pass, unlinks: Unlink, k: nat)
    requires DistinctIds(list) && n <= |list| && k < |list|
    ensures list[k].id in Swept(list, n, due, pass, unlinks) <==> k < n && Gone(list[k], due, pass, unlinks)
  {
    if n > 0 {
      SweptIff(list, n - 1, due, pass, unlinks, k);
      if k < n - 1 {
        DistinctPairs(list, k, n - 1);
      } else if k > n - 1 {
        DistinctPairs(list, n - 1, k);
      }
    }
  }

  /** One more session looked at, and deleted if `gone`. */
  lemma AccountOne(
    infos: seq<Session>, already: seq<string>, swept: seq<string>, freed: int, s: Session, gone: bool)
    requires DistinctIds(infos) && Accounted(infos, already + swept, freed)
    requires Undeleted(infos, s, already + swept)
    ensures Accounted(infos, already + if gone then swept + [s.id] else swept, if gone then freed + s.size else freed)
  {
    if gone {
      DeleteOne(infos, already + swept, s);
      Regroup(already, swept, s.id);
    }
  }

  lemma NextIsUndeleted(
    infos: seq<Session>, list: seq<Session>, n: nat, due: Due, pass: Pass, unlinks: Unlink, already: seq<string>)
    requires Pending(infos, list, already) && n < |list|
    ensures Undeleted(infos, list[n], already + Swept(list, n, due, pass, unlinks))
  {
    assert Undeleted(infos, list[n], already);
    SweptIff(list, n, due, pass, unlinks, n);
  }

  ghost predicate AccountedAfter(
    infos: seq<Session>, list: seq<Session>, n: nat, due: Due, pass: Pass, unlinks: Unlink,
    already: seq<string>, before: nat)
    requires n <= |list|
  {
    Accounted(infos, already + Swept(list, n, due, pass, unlinks), before + SweptBytes(list, n, due, pass, unlinks))
  }

  lemma AccountNext(
    infos: seq<Session>, list: seq<Session>, n: nat, due: Due, pass: Pass, unlinks: Unlink,
    already: seq<string>, before: nat)
    requires DistinctIds(infos) && Pending(infos, list, already) && n < |list|
    requires AccountedAfter(infos, list, n, due, pass, unlinks, already, before)
    ensures AccountedAfter(infos, list, n + 1, due, pass, unlinks, already, before)
  {
    NextIsUndeleted(infos, list, n, due, pass, unlinks, already);
    AccountOne(infos, already, Swept(list, n, due, pass, unlinks),
               before + SweptBytes(list, n, due, pass, unlinks), list[n], Gone(list[n], due, pass, unlinks));
  }

  /** A pass keeps the books: every byte it frees is a byte less left. */
  lemma {:induction false} PassAccounts(
    infos: seq<Session>, list: seq<Session>, n: nat, due: Due, pass: Pass, unlinks: Unlink,
    already: seq<string>, before: nat)
    requires DistinctIds(infos) && Accounted(infos, already, before)
    requires Pending(infos, list, already) && n <= |list|
    ensures AccountedAfter(infos, list, n, due, pass, unlinks, already, before)
  {
    if n == 0 {
      assert already + [] == already;
    } else {
      PassAccounts(infos, list, n - 1, due, pass, unlinks, already, before);
      AccountNext(infos, list, n - 1, due, pass, unlinks, already, before);
    }
  }

  /** If all deletions succeed, an unconditional pass deletes what it looks at. */
  lemma {:induction false} SweptAll(list: seq<Session>, n: nat, pass: Pass, unlinks: Unlink)
    requires AllSucceed(unlinks) && n <= |list|
    ensures Swept(list, n, Always, pass, unlinks) == Ids(list[..n])
    ensures SweptBytes(list, n, Always, pass, unlinks) == Total(list[..n])
  {
    if n > 0 {
      SweptAll(list, n - 1, pass, unlinks);
      assert list[..n] == list[..n - 1] + [list[n - 1]];
      Snoc(list[..n - 1], list[n - 1]);
    }
  }

  lemma {:induction false} SweptOld(list: seq<Session>, n: nat, maxAgeMs: int, now: int, unlinks: Unlink)
    requires AllSucceed(unlinks) && n <= |list|
    ensures Swept(list, n, OlderThan(maxAgeMs, now), Age, unlinks) == Ids(Old(list[..n], maxAgeMs, now))
  {
    if n > 0 {
      SweptOld(list, n - 1, maxAgeMs, now, unlinks);
      assert list[..n][..n - 1] == list[..n - 1];
      Snoc(Old(list[..n - 1], maxAgeMs, now), list[n - 1]);
    }
  }

  lemma {:induction false} TotalSplit(list: seq<Session>, n: nat)
    requires n <= |list|
    ensures Total(list) == Total(list[..n]) + Total(list[n..])
  {
    if n < |list| {
      var front := list[..|list| - 1];
      TotalSplit(front, n);
      assert front[..n] == list[..n] && front[n..] == list[n..][..|list| - n - 1];
    } else {
      assert list[..n] == list && list[n..] == [];
    }
  }

  lemma LeftIsSuffix(remaining: seq<Session>, n: nat, unlinks: Unlink)
    requires AllSucceed(unlinks) && n <= |remaining|
    ensures Left(remaining, n, unlinks) == Total(remaining[n..])
  {
    SweptAll(remaining, n, Size, unlinks);
    TotalSplit(remaining, n);
  }

  lemma {:induction false} SizeCutIs(list: seq<Session>, limit: Option<int>, k: nat)
    requires Limited(limit) && k <= |list|
    requires k == |list| || Total(list[k..]) <= limit.value
    requires forall j :: 0 <= j < k ==> Total(list[j..]) > limit.value
    ensures SizeCut(list, limit) == k
  {
    assert list[0..] == list;
    if k > 0 {
      assert Total(list[0..]) > limit.value;
      var rest := list[1..];
      assert rest[k - 1..] == list[k..];
      forall j | 0 <= j < k - 1
        ensures Total(rest[j..]) > limit.value
      {
        assert rest[j..] == list[j + 1..];
      }
      SizeCutIs(rest, limit, k - 1);
    }
  }

  /** If all deletions succeed, the size pass stops as soon as it can. */
  lemma StopIsSizeCut(remaining: seq<Session>, limit: Option<int>, unlinks: Unlink)
    requires AllSucceed(unlinks) && Limited(limit)
    ensures StopFrom(remaining, 0, limit.value, unlinks) == SizeCut(remaining, limit)
  {
    forall n | 0 <= n <= |remaining|
      ensures Left(remaining, n, unlinks) == Total(remaining[n..])
    {
      LeftIsSuffix(remaining, n, unlinks);
    }
    StopFromIsLeast(remaining, 0, limit.value, unlinks);
    SizeCutIs(remaining, limit, StopFrom(remaining, 0, limit.value, unlinks));
  }

  // ---------------------------------------------------------------------
  // Rotation
  // ---------------------------------------------------------------------

  /** What the size limit comes to: it is met, or nothing left could be deleted. */
  ghost predicate SizeEnforced(list: seq<Session>, limits: Limits, deleted: seq<string>, unlinks: Unlink) {
    Limited(limits.maxSizeBytes) ==>
      Total(Without(list, deleted)) <= limits.maxSizeBytes.value ||
      forall s :: s in Without(list, deleted) ==> !unlinks(Size, s.id)
  }

  /** The sessions left after some deletions are what a further pass may be given. */
  lemma LeftIsPending(infos: seq<Session>, already: seq<string>)
    requires DistinctIds(infos)
    ensures Pending(infos, Without(infos, already), already)
  {
    var remaining := Without(infos, already);
    WithoutKeepsDistinct(infos, already);
    forall k | 0 <= k < |remaining|
      ensures Undeleted(infos, remaining[k], already)
    {
      WithoutIff(infos, already, remaining[k]);
    }
  }

  lemma {:induction false} PrefixKeepsDistinct(list: seq<Session>, k: nat)
    requires DistinctIds(list) && k <= |list|
    ensures DistinctIds(list[..k])
  {
    if k == |list| {
      assert list[..k] == list;
    } else {
      var n := |list| - 1;
      assert list[..n][..k] == list[..k];
      PrefixKeepsDistinct(list[..n], k);
    }
  }

  lemma PrefixIsPending(infos: seq<Session>, list: seq<Session>, already: seq<string>, k: nat)
    requires Pending(infos, list, already) && k <= |list|
    ensures Pending(infos, list[..k], already)
  {
    PrefixKeepsDistinct(list, k);
    forall j | 0 <= j < k
      ensures Undeleted(infos, list[..k][j], already)
    {
      assert Undeleted(infos, list[j], already);
    }
  }

  // ---------------------------------------------------------------------
  // The count limit when deletions fail
  // ---------------------------------------------------------------------

  /** The sessions the count pass goes for, given what the age pass was able to delete. */
  function WentFor(infos: seq<Session>, limits: Limits, now: int, unlinks: Unlink): seq<Session> {
    var remaining := Without(infos, Swept(infos, |infos|, OlderThan(limits.maxAgeMs, now), Age, unlinks));
    remaining[..CountCut(|remaining|, limits.maxSessions)]
  }

  /** Of the sessions the count pass went for, those still left are failed deletions, and by no more than
      those is the count limit exceeded. */
  ghost predicate CountEnforced(
    infos: seq<Session>, limits: Limits, now: int, deleted: seq<string>, unlinks: Unlink)
  {
    Limited(limits.maxSessions) ==>
      var failed := Without(WentFor(infos, limits, now, unlinks), deleted);
      (forall s :: s in failed ==> !unlinks(Count, s.id)) &&
      |Without(infos, deleted)| <= AtLeastZero(limits.maxSessions.value) + |failed|
  }

  function AtLeastZero(n: int): nat {
    if n < 0 then 0 else n
  }

  lemma {:induction false} WithoutInTail(p: seq<Session>, q: seq<Session>, ids: seq<string>)
    ensures |Without(p + q, ids)| <= |Without(p, ids)| + |q|
  {
    if q == [] {
      assert p + q == p;
    } else {
      var front, last := q[..|q| - 1], q[|q| - 1];
      assert p + q == p + front + [last];
      WithoutInTail(p, front, ids);
      WithoutSnoc(p + front, last, ids);
    }
  }

  lemma {:induction false} WithoutTwice(list: seq<Session>, ids: seq<string>, more: seq<string>)
    ensures Without(list, ids + more) == Without(Without(list, ids), more)
  {
    if list != [] {
      var front, last := list[..|list| - 1], list[|list| - 1];
      WithoutTwice(front, ids, more);
      WithoutSnoc(Without(front, ids), last, more);
    }
  }

  lemma {:induction false} WithoutNone(list: seq<Session>, ids: seq<string>)
    requires forall s :: s in list ==> s.id !in ids
    ensures Without(list, ids) == list
  {
    if list != [] {
      FrontAndLast(list);
      WithoutNone(list[..|list| - 1], ids);
    }
  }

  /** What a pass and later ones leave of the sessions it went for, it failed to delete. */
  lemma LeftIsFailed(toDelete: seq<Session>, unlinks: Unlink, deleted: seq<string>)
    requires DistinctIds(toDelete)
    requires forall id :: id in Swept(toDelete, |toDelete|, Always, Count, unlinks) ==> id in deleted
    ensures forall s :: s in Without(toDelete, deleted) ==> !unlinks(Count, s.id)
  {
    forall s | s in Without(toDelete, deleted)
      ensures !unlinks(Count, s.id)
    {
      WithoutIff(toDelete, deleted, s);
      var k :| 0 <= k < |toDelete| && toDelete[k] == s;
      SweptIff(toDelete, |toDelete|, Always, Count, unlinks, k);
    }
  }

  /** Whatever is deleted after the age pass, what is left of the rest bounds what is left in all. */
  lemma LeftFits(infos: seq<Session>, aged: seq<string>, more: seq<string>, p: seq<Session>, q: seq<Session>)
    requires Without(infos, aged) == p + q
    ensures |Without(infos, aged + more)| <= |Without(p, aged + more)| + |q|
  {
    WithoutTwice(infos, aged, more);
    WithoutInTail(p, q, more);
    forall s | s in p
      ensures s.id !in aged
    {
      assert s in p + q;
      WithoutIff(infos, aged, s);
    }
    WithoutNone(p, aged);
    WithoutTwice(p, aged, more);
  }

  lemma CountStaysEnforced(
    infos: seq<Session>, limits: Limits, now: int, aged: seq<string>, deleted: seq<string>, unlinks: Unlink)
    requires DistinctIds(infos)
    requires aged == Swept(infos, |infos|, OlderThan(limits.maxAgeMs, now), Age, unlinks)
    requires var p := WentFor(infos, limits, now, unlinks);
             aged + Swept(p, |p|, Always, Count, unlinks) <= deleted
    ensures CountEnforced(infos, limits, now, deleted, unlinks)
  {
    var p, q := WentForSplits(infos, limits, now, unlinks);
    CountPassFits(infos, aged, p, q, deleted, unlinks);
  }

  lemma WentForSplits(infos: seq<Session>, limits: Limits, now: int, unlinks: Unlink)
    returns (p: seq<Session>, q: seq<Session>)
    requires DistinctIds(infos)
    ensures p == WentFor(infos, limits, now, unlinks) && DistinctIds(p)
    ensures Without(infos, Swept(infos, |infos|, OlderThan(limits.maxAgeMs, now), Age, unlinks)) == p + q
    ensures Limited(limits.maxSessions) ==> |q| <= AtLeastZero(limits.maxSessions.value)
  {
    var remaining := Without(infos, Swept(infos, |infos|, OlderThan(limits.maxAgeMs, now), Age, unlinks));
    var c := CountCut(|remaining|, limits.maxSessions);
    CutFits(|remaining|, limits.maxSessions);
    WithoutKeepsDistinct(infos, Swept(infos, |infos|, OlderThan(limits.maxAgeMs, now), Age, unlinks));
    p, q := SplitDistinct(remaining, c);
  }

  lemma CutFits(count: nat, limit: Option<int>)
    ensures CountCut(count, limit) <= count
    ensures Limited(limit) ==> count - CountCut(count, limit) <= AtLeastZero(limit.value)
  {
  }

  lemma SplitDistinct(list: seq<Session>, c: nat) returns (p: seq<Session>, q: seq<Session>)
    requires c <= |list| && DistinctIds(list)
    ensures p == list[..c] && list == p + q && |q| == |list| - c && DistinctIds(p)
  {
    p, q := list[..c], list[c..];
    PrefixKeepsDistinct(list, c);
  }

  lemma CountPassFits(
    infos: seq<Session>, aged: seq<string>, p: seq<Session>, q: seq<Session>, deleted: seq<string>, unlinks: Unlink)
    requires Without(infos, aged) == p + q && DistinctIds(p)
    requires aged + Swept(p, |p|, Always, Count, unlinks) <= deleted
    ensures forall s :: s in Without(p, deleted) ==> !unlinks(Count, s.id)
    ensures |Without(infos, deleted)| <= |Without(p, deleted)| + |q|
  {
    var swept := Swept(p, |p|, Always, Count, unlinks);
    forall id | id in swept
      ensures id in deleted
    {
      assert id in (aged + swept);
    }
    LeftIsFailed(p, unlinks, deleted);
    assert deleted == aged + deleted[|aged|..];
    LeftFits(infos, aged, deleted[|aged|..], p, q);
  }

  method EnforceCount(infos: seq<Session>, limits: Limits, unlinks: Unlink, already: seq<string>, before: nat)
    returns (deleted: seq<string>, freed: nat)
    requires DistinctIds(infos) && Accounted(infos, already, before)
    ensures Accounted(infos, deleted, freed)
    ensures var remaining := Without(infos, already);
            var c := CountCut(|remaining|, limits.maxSessions);
            c <= |remaining| && deleted == already + Swept(remaining[..c], c, Always, Count, unlinks) &&
            (AllSucceed(unlinks) ==> deleted == already + Ids(remaining[..c]))
  {
    deleted, freed := already, before;
    var remaining := Without(infos, already);
    ghost var c := CountCut(|remaining|, limits.maxSessions);
    CountPassFacts(infos, remaining[..c], remaining[c..], unlinks, already, before);
    assert remaining == remaining[..c] + remaining[c..];
    if Limited(limits.maxSessions) && |remaining| > limits.maxSessions.value {
      var toDelete := remaining[..CountCut(|remaining|, limits.maxSessions)];
      deleted, freed := CountPass(toDelete, unlinks, already, before);
    } else {
      assert remaining[..c] == [] && already + [] == already;
    }
  }

  lemma CountPassFacts(
    infos: seq<Session>, p: seq<Session>, q: seq<Session>, unlinks: Unlink, already: seq<string>, before: nat)
    requires DistinctIds(infos) && Accounted(infos, already, before) && Without(infos, already) == p + q
    ensures var deleted := already + Swept(p, |p|, Always, Count, unlinks);
            Accounted(infos, deleted, before + SweptBytes(p, |p|, Always, Count, unlinks)) &&
            (AllSucceed(unlinks) ==> deleted == already + Ids(p))
  {
    LeftIsPending(infos, already);
    PrefixIsPending(infos, p + q, already, |p|);
    assert (p + q)[..|p|] == p && p[..|p|] == p;
    PassAccounts(infos, p, |p|, Always, Count, unlinks, already, before);
    if AllSucceed(unlinks) {
      SweptAll(p, |p|, Count, unlinks);
    }
  }

  /** Looking at every session left and still exceeding the limit means that none of them could be deleted. */
  lemma LeftoversFailed(
    infos: seq<Session>, remaining: seq<Session>, already: seq<string>, unlinks: Unlink)
    requires DistinctIds(infos) && remaining == Without(infos, already)
    ensures var deleted := already + Swept(remaining, |remaining|, Always, Size, unlinks);
            forall s :: s in Without(infos, deleted) ==> !unlinks(Size, s.id)
  {
    var deleted := already + Swept(remaining, |remaining|, Always, Size, unlinks);
    WithoutKeepsDistinct(infos, already);
    forall s | s in Without(infos, deleted)
      ensures !unlinks(Size, s.id)
    {
      WithoutIff(infos, deleted, s);
      WithoutIff(infos, already, s);
      var k :| 0 <= k < |remaining| && remaining[k] == s;
      SweptIff(remaining, |remaining|, Always, Size, unlinks, k);
    }
  }

  method EnforceSize(infos: seq<Session>, limits: Limits, unlinks: Unlink, already: seq<string>, before: nat)
    returns (deleted: seq<string>, freed: nat)
    requires DistinctIds(infos) && Accounted(infos, already, before)
    ensures Accounted(infos, deleted, freed) && already <= deleted
    ensures SizeEnforced(infos, limits, deleted, unlinks)
    ensures var remaining := Without(infos, already);
            var z := SizeCut(remaining, limits.maxSizeBytes);
            AllSucceed(unlinks) ==> z <= |remaining| && deleted == already + Ids(remaining[..z])
  {
    deleted, freed := already, before;
    var remaining := Without(infos, already);
    if Limited(limits.maxSizeBytes) {
      ghost var stop := StopFrom(remaining, 0, limits.maxSizeBytes.value, unlinks);
      StopFromIsLeast(remaining, 0, limits.maxSizeBytes.value, unlinks);
      deleted, freed := SizePass(remaining, limits.maxSizeBytes.value, unlinks, already, before);
      LeftIsPending(infos, already);
      PassAccounts(infos, remaining, stop, Always, Size, unlinks, already, before);
      if stop == |remaining| {
        LeftoversFailed(infos, remaining, already, unlinks);
      }
      if AllSucceed(unlinks) {
        SweptAll(remaining, stop, Size, unlinks);
        StopIsSizeCut(remaining, limits.maxSizeBytes, unlinks);
      }
    } else {
      assert Ids([]) == [] && remaining[..0] == [];
    }
  }

  /** Every session left that is too old is one whose file could not be deleted. */
  ghost predicate AgeEnforced(list: seq<Session>, limits: Limits, now: int, deleted: seq<string>, unlinks: Unlink) {
    forall s :: s in Without(list, deleted) && TooOld(s, limits.maxAgeMs, now) ==> !unlinks(Age, s.id)
  }

  lemma AgeStaysEnforced(
    infos: seq<Session>, limits: Limits, now: int, deleted: seq<string>, unlinks: Unlink)
    requires DistinctIds(infos)
    requires Swept(infos, |infos|, OlderThan(limits.maxAgeMs, now), Age, unlinks) <= deleted
    ensures AgeEnforced(infos, limits, now, deleted, unlinks)
  {
    var due := OlderThan(limits.maxAgeMs, now);
    forall s | s in Without(infos, deleted) && TooOld(s, limits.maxAgeMs, now)
      ensures !unlinks(Age, s.id)
    {
      WithoutIff(infos, deleted, s);
      var k :| 0 <= k < |infos| && infos[k] == s;
      SweptIff(infos, |infos|, due, Age, unlinks, k);
      assert s.id !in Swept(infos, |infos|, due, Age, unlinks);
    }
  }

  /** Facts about the sorted list carry over to the list as it was given. */
  lemma Unsort(
    sessions: seq<Session>, limits: Limits, now: int, deleted: seq<string>, freed: nat, unlinks: Unlink)
    requires var infos := SortByAge(sessions);
             Accounted(infos, deleted, freed) && AgeEnforced(infos, limits, now, deleted, unlinks) &&
             SizeEnforced(infos, limits, deleted, unlinks)
    ensures Accounted(sessions, deleted, freed) && AgeEnforced(sessions, limits, now, deleted, unlinks) &&
            SizeEnforced(sessions, limits, deleted, unlinks)
  {
    var infos := SortByAge(sessions);
    SortSorts(sessions);
    SortKeepsBytes(sessions, deleted);
    SortKeepsBytes(sessions, []);
    NothingDeleted(infos);
    NothingDeleted(sessions);
    forall s | s in Without(sessions, deleted)
      ensures s in Without(infos, deleted)
    {
      WithoutIff(sessions, deleted, s);
      WithoutIff(infos, deleted, s);
      assert s in multiset(sessions);
    }
  }

  /** What two cuts, one after the other, leave, and the ids they delete. */
  lemma CutsCompose(p: seq<Session>, q: seq<Session>, r: seq<Session>)
    requires DistinctIds(p + (q + r))
    ensures Without(p + (q + r), Ids(p)) == q + r
    ensures Without(p + (q + r), Ids(p) + Ids(q)) == r
  {
    WithoutFront(p, q + r);
    assert p + (q + r) == p + q + r;
    WithoutFront(p + q, r);
    IdsConcat(p, q);
  }

  /** Three cuts, one after the other, by the ids they delete. */
  lemma ThreeCuts(p: seq<Session>, q: seq<Session>, r: seq<Session>, t: seq<Session>)
    requires DistinctIds(p + (q + (r + t)))
    ensures Without(p + (q + (r + t)), Ids(p) + Ids(q) + Ids(r)) == t
    ensures Ids(p) + Ids(q) + Ids(r) + Ids(t) == Ids(p + (q + (r + t)))
  {
    assert p + (q + (r + t)) == p + q + r + t;
    IdsConcat(p, q);
    IdsConcat(p + q, r);
    IdsConcat(p + q + r, t);
    WithoutFront(p + q + r, t);
  }

  /** The three cuts leave the longest allowed end. */
  lemma CutsAreLongest(
    infos: seq<Session>, limits: Limits, now: int, p: seq<Session>, q: seq<Session>, rest: seq<Session>)
    requires infos == p + (q + rest)
    requires p == Old(infos, limits.maxAgeMs, now) && q + rest == Young(infos, limits.maxAgeMs, now)
    requires |q| == CountCut(|q + rest|, limits.maxSessions)
    ensures SizeCut(rest, limits.maxSizeBytes) <= |rest|
    ensures LongestAllowed(infos, limits, now) == rest[SizeCut(rest, limits.maxSizeBytes)..]
  {
    OldAndYoung(infos, limits.maxAgeMs, now);
    DropOld(p, q + rest, limits, now);
    DropExcess(q, rest, limits, now);
    forall s | s in rest
      ensures s in q + rest
    {
    }
    DropBySize(rest, limits, now);
  }

  /** The sorted list as what the age pass goes for, what the count pass goes for, and the rest. */
  lemma InThree(infos: seq<Session>, limits: Limits, now: int)
    requires OldestFirst(infos)
    ensures var young := Young(infos, limits.maxAgeMs, now);
            var c := CountCut(|young|, limits.maxSessions);
            c <= |young| && young == young[..c] + young[c..] &&
            infos == Old(infos, limits.maxAgeMs, now) + (young[..c] + young[c..])
  {
    OldComeFirst(infos, limits.maxAgeMs, now);
  }

  /** After the age pass and the count pass, if all their deletions succeed. */
  lemma TwoPassesLeave(infos: seq<Session>, limits: Limits, now: int)
    requires OldestFirst(infos) && DistinctIds(infos)
    ensures var p, young := Old(infos, limits.maxAgeMs, now), Young(infos, limits.maxAgeMs, now);
            var c := CountCut(|young|, limits.maxSessions);
            c <= |young| && Without(infos, Ids(p)) == young &&
            Without(infos, Ids(p) + Ids(young[..c])) == young[c..]
  {
    var young := Young(infos, limits.maxAgeMs, now);
    var c := CountCut(|young|, limits.maxSessions);
    InThree(infos, limits, now);
    CutsCompose(Old(infos, limits.maxAgeMs, now), young[..c], young[c..]);
  }

  /** What the third pass has to deal with ends in the longest allowed list. */
  lemma RestEndsLongest(infos: seq<Session>, limits: Limits, now: int)
    requires OldestFirst(infos)
    ensures var young := Young(infos, limits.maxAgeMs, now);
            var c := CountCut(|young|, limits.maxSessions);
            c <= |young| && SizeCut(young[c..], limits.maxSizeBytes) <= |young[c..]| &&
            LongestAllowed(infos, limits, now) == young[c..][SizeCut(young[c..], limits.maxSizeBytes)..]
  {
    var young := Young(infos, limits.maxAgeMs, now);
    var c := CountCut(|young|, limits.maxSessions);
    InThree(infos, limits, now);
    CutsAreLongest(infos, limits, now, Old(infos, limits.maxAgeMs, now), young[..c], young[c..]);
  }

  /** After the size pass as well. */
  lemma ThirdPassLeaves(infos: seq<Session>, p: seq<Session>, q: seq<Session>, rest: seq<Session>, z: nat)
    requires infos == p + (q + rest) && DistinctIds(infos) && z <= |rest|
    ensures var deleted := Ids(p) + Ids(q) + Ids(rest[..z]);
            Without(infos, deleted) == rest[z..] && deleted + Ids(rest[z..]) == Ids(infos)
  {
    assert rest == rest[..z] + rest[z..];
    ThreeCuts(p, q, rest[..z], rest[z..]);
  }

  /** If all deletions succeed, the passes leave the longest allowed end of the list. */
  lemma ChainCuts(
    infos: seq<Session>, limits: Limits, now: int, aged: seq<string>, counted: seq<string>, deleted: seq<string>)
    requires OldestFirst(infos) && DistinctIds(infos)
    requires aged == Ids(Old(infos, limits.maxAgeMs, now))
    requires var rest := Without(infos, aged);
             var c := CountCut(|rest|, limits.maxSessions);
             c <= |rest| && counted == aged + Ids(rest[..c])
    requires var rest := Without(infos, counted);
             var z := SizeCut(rest, limits.maxSizeBytes);
             z <= |rest| && deleted == counted + Ids(rest[..z])
    ensures Without(infos, deleted) == LongestAllowed(infos, limits, now)
    ensures deleted + Ids(Without(infos, deleted)) == Ids(infos)
  {
    TwoPassesLeave(infos, limits, now);
    RestEndsLongest(infos, limits, now);
    InThree(infos, limits, now);
    var young := Without(infos, aged);
    var c := CountCut(|young|, limits.maxSessions);
    var rest := Without(infos, counted);
    ThirdPassLeaves(infos, Old(infos, limits.maxAgeMs, now), young[..c], rest, SizeCut(rest, limits.maxSizeBytes));
  }

  /**
   * Whatever deletions fail, the bytes freed and the bytes of the sessions left make up the initial
   * total, no session that is too old is left unless its file could not be deleted, the count limit is
   * exceeded by no more than the deletions that failed in its own pass, and the size limit is met unless
   * nothing left could be deleted. If all deletions succeed, what is left is the longest
   * end of the sorted list that meets every limit, and what was deleted is what came before it.
   */
  method RotateHistory(
    sessions: seq<Session>, maxAgeDays: Option<int>, maxSizeBytes: Option<int>, maxSessions: Option<int>,
    now: int, unlinks: Unlink)
    returns (deleted: seq<string>, freed: nat)
    requires DistinctIds(sessions)
    ensures Accounted(sessions, deleted, freed)
    ensures AgeEnforced(sessions, LimitsOf(maxAgeDays, maxSizeBytes, maxSessions), now, deleted, unlinks)
    ensures CountEnforced(SortByAge(sessions), LimitsOf(maxAgeDays, maxSizeBytes, maxSessions), now, deleted, unlinks)
    ensures SizeEnforced(sessions, LimitsOf(maxAgeDays, maxSizeBytes, maxSessions), deleted, unlinks)
    ensures AllSucceed(unlinks) ==>
              var sorted := SortByAge(sessions);
              Without(sorted, deleted) ==
                LongestAllowed(sorted, LimitsOf(maxAgeDays, maxSizeBytes, maxSessions), now) &&
              deleted + Ids(Without(sorted, deleted)) == Ids(sorted)
  {
    var limits := LimitsOf(maxAgeDays, maxSizeBytes, maxSessions);
    var infos := SortByAge(sessions);
    SortSorts(sessions);
    SortKeepsDistinct(sessions);
    var aged, ageFreed := AgePass(infos, limits.maxAgeMs, now, unlinks);
    AgePassFacts(infos, limits.maxAgeMs, now, unlinks);
    var counted, countFreed := EnforceCount(infos, limits, unlinks, aged, ageFreed);
    deleted, freed := EnforceSize(infos, limits, unlinks, counted, countFreed);
    AgeStaysEnforced(infos, limits, now, deleted, unlinks);
    CountStaysEnforced(infos, limits, now, aged, deleted, unlinks);
    Unsort(sessions, limits, now, deleted, freed, unlinks);
    if AllSucceed(unlinks) {
      ChainCuts(infos, limits, now, aged, counted, deleted);
    }
  }

  lemma AgePassFacts(infos: seq<Session>, maxAgeMs: int, now: int, unlinks: Unlink)
    requires DistinctIds(infos)
    ensures var due := OlderThan(maxAgeMs, now);
            var swept := Swept(infos, |infos|, due, Age, unlinks);
            Accounted(infos, swept, SweptBytes(infos, |infos|, due, Age, unlinks)) &&
            (AllSucceed(unlinks) ==> swept == Ids(Old(infos, maxAgeMs, now)))
  {
    AgePassAccounts(infos, OlderThan(maxAgeMs, now), unlinks);
    if AllSucceed(unlinks) {
      SweptOld(infos, |infos|, maxAgeMs, now, unlinks);
      assert infos[..|infos|] == infos;
    }
  }

  lemma AgePassAccounts(infos: seq<Session>, due: Due, unlinks: Unlink)
    requires DistinctIds(infos)
    ensures Accounted(infos, Swept(infos, |infos|, due, Age, unlinks), SweptBytes(infos, |infos|, due, Age, unlinks))
  {
    var swept := Swept(infos, |infos|, due, Age, unlinks);
    NothingDeleted(infos);
    LeftIsPending(infos, []);
    PassAccounts(infos, infos, |infos|, due, Age, unlinks, [], 0);
    assert [] + swept == swept;
  }
}
