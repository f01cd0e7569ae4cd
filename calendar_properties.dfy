/** What the schedule-editing routes promise: which sessions `/delete`
    removes, which key `/add` targets and when it refuses, what `/update`
    rewrites, and that a refused edit writes nothing. */
module CalendarProperties {
  import opened Wrappers
  import opened Js
  import opened Schema
  import opened CalendarRoutes

  /** The schedule of document `category` after a reply. */
  function ScheduleAfter(r: Reply, category: string): Schedule {
    if category in r.docs then ScheduleOf(r.docs[category]) else map[]
  }

  // --------------------------------------------------------- every route

  /** Without the category's document, every route replies 404 and writes
      nothing. */
  lemma MissingDocumentNoWrite(docs: map<string, CalendarDoc>, category: string, key: SessionKey,
                               order: seq<string>, session: Session,
                               original: Option<SessionKey>, patch: SessionPatch)
    requires category !in docs
    ensures DeleteReply(docs, category, key) == Reply(DocumentNotFound, docs)
    ensures AddReply(docs, category, order, session) == Reply(DocumentNotFound, docs)
    ensures UpdateReply(docs, category, original, patch) == Reply(DocumentNotFound, docs)
  {
  }

  /** Reply `r` leaves `docs` untouched unless it succeeds, and even then
      changes no document but `category`'s. */
  predicate WritesOnly(docs: map<string, CalendarDoc>, category: string, r: Reply) {
    && (r.status != Success ==> r.docs == docs)
    && r.docs.Keys == docs.Keys
    && forall c :: c in docs && c != category ==> r.docs[c] == docs[c]
  }

  lemma DeleteWritesOnly(docs: map<string, CalendarDoc>, category: string, key: SessionKey)
    ensures WritesOnly(docs, category, DeleteReply(docs, category, key))
  {
  }

  lemma AddWritesOnly(docs: map<string, CalendarDoc>, category: string, order: seq<string>, session: Session)
    ensures WritesOnly(docs, category, AddReply(docs, category, order, session))
  {
  }

  lemma UpdateWritesOnly(docs: map<string, CalendarDoc>, category: string,
                         original: Option<SessionKey>, patch: SessionPatch)
    ensures WritesOnly(docs, category, UpdateReply(docs, category, original, patch))
  {
  }

  /** A route writes only the category's document, and only when it
      succeeds. */
  lemma OnlySuccessWrites(docs: map<string, CalendarDoc>, category: string, key: SessionKey,
                          order: seq<string>, session: Session,
                          original: Option<SessionKey>, patch: SessionPatch)
    ensures WritesOnly(docs, category, DeleteReply(docs, category, key))
    ensures WritesOnly(docs, category, AddReply(docs, category, order, session))
    ensures WritesOnly(docs, category, UpdateReply(docs, category, original, patch))
  {
    DeleteWritesOnly(docs, category, key);
    AddWritesOnly(docs, category, order, session);
    UpdateWritesOnly(docs, category, original, patch);
  }

  // ------------------------------------------------------------- /delete

  /** `/delete` succeeds exactly when some session matches, and then every
      day list keeps exactly its sessions that do not match, in their order. */
  lemma DeleteRemovesExactly(docs: map<string, CalendarDoc>, category: string, key: SessionKey)
    requires category in docs
    ensures (DeleteReply(docs, category, key).status == Success) == HasMatch(ScheduleOf(docs[category]), key)
    ensures !HasMatch(ScheduleOf(docs[category]), key) ==>
      DeleteReply(docs, category, key) == Reply(SessionNotFound, docs)
    ensures var before := ScheduleOf(docs[category]);
      var after := ScheduleAfter(DeleteReply(docs, category, key), category);
      after.Keys == before.Keys
      && forall k :: k in before ==>
        (forall s :: s in after[k] <==> s in before[k] && !Matches(s, key))
        && (|after[k]| == |before[k]| <==> !ListHasMatch(before[k], key))
  {
    var before := ScheduleOf(docs[category]);
    forall k | k in before {
      WithoutKeeps(before[k], key);
    }
    if !HasMatch(before, key) {
      forall k | k in before {
        WithoutNoMatch(before[k], key);
      }
      assert DeleteAll(before, key) == before;
    }
  }

  /** Nothing is left to delete after a successful `/delete`: repeating it
      replies 404. */
  lemma DeleteTwiceNotFound(docs: map<string, CalendarDoc>, category: string, key: SessionKey)
    requires DeleteReply(docs, category, key).status == Success
    ensures var r := DeleteReply(docs, category, key);
      DeleteReply(r.docs, category, key) == Reply(SessionNotFound, r.docs)
  {
    var before := ScheduleOf(docs[category]);
    var after := DeleteAll(before, key);
    if HasMatch(after, key) {
      var k :| k in after && ListHasMatch(after[k], key);
      WithoutKeeps(before[k], key);
      assert false;
    }
  }

  // ---------------------------------------------------------------- /add

  /** `/add` targets the first key, in `Object.keys` order, whose list opens
      with a session of the requested day, unless that key is "". */
  lemma AddTargetsFirstOpening(order: seq<string>, schedule: Schedule, day: string, i: nat)
    requires i < |order| && OpensDay(schedule, order[i], day) && order[i] != ""
    requires forall j :: 0 <= j < i ==> !OpensDay(schedule, order[j], day)
    ensures FoundDay(order, schedule, day)
    ensures TargetKey(order, schedule, day) == order[i]
    ensures TargetStart(order, schedule, day) == schedule[order[i]]
  {
    var f := FirstDayIndex(order, schedule, day);
    if f != i {
      assert false;
    }
  }

  /** With every key numeric, the key `/add` creates is not a key yet. */
  lemma NewDayKeyIsFresh(order: seq<string>)
    requires forall j :: 0 <= j < |order| ==> ParseInt(order[j]).Some?
    ensures NewDayKey(order) !in order
  {
    if |order| > 0 {
      var indices := KeyIndices(order);
      var m := MaxNumber(indices);
      assert forall j :: 0 <= j < |indices| ==> indices[j] == ParseInt(order[j]);
      ParseIntOfString(m.value + 1);
      if j :| 0 <= j < |order| && order[j] == NewDayKey(order) {
        assert false;
      }
    }
  }

  /** With every key numeric, `Math.max` of the parsed keys is a number. */
  lemma MaxOfNumericKeys(order: seq<string>)
    requires |order| > 0
    requires forall j :: 0 <= j < |order| ==> ParseInt(order[j]).Some?
    ensures MaxNumber(KeyIndices(order)).Some?
  {
    var indices := KeyIndices(order);
    forall i | 0 <= i < |indices|
      ensures indices[i].Some?
    {
      assert indices[i] == ParseInt(order[i]);
    }
  }

  /** `order[j]` parses to a number no other key exceeds. */
  predicate IsPeakKey(order: seq<string>, j: int) {
    && 0 <= j < |order| && ParseInt(order[j]).Some?
    && forall i :: 0 <= i < |order| ==> ParseInt(order[i]).Some? && ParseInt(order[i]).value <= ParseInt(order[j]).value
  }

  /** The key at which the parsed keys peak bounds every other key. */
  lemma PeakKeyBounds(order: seq<string>, j: int)
    requires 0 <= j < |order|
    requires MaxNumber(KeyIndices(order)).Some? && KeyIndices(order)[j] == MaxNumber(KeyIndices(order))
    ensures IsPeakKey(order, j)
  {
    var indices := KeyIndices(order);
    forall i | 0 <= i < |order|
      ensures ParseInt(order[i]).Some? && ParseInt(order[i]).value <= ParseInt(order[j]).value
    {
      assert indices[i] == ParseInt(order[i]);
    }
  }

  /** The created key is the peak of the parsed keys plus one. */
  lemma PeakKeyNamesNewDay(order: seq<string>, peak: int)
    requires |order| > 0 && MaxNumber(KeyIndices(order)) == Some(peak)
    ensures NewDayKey(order) == IntToString(peak + 1)
  {
  }

  /** The created key is "0" for an empty schedule and one more than the
      largest numeric key otherwise. */
  lemma NewDayKeyValue(order: seq<string>)
    requires forall j :: 0 <= j < |order| ==> ParseInt(order[j]).Some?
    ensures |order| == 0 ==> NewDayKey(order) == "0"
    ensures |order| > 0 ==>
      exists j :: IsPeakKey(order, j) && NewDayKey(order) == IntToString(ParseInt(order[j]).value + 1)
  {
    if |order| > 0 {
      MaxOfNumericKeys(order);
      var indices := KeyIndices(order);
      var j :| 0 <= j < |indices| && indices[j] == MaxNumber(indices);
      PeakKeyBounds(order, j);
      assert indices[j] == ParseInt(order[j]);
      PeakKeyNamesNewDay(order, ParseInt(order[j]).value);
    }
  }

  /** One key that is not a number makes the created key "NaN". */
  lemma NonNumericKeyGivesNaN(order: seq<string>, j: nat)
    requires j < |order| && ParseInt(order[j]).None?
    ensures NewDayKey(order) == "NaN"
  {
    var indices := KeyIndices(order);
    assert indices[j].None?;
  }

  /** When no list opens with the requested day and every key is numeric,
      `/add` puts the session under a fresh key. */
  lemma AddToNewKey(order: seq<string>, schedule: Schedule, day: string)
    requires IsKeyOrder(order, schedule)
    requires forall j :: 0 <= j < |order| ==> ParseInt(order[j]).Some?
    requires forall j :: 0 <= j < |order| ==> !OpensDay(schedule, order[j], day)
    ensures !FoundDay(order, schedule, day)
    ensures TargetKey(order, schedule, day) !in schedule
    ensures TargetStart(order, schedule, day) == []
  {
    NewDayKeyIsFresh(order);
  }

  /** A first opening key "" counts as not found (it is falsy), so the
      session goes under "NaN", because `parseInt("")` is NaN. */
  lemma EmptyKeyNotTargeted(order: seq<string>, schedule: Schedule, day: string, i: nat)
    requires i < |order| && order[i] == "" && OpensDay(schedule, "", day)
    requires forall j :: 0 <= j < i ==> !OpensDay(schedule, order[j], day)
    ensures TargetKey(order, schedule, day) == "NaN"
    ensures TargetStart(order, schedule, day) == []
  {
    var f := FirstDayIndex(order, schedule, day);
    if f != i {
      assert false;
    }
    assert DigitPrefix("") == "";
    NonNumericKeyGivesNaN(order, i);
  }

  /** When the day is not found and some key is not numeric, `/add` starts
      the list under "NaN" afresh: a list already kept under "NaN" is
      replaced by the new session alone. */
  lemma AddReplacesNaNList(docs: map<string, CalendarDoc>, category: string, order: seq<string>,
                           session: Session, j: nat)
    requires category in docs && !FoundDay(order, ScheduleOf(docs[category]), session.day)
    requires j < |order| && ParseInt(order[j]).None?
    ensures var r := AddReply(docs, category, order, session);
      r.status == Success && "NaN" in ScheduleAfter(r, category) && ScheduleAfter(r, category)["NaN"] == [session]
  {
    var schedule := ScheduleOf(docs[category]);
    NonNumericKeyGivesNaN(order, j);
    assert TargetKey(order, schedule, session.day) == "NaN";
    assert TargetStart(order, schedule, session.day) == [];
    assert !ListHasMatch([], SessionKey(session.day, session.name, session.startTime));
    assert ScheduleAfter(AddReply(docs, category, order, session), category) == schedule["NaN" := [] + [session]];
  }

  /** `/add` replies 409 exactly when the target list already holds a
      session with the same day, name and start time, and then writes
      nothing; otherwise the session is appended at the end of the target
      list, the target key is added if it was missing, and every other list
      stays as it was. */
  lemma AddAppendsOrRefuses(docs: map<string, CalendarDoc>, category: string, order: seq<string>,
                            session: Session)
    requires category in docs
    ensures var schedule := ScheduleOf(docs[category]);
      var start := TargetStart(order, schedule, session.day);
      var r := AddReply(docs, category, order, session);
      (r.status == AlreadyExists <==> ListHasMatch(start, SessionKey(session.day, session.name, session.startTime)))
      && (r.status == AlreadyExists ==> r.docs == docs)
      && (r.status != AlreadyExists ==> r.status == Success)
    ensures var schedule := ScheduleOf(docs[category]);
      var target := TargetKey(order, schedule, session.day);
      var r := AddReply(docs, category, order, session);
      var after := ScheduleAfter(r, category);
      r.status == Success ==>
        after.Keys == schedule.Keys + {target}
        && after[target] == TargetStart(order, schedule, session.day) + [session]
        && |after[target]| == |TargetStart(order, schedule, session.day)| + 1
        && forall k :: k in schedule && k != target ==> after[k] == schedule[k]
  {
  }

  /** In the new schedule every key opens the requested day as it did
      before, when the session was pushed onto a list that already opened
      with that day. */
  lemma PushKeepsOpenings(schedule: Schedule, target: string, session: Session, k: string)
    requires OpensDay(schedule, target, session.day)
    ensures OpensDay(schedule[target := schedule[target] + [session]], k, session.day)
      == OpensDay(schedule, k, session.day)
  {
    if k == target {
      assert (schedule[target] + [session])[0] == schedule[target][0];
    }
  }

  /** The same `/add` repeated, onto a day list that existed, is refused. */
  lemma AddTwiceRefused(docs: map<string, CalendarDoc>, category: string, order: seq<string>,
                        session: Session)
    requires category in docs
    requires FoundDay(order, ScheduleOf(docs[category]), session.day)
    requires AddReply(docs, category, order, session).status == Success
    ensures var r := AddReply(docs, category, order, session);
      AddReply(r.docs, category, order, session) == Reply(AlreadyExists, r.docs)
  {
    var schedule := ScheduleOf(docs[category]);
    var i := FirstDayIndex(order, schedule, session.day);
    var target := order[i];
    var after := schedule[target := schedule[target] + [session]];
    forall k {
      PushKeepsOpenings(schedule, target, session, k);
    }
    AddTargetsFirstOpening(order, after, session.day, i);
    var key := SessionKey(session.day, session.name, session.startTime);
    assert after[target][|schedule[target]|] == session;
    assert ListHasMatch(after[target], key);
  }

  /** The created key is never "", so it is found again afterwards. */
  lemma NewDayKeyNotEmpty(order: seq<string>)
    ensures NewDayKey(order) != ""
  {
    if |order| > 0 {
      var m := MaxNumber(KeyIndices(order));
      if m.Some? {
        var n := m.value + 1;
        NatToStringDigits(if n < 0 then -n else n);
      }
    }
  }

  /** When no list opened with `day`, only the list created for the new
      session opens with it afterwards. */
  lemma OnlyNewListOpens(schedule: Schedule, order: seq<string>, target: string, session: Session, k: string)
    requires IsKeyOrder(order, schedule)
    requires forall j :: 0 <= j < |order| ==> !OpensDay(schedule, order[j], session.day)
    requires k != target
    ensures !OpensDay(schedule[target := [session]], k, session.day)
  {
    if k in schedule {
      var j :| 0 <= j < |order| && order[j] == k;
      assert !OpensDay(schedule, order[j], session.day);
    }
  }

  /** The same `/add` repeated, after it created a new day list, is refused
      whatever order `Object.keys` now lists the keys in. */
  lemma AddTwiceRefusedNewDay(docs: map<string, CalendarDoc>, category: string, order: seq<string>,
                              session: Session, order2: seq<string>)
    requires category in docs
    requires forall j :: 0 <= j < |order| ==> !OpensDay(ScheduleOf(docs[category]), order[j], session.day)
    requires IsKeyOrder(order, ScheduleOf(docs[category]))
    requires IsKeyOrder(order2, ScheduleAfter(AddReply(docs, category, order, session), category))
    ensures var r := AddReply(docs, category, order, session);
      r.status == Success && AddReply(r.docs, category, order2, session) == Reply(AlreadyExists, r.docs)
  {
    var schedule := ScheduleOf(docs[category]);
    var target := NewDayKey(order);
    assert !FoundDay(order, schedule, session.day);
    assert !ListHasMatch([], SessionKey(session.day, session.name, session.startTime));
    var after := schedule[target := [session]];
    NewDayKeyNotEmpty(order);
    assert target in order2;
    var i :| 0 <= i < |order2| && order2[i] == target;
    forall j | 0 <= j < i
      ensures !OpensDay(after, order2[j], session.day)
    {
      OnlyNewListOpens(schedule, order, target, session, order2[j]);
    }
    AddTargetsFirstOpening(order2, after, session.day, i);
    assert after[target][0] == session;
    assert ListHasMatch(after[target], SessionKey(session.day, session.name, session.startTime));
  }

  /** Deleting what a successful `/add` put onto an existing day list, when
      nothing matched before, gives back the collection as it was. */
  lemma AddThenDeleteRestores(docs: map<string, CalendarDoc>, category: string, order: seq<string>,
                              session: Session)
    requires category in docs
    requires FoundDay(order, ScheduleOf(docs[category]), session.day)
    requires !HasMatch(ScheduleOf(docs[category]), SessionKey(session.day, session.name, session.startTime))
    ensures var r := AddReply(docs, category, order, session);
      r.status == Success
      && DeleteReply(r.docs, category, SessionKey(session.day, session.name, session.startTime)) == Reply(Success, docs)
  {
    var key := SessionKey(session.day, session.name, session.startTime);
    var schedule := ScheduleOf(docs[category]);
    var target := order[FirstDayIndex(order, schedule, session.day)];
    assert !ListHasMatch(schedule[target], key);
    var after := schedule[target := schedule[target] + [session]];
    assert after[target][|schedule[target]|] == session;
    assert ListHasMatch(after[target], key);
    forall k | k in schedule
      ensures Without(after[k], key) == schedule[k]
    {
      WithoutNoMatch(schedule[k], key);
      if k == target {
        WithoutConcat(schedule[k], [session], key);
        assert Without([session], key) == [];
      }
    }
    assert DeleteAll(after, key) == schedule;
    assert docs[category].schedule.Some?;
    assert docs[category := CalendarDoc(Some(schedule))] == docs;
  }

  /** The status codes of the routes: `/delete` answers 200 or 404, `/add`
      200, 404 or 409, and `/update` 200, 404 or 500, with 500 exactly when
      `original` is missing and the document holds some session. */
  lemma RouteStatusCodes(docs: map<string, CalendarDoc>, category: string, key: SessionKey,
                         order: seq<string>, session: Session,
                         original: Option<SessionKey>, patch: SessionPatch)
    ensures HttpStatus(DeleteReply(docs, category, key).status) in {200, 404}
    ensures HttpStatus(AddReply(docs, category, order, session).status) in {200, 404, 409}
    ensures HttpStatus(UpdateReply(docs, category, original, patch).status) in {200, 404, 500}
    ensures HttpStatus(UpdateReply(docs, category, original, patch).status) == 500
      <==> category in docs && original.None? && HasAnySession(ScheduleOf(docs[category]))
  {
  }

  // ------------------------------------------------------------- /update

  /** `/update` with a missing `original` throws as soon as one session is
      compared with it, and otherwise finds nothing; it writes nothing. */
  lemma UpdateWithoutOriginal(docs: map<string, CalendarDoc>, category: string, patch: SessionPatch)
    requires category in docs
    ensures var r := UpdateReply(docs, category, None, patch);
      r.docs == docs
      && (r.status == ServerError <==> HasAnySession(ScheduleOf(docs[category])))
      && (r.status == SessionNotFound <==> !HasAnySession(ScheduleOf(docs[category])))
  {
  }

  /** `/update` succeeds exactly when some session matches `original`, and
      then every matching session is replaced by its merge with `updated`
      while every other session, every list's length and the set of keys
      stay as they were. */
  lemma UpdateMergesMatches(docs: map<string, CalendarDoc>, category: string, key: SessionKey,
                            patch: SessionPatch)
    requires category in docs
    ensures (UpdateReply(docs, category, Some(key), patch).status == Success) == HasMatch(ScheduleOf(docs[category]), key)
    ensures !HasMatch(ScheduleOf(docs[category]), key) ==>
      UpdateReply(docs, category, Some(key), patch) == Reply(SessionNotFound, docs)
    ensures var before := ScheduleOf(docs[category]);
      var after := ScheduleAfter(UpdateReply(docs, category, Some(key), patch), category);
      after.Keys == before.Keys
      && forall k :: k in before ==>
        |after[k]| == |before[k]|
        && forall i :: 0 <= i < |before[k]| ==>
          (Matches(before[k][i], key) ==> after[k][i] == Merge(before[k][i], patch))
          && (!Matches(before[k][i], key) ==> after[k][i] == before[k][i])
  {
    var before := ScheduleOf(docs[category]);
    if !HasMatch(before, key) {
      forall k | k in before
        ensures Rewritten(before[k], key, patch) == before[k]
      {
        assert forall i :: 0 <= i < |before[k]| ==> !Matches(before[k][i], key);
      }
      assert UpdateAll(before, key, patch) == before;
    }
  }

  /** A field `updated` leaves out keeps the session's value; merging nothing
      changes nothing. */
  lemma MergeEmptyPatch(session: Session)
    ensures Merge(session, SessionPatch(None, None, None, None, None)) == session
  {
  }

  /** Spreading `p` then `q` is spreading their combination. */
  lemma MergeCombine(session: Session, p: SessionPatch, q: SessionPatch)
    ensures Merge(Merge(session, p), q) == Merge(session, Combine(p, q))
  {
  }

  /** Merging the same patch twice is merging it once. */
  lemma MergeIdempotent(session: Session, patch: SessionPatch)
    ensures Merge(Merge(session, patch), patch) == Merge(session, patch)
  {
    MergeCombine(session, patch, patch);
    assert Combine(patch, patch) == patch;
  }

  /** A patch that keeps day, name and start time leaves merged sessions
      matching, so one list rewritten twice is rewritten once. */
  lemma RewrittenTwice(sessions: seq<Session>, key: SessionKey, patch: SessionPatch)
    requires patch.day.None? && patch.name.None? && patch.startTime.None?
    ensures Rewritten(Rewritten(sessions, key, patch), key, patch) == Rewritten(sessions, key, patch)
  {
    var once := Rewritten(sessions, key, patch);
    forall i | 0 <= i < |sessions|
      ensures Replace(once[i], key, patch) == once[i]
    {
      if Matches(sessions[i], key) {
        MergeIdempotent(sessions[i], patch);
      }
    }
  }

  /** Repeating an `/update` that keeps day, name and start time writes the
      same collection again. */
  lemma UpdateTwiceIsOnce(docs: map<string, CalendarDoc>, category: string, key: SessionKey,
                          patch: SessionPatch)
    requires patch.day.None? && patch.name.None? && patch.startTime.None?
    requires UpdateReply(docs, category, Some(key), patch).status == Success
    ensures var r := UpdateReply(docs, category, Some(key), patch);
      UpdateReply(r.docs, category, Some(key), patch) == r
  {
    var before := ScheduleOf(docs[category]);
    var after := UpdateAll(before, key, patch);
    forall k | k in before
      ensures Rewritten(after[k], key, patch) == after[k]
    {
      RewrittenTwice(before[k], key, patch);
    }
    assert UpdateAll(after, key, patch) == after;
    var k :| k in before && ListHasMatch(before[k], key);
    var i :| 0 <= i < |before[k]| && Matches(before[k][i], key);
    assert Matches(after[k][i], key);
    assert HasMatch(after, key);
  }
}
