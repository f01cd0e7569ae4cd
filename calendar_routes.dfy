/** The schedule-editing routes of routes/calendar.js: `/delete`, `/add` and
    `/update` each load the `schedule` of one `Calendars` document, rewrite it
    in memory key by key and write it back only when the edit applies. */
module CalendarRoutes {
  import opened Wrappers
  import opened Js
  import opened Schema

  /** What identifies a session in a request: its day, name and start time. */
  datatype SessionKey = SessionKey(day: string, name: string, startTime: string)

  /** The fields of the `updated` object of `/update`; a None field is absent
      and leaves the session's own value. `category` is the `type` field,
      which `updated` may also set to null (Some(None)). */
  datatype SessionPatch = SessionPatch(
    day: Option<string>,
    name: Option<string>,
    startTime: Option<string>,
    endTime: Option<string>,
    category: Option<Option<string>>)

  /** The replies of the three routes. */
  datatype Status =
    | Success           // 200 { success: true }
    | DocumentNotFound  // 404 "Document non trouvé"
    | SessionNotFound   // 404 "Session introuvable"
    | AlreadyExists     // 409 "Session déjà existante"
    | ServerError       // 500 "Erreur serveur": a TypeError thrown inside `try`

  /** A route's reply and the `Calendars` collection after it. */
  datatype Reply = Reply(status: Status, docs: map<string, CalendarDoc>)

  /** The HTTP status each reply is sent with. */
  function HttpStatus(status: Status): int {
    match status
    case Success => 200
    case DocumentNotFound => 404
    case SessionNotFound => 404
    case AlreadyExists => 409
    case ServerError => 500
  }

  /** `session.day === day && session.name === name && session.startTime === startTime`. */
  predicate Matches(session: Session, key: SessionKey) {
    session.day == key.day && session.name == key.name && session.startTime == key.startTime
  }

  /** Some session of the list matches `key`. */
  predicate ListHasMatch(sessions: seq<Session>, key: SessionKey) {
    exists i :: 0 <= i < |sessions| && Matches(sessions[i], key)
  }

  /** Some session of some day list matches `key`. */
  predicate HasMatch(schedule: Schedule, key: SessionKey) {
    exists k :: k in schedule && ListHasMatch(schedule[k], key)
  }

  /** Some day list holds a session. */
  predicate HasAnySession(schedule: Schedule) {
    exists k :: k in schedule && |schedule[k]| > 0
  }

  // ---------------------------------------------------------------- /delete

  /** `sessions.filter(s => !Matches(s, key))`. */
  function Without(sessions: seq<Session>, key: SessionKey): (kept: seq<Session>)
    ensures |kept| <= |sessions|
  {
    if sessions == [] then []
    else (if Matches(sessions[0], key) then [] else [sessions[0]]) + Without(sessions[1..], key)
  }

  /** A list matches exactly when its head or its tail does. */
  lemma ListHasMatchCons(sessions: seq<Session>, key: SessionKey)
    requires sessions != []
    ensures ListHasMatch(sessions, key) <==> Matches(sessions[0], key) || ListHasMatch(sessions[1..], key)
  {
    if ListHasMatch(sessions[1..], key) {
      var i :| 0 <= i < |sessions[1..]| && Matches(sessions[1..][i], key);
      assert sessions[i + 1] == sessions[1..][i];
    }
    if ListHasMatch(sessions, key) && !Matches(sessions[0], key) {
      var i :| 0 <= i < |sessions| && Matches(sessions[i], key);
      assert sessions[1..][i - 1] == sessions[i];
    }
  }

  /** Filtering keeps exactly the sessions that do not match, and shortens
      the list exactly when one matches. */
  lemma {:induction false} WithoutKeeps(sessions: seq<Session>, key: SessionKey)
    ensures forall s :: s in Without(sessions, key) <==> s in sessions && !Matches(s, key)
    ensures |Without(sessions, key)| == |sessions| <==> !ListHasMatch(sessions, key)
  {
    if sessions != [] {
      WithoutKeeps(sessions[1..], key);
      ListHasMatchCons(sessions, key);
      assert forall s :: s in sessions <==> s == sessions[0] || s in sessions[1..];
    }
  }

  /** Filtering keeps the relative order of the sessions it keeps. */
  lemma {:induction false} WithoutConcat(a: seq<Session>, b: seq<Session>, key: SessionKey)
    ensures Without(a + b, key) == Without(a, key) + Without(b, key)
  {
    if a != [] {
      var head := if Matches(a[0], key) then [] else [a[0]];
      assert (a + b)[0] == a[0];
      assert (a + b)[1..] == a[1..] + b;
      WithoutConcat(a[1..], b, key);
      calc {
        Without(a + b, key);
        head + Without(a[1..] + b, key);
        head + (Without(a[1..], key) + Without(b, key));
        (head + Without(a[1..], key)) + Without(b, key);
      }
    } else {
      assert a + b == b;
    }
  }

  /** A list without a matching session is kept as it is. */
  lemma {:induction false} WithoutNoMatch(sessions: seq<Session>, key: SessionKey)
    requires !ListHasMatch(sessions, key)
    ensures Without(sessions, key) == sessions
  {
    if sessions != [] {
      ListHasMatchCons(sessions, key);
      WithoutNoMatch(sessions[1..], key);
    }
  }

  /** Every day list with the sessions matching `key` removed. */
  function DeleteAll(schedule: Schedule, key: SessionKey): Schedule {
    map k | k in schedule :: Without(schedule[k], key)
  }

  /** `POST /delete`: 404 without a document, 404 without a matching session,
      otherwise the filtered schedule is written. */
  function DeleteReply(docs: map<string, CalendarDoc>, category: string, key: SessionKey): Reply {
    if category !in docs then Reply(DocumentNotFound, docs)
    else
      var schedule := ScheduleOf(docs[category]);
      if !HasMatch(schedule, key) then Reply(SessionNotFound, docs)
      else Reply(Success, docs[category := CalendarDoc(Some(DeleteAll(schedule, key)))])
  }

  // ------------------------------------------------------------------- /add

  /** `schedule[key]?.length > 0 && schedule[key][0].day === day`. */
  predicate OpensDay(schedule: Schedule, key: string, day: string) {
    key in schedule && |schedule[key]| > 0 && schedule[key][0].day == day
  }

  /** `order` is `Object.keys(schedule)`: every key once, in some order. */
  predicate IsKeyOrder(order: seq<string>, schedule: Schedule) {
    (forall k :: k in order ==> k in schedule) && (forall k :: k in schedule ==> k in order)
    && forall i, j :: 0 <= i < j < |order| ==> order[i] != order[j]
  }

  /** The position `Object.keys(schedule).find(...)` stops at: the first key
      whose list opens with a session of `day`, or |order| when none does. */
  function FirstDayIndex(order: seq<string>, schedule: Schedule, day: string): (i: nat)
    ensures i <= |order|
    ensures i < |order| ==> OpensDay(schedule, order[i], day)
    ensures forall j :: 0 <= j < i ==> !OpensDay(schedule, order[j], day)
  {
    if order == [] then 0
    else if OpensDay(schedule, order[0], day) then 0
    else
      var i := FirstDayIndex(order[1..], schedule, day);
      assert forall j :: 1 <= j < i + 1 ==> order[j] == order[1..][j - 1];
      1 + i
  }

  /** `Math.max(...xs)` over a non-empty list, with NaN as None: NaN as soon
      as one argument is NaN, otherwise the largest argument. */
  function MaxNumber(xs: seq<Option<int>>): (m: Option<int>)
    requires |xs| > 0
    ensures m.Some? <==> forall i :: 0 <= i < |xs| ==> xs[i].Some?
    ensures m.Some? ==> exists i :: 0 <= i < |xs| && xs[i] == m
    ensures m.Some? ==> forall i :: 0 <= i < |xs| ==> xs[i].value <= m.value
  {
    if |xs| == 1 then xs[0]
    else
      var rest := MaxNumber(xs[1..]);
      assert forall i :: 1 <= i < |xs| ==> xs[i] == xs[1..][i - 1];
      if xs[0].None? || rest.None? then None
      else if xs[0].value >= rest.value then xs[0]
      else rest
  }

  /** `Object.keys(schedule).map(x => parseInt(x, 10))`. */
  function KeyIndices(order: seq<string>): seq<Option<int>> {
    seq(|order|, i requires 0 <= i < |order| => ParseInt(order[i]))
  }

  /** The key `/add` creates for a day it does not find:
      `String(indices.length ? Math.max(...indices) + 1 : 0)`. */
  function NewDayKey(order: seq<string>): string {
    if |order| == 0 then "0"
    else
      var m := MaxNumber(KeyIndices(order));
      if m.None? then "NaN" else IntToString(m.value + 1)
  }

  /** `!targetKey` fails: a key was found and it is not the empty string. */
  predicate FoundDay(order: seq<string>, schedule: Schedule, day: string) {
    FirstDayIndex(order, schedule, day) < |order| && order[FirstDayIndex(order, schedule, day)] != ""
  }

  /** The key the new session goes under. */
  function TargetKey(order: seq<string>, schedule: Schedule, day: string): string {
    if FoundDay(order, schedule, day) then order[FirstDayIndex(order, schedule, day)]
    else NewDayKey(order)
  }

  /** The target list before the push: the found list, or the `[]` that
      `schedule[targetKey] = []` installs. */
  function TargetStart(order: seq<string>, schedule: Schedule, day: string): seq<Session> {
    if FoundDay(order, schedule, day) then schedule[order[FirstDayIndex(order, schedule, day)]]
    else []
  }

  /** `POST /add` of `session` (the request's `{day, name, startTime, endTime,
      type}`), with `order` standing for `Object.keys(schedule)`: 404 without
      a document, 409 when the target list already holds the session's key,
      otherwise the session is pushed at the end of the target list. */
  function AddReply(docs: map<string, CalendarDoc>, category: string, order: seq<string>,
                    session: Session): Reply
  {
    if category !in docs then Reply(DocumentNotFound, docs)
    else
      var schedule := ScheduleOf(docs[category]);
      var target := TargetKey(order, schedule, session.day);
      var start := TargetStart(order, schedule, session.day);
      if ListHasMatch(start, SessionKey(session.day, session.name, session.startTime)) then
        Reply(AlreadyExists, docs)
      else
        Reply(Success, docs[category := CalendarDoc(Some(schedule[target := start + [session]]))])
  }

  // ---------------------------------------------------------------- /update

  /** `{ ...session, ...updated }`: every field `updated` carries overrides. */
  function Merge(session: Session, patch: SessionPatch): Session {
    Session(patch.day.GetOr(session.day), patch.name.GetOr(session.name),
            patch.startTime.GetOr(session.startTime), patch.endTime.GetOr(session.endTime),
            patch.category.GetOr(session.category))
  }

  /** `{ ...p, ...q }`: the fields of `q`, then those of `p` that `q` lacks. */
  function Combine(p: SessionPatch, q: SessionPatch): SessionPatch {
    SessionPatch(if q.day.Some? then q.day else p.day,
                 if q.name.Some? then q.name else p.name,
                 if q.startTime.Some? then q.startTime else p.startTime,
                 if q.endTime.Some? then q.endTime else p.endTime,
                 if q.category.Some? then q.category else p.category)
  }

  /** The callback of `schedule[k].map(...)`. */
  function Replace(session: Session, key: SessionKey, patch: SessionPatch): Session {
    if Matches(session, key) then Merge(session, patch) else session
  }

  /** One day list after the update. */
  function Rewritten(sessions: seq<Session>, key: SessionKey, patch: SessionPatch): seq<Session> {
    seq(|sessions|, i requires 0 <= i < |sessions| => Replace(sessions[i], key, patch))
  }

  /** Every day list after the update. */
  function UpdateAll(schedule: Schedule, key: SessionKey, patch: SessionPatch): Schedule {
    map k | k in schedule :: Rewritten(schedule[k], key, patch)
  }

  /** `POST /update`: 404 without a document; a missing `original` throws
      (500) as soon as a session is compared with it, and without any session
      there is no match (404); otherwise 404 without a match, or the merged
      schedule is written. */
  function UpdateReply(docs: map<string, CalendarDoc>, category: string,
                       original: Option<SessionKey>, patch: SessionPatch): Reply
  {
    if category !in docs then Reply(DocumentNotFound, docs)
    else
      var schedule := ScheduleOf(docs[category]);
      if original.None? then
        Reply(if HasAnySession(schedule) then ServerError else SessionNotFound, docs)
      else if !HasMatch(schedule, original.value) then Reply(SessionNotFound, docs)
      else Reply(Success, docs[category := CalendarDoc(Some(UpdateAll(schedule, original.value, patch)))])
  }

  // ---------------------------------------------------------- the handlers

  /** The `sessions.filter(...)` of `/delete`, whose callback also raises the
      `matchFound` flag. */
  method FilterSessions(sessions: seq<Session>, key: SessionKey)
    returns (kept: seq<Session>, matchFound: bool)
    ensures kept == Without(sessions, key)
    ensures matchFound == ListHasMatch(sessions, key)
  {
    kept := [];
    matchFound := false;
    var i := 0;
    while i < |sessions|
      invariant 0 <= i <= |sessions|
      invariant kept == Without(sessions[..i], key)
      invariant matchFound == ListHasMatch(sessions[..i], key)
    {
      var session := sessions[i];
      var shouldRemove := session.day == key.day && session.name == key.name
                          && session.startTime == key.startTime;
      if shouldRemove {
        matchFound := true;
      } else {
        kept := kept + [session];
      }
      assert sessions[..i + 1] == sessions[..i] + [session];
      WithoutConcat(sessions[..i], [session], key);
      assert ListHasMatch(sessions[..i + 1], key) <==> ListHasMatch(sessions[..i], key) || shouldRemove by {
        if ListHasMatch(sessions[..i + 1], key) && !shouldRemove {
          var j :| 0 <= j < i + 1 && Matches(sessions[..i + 1][j], key);
          assert sessions[..i][j] == sessions[j];
        }
        if ListHasMatch(sessions[..i], key) {
          var j :| 0 <= j < i && Matches(sessions[..i][j], key);
          assert sessions[..i + 1][j] == sessions[j];
        }
        if shouldRemove {
          assert sessions[..i + 1][i] == session;
        }
      }
      i := i + 1;
    }
    assert sessions[..i] == sessions;
  }

  /** The `schedule[k].map(...)` of `/update`, whose callback also raises the
      `matchFound` flag. */
  method MapSessions(sessions: seq<Session>, key: SessionKey, patch: SessionPatch)
    returns (rewritten: seq<Session>, matchFound: bool)
    ensures rewritten == Rewritten(sessions, key, patch)
    ensures matchFound == ListHasMatch(sessions, key)
  {
    rewritten := [];
    matchFound := false;
    var i := 0;
    while i < |sessions|
      invariant 0 <= i <= |sessions|
      invariant |rewritten| == i
      invariant forall j :: 0 <= j < i ==> rewritten[j] == Replace(sessions[j], key, patch)
      invariant matchFound <==> exists j :: 0 <= j < i && Matches(sessions[j], key)
    {
      var session := sessions[i];
      if session.day == key.day && session.name == key.name && session.startTime == key.startTime {
        matchFound := true;
        rewritten := rewritten + [Merge(session, patch)];
      } else {
        rewritten := rewritten + [session];
      }
      i := i + 1;
    }
  }

  /** The `targetKey` lookup of `/add`: the key of the first list that opens
      with `day`; failing that (or when that key is ""), the next numeric key,
      which gets an empty list. */
  method LocateDay(order: seq<string>, schedule: Schedule, day: string)
    returns (targetKey: string, installed: Schedule)
    ensures targetKey == TargetKey(order, schedule, day)
    ensures installed == schedule[targetKey := TargetStart(order, schedule, day)]
  {
    var found := FirstDayIndex(order, schedule, day);
    installed := schedule;
    if found < |order| && order[found] != "" {
      targetKey := order[found];
    } else {
      targetKey := NewDayKey(order);
      installed := installed[targetKey := []];
    }
  }

  /** The `Calendars` collection: category to calendar document. */
  class CalendarStore {
    var docs: map<string, CalendarDoc>

    constructor(docs0: map<string, CalendarDoc>)
      ensures docs == docs0
    {
      docs := docs0;
    }

    /** `POST /delete`. */
    method Delete(category: string, day: string, name: string, startTime: string)
      returns (status: Status)
      modifies this`docs
      ensures Reply(status, docs) == DeleteReply(old(docs), category, SessionKey(day, name, startTime))
    {
      if category !in docs {
        return DocumentNotFound;
      }
      var key := SessionKey(day, name, startTime);
      var schedule := ScheduleOf(docs[category]);
      ghost var original := schedule;
      var matchFound := false;
      var pending := schedule.Keys;
      while pending != {}
        invariant docs == old(docs)
        invariant pending <= original.Keys && schedule.Keys == original.Keys
        invariant forall k :: k in pending ==> schedule[k] == original[k]
        invariant forall k :: k in original && k !in pending ==> schedule[k] == Without(original[k], key)
        invariant matchFound <==> exists k :: k in original && k !in pending && ListHasMatch(original[k], key)
        decreases pending
      {
        var k :| k in pending;
        var updatedSessions, found := FilterSessions(schedule[k], key);
        matchFound := matchFound || found;
        schedule := schedule[k := updatedSessions];
        pending := pending - {k};
      }
      assert matchFound == HasMatch(original, key);
      if !matchFound {
        return SessionNotFound;
      }
      assert schedule == DeleteAll(original, key);
      docs := docs[category := CalendarDoc(Some(schedule))];
      return Success;
    }

    /** `POST /add` of `{day, name, startTime, endTime, type}`, where `order`
        is `Object.keys(schedule)`. */
    method Add(category: string, day: string, name: string, startTime: string, endTime: string,
               kind: Option<string>, order: seq<string>)
      returns (status: Status)
      requires category in docs ==> IsKeyOrder(order, ScheduleOf(docs[category]))
      modifies this`docs
      ensures Reply(status, docs)
        == AddReply(old(docs), category, order, Session(day, name, startTime, endTime, kind))
    {
      if category !in docs {
        return DocumentNotFound;
      }
      var schedule := ScheduleOf(docs[category]);
      ghost var before := schedule;
      var targetKey, installed := LocateDay(order, schedule, day);
      ghost var start := TargetStart(order, schedule, day);
      schedule := installed;
      var newSession := Session(day, name, startTime, endTime, kind);
      var duplicate := ListHasMatch(schedule[targetKey], SessionKey(day, name, startTime));
      if duplicate {
        return AlreadyExists;
      }
      schedule := schedule[targetKey := schedule[targetKey] + [newSession]];
      assert schedule == before[targetKey := start + [newSession]];
      docs := docs[category := CalendarDoc(Some(schedule))];
      return Success;
    }

    /** `POST /update` with `original` (None when missing) and `updated`. */
    method Update(category: string, original: Option<SessionKey>, updated: SessionPatch)
      returns (status: Status)
      modifies this`docs
      ensures Reply(status, docs) == UpdateReply(old(docs), category, original, updated)
    {
      if category !in docs {
        return DocumentNotFound;
      }
      var schedule := ScheduleOf(docs[category]);
      if original.None? {
        // `original.day` throws on the first session compared
        if exists k :: k in schedule && |schedule[k]| > 0 {
          return ServerError;
        }
        return SessionNotFound;
      }
      var key := original.value;
      ghost var before := schedule;
      var matchFound := false;
      var pending := schedule.Keys;
      while pending != {}
        invariant docs == old(docs)
        invariant pending <= before.Keys && schedule.Keys == before.Keys
        invariant forall k :: k in pending ==> schedule[k] == before[k]
        invariant forall k :: k in before && k !in pending ==> schedule[k] == Rewritten(before[k], key, updated)
        invariant matchFound <==> exists k :: k in before && k !in pending && ListHasMatch(before[k], key)
        decreases pending
      {
        var k :| k in pending;
        var rewritten, found := MapSessions(schedule[k], key, updated);
        matchFound := matchFound || found;
        schedule := schedule[k := rewritten];
        pending := pending - {k};
      }
      assert matchFound == HasMatch(before, key);
      if !matchFound {
        return SessionNotFound;
      }
      assert schedule == UpdateAll(before, key, updated);
      docs := docs[category := CalendarDoc(Some(schedule))];
      return Success;
    }
  }
}
