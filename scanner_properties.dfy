/** What the `/scan-checkin` gates guarantee: which reply each gate gives,
    what a recorded check-in implies, and what the log looks like after. */
module ScannerProperties {
  import opened Wrappers
  import opened Js
  import opened Chrono
  import opened Schema
  import opened Matcher
  import opened Subscription
  import opened QrToken
  import opened Scanner

  /** No gate after the member lookup answers as a token or lookup gate does. */
  lemma LaterGatesReplyOtherwise(user: User, calendars: map<string, CalendarDoc>,
                                 log: seq<CheckinRecord>, at: Instant, clock: Clock)
    ensures var o := DecideForUser(user, calendars, log, at, clock);
      o != MissingToken && o != ExpiredToken && o != UserNotFound
  {
    if user.category.Some? && ToLower(user.category.value) != "" && ToLower(user.category.value) in calendars {
      var schedule := ScheduleOf(calendars[ToLower(user.category.value)]);
      var matched := FirstMatch(SessionsOn(schedule, at.wall), NowMinutes(at.wall), user.category.value);
      if matched.Some? {
        SessionGatesPassTokenGates(user, matched.value, log, at, clock);
      }
    }
  }

  /** Of a session's gates, none answers as a token or lookup gate does. */
  lemma SessionGatesPassTokenGates(user: User, session: Session, log: seq<CheckinRecord>,
                                   at: Instant, clock: Clock)
    ensures var o := DecideForSession(user, session, log, at, clock);
      o != MissingToken && o != ExpiredToken && o != UserNotFound
  {
  }

  /** The first three gates: a missing token, an expired token, an unknown
      member, each exactly when its condition holds and the earlier gates pass. */
  lemma TokenAndLookupGates(users: map<string, User>, calendars: map<string, CalendarDoc>,
                            checkins: map<string, seq<CheckinRecord>>,
                            qr: QrCode, currentTime: Option<Instant>, clock: Clock)
    ensures Decide(users, calendars, checkins, qr, currentTime, clock) == MissingToken <==> qr.Absent?
    ensures Decide(users, calendars, checkins, qr, currentTime, clock) == ExpiredToken
      <==> qr.Decoded? && clock.now.ms >= qr.exp * 1000
    ensures Decide(users, calendars, checkins, qr, currentTime, clock) == UserNotFound
      <==> qr.Decoded? && clock.now.ms < qr.exp * 1000 && qr.uid !in users
    ensures Decide(users, calendars, checkins, qr, currentTime, clock) == InvalidQr
      <==> (|| qr.Unverifiable?
            || (&& qr.Decoded? && clock.now.ms < qr.exp * 1000 && qr.uid in users
                && DecideForUser(users[qr.uid], calendars, LogOf(checkins, qr.uid),
                                 EffectiveTime(currentTime, clock), clock) == InvalidQr))
  {
    if qr.Decoded? && !Expired(qr.exp, clock.now.ms) && qr.uid in users {
      LaterGatesReplyOtherwise(users[qr.uid], calendars, LogOf(checkins, qr.uid),
                               EffectiveTime(currentTime, clock), clock);
    }
  }

  /** A refusal at the token gates depends on nothing stored: not on the
      members, the calendars or the logs. */
  lemma TokenRefusalIgnoresStore(users: map<string, User>, calendars: map<string, CalendarDoc>,
                                 checkins: map<string, seq<CheckinRecord>>,
                                 users': map<string, User>, calendars': map<string, CalendarDoc>,
                                 checkins': map<string, seq<CheckinRecord>>,
                                 qr: QrCode, currentTime: Option<Instant>, clock: Clock)
    requires !qr.Decoded? || Expired(qr.exp, clock.now.ms)
    ensures Decide(users, calendars, checkins, qr, currentTime, clock)
         == Decide(users', calendars', checkins', qr, currentTime, clock)
  {
  }

  /** `toLowerCase` yields "" exactly for "". */
  lemma LowerIsEmptyIff(s: string)
    ensures ToLower(s) == "" <==> s == ""
  {
    assert |ToLower(s)| == |s|;
  }

  /** Of a session's gates, none answers as a category gate does. */
  lemma SessionGatesReplyOtherwise(user: User, session: Session, log: seq<CheckinRecord>,
                                   at: Instant, clock: Clock)
    ensures var o := DecideForSession(user, session, log, at, clock);
      o != UnknownCategory && o != CalendarNotFound && o != NoActiveSession
  {
  }

  /** The category gates, for a member that was found: no `type` (or an
      empty one) is refused with 400, a category without a calendar document
      with 404, and a day without an open session with 403. */
  lemma CategoryGates(user: User, calendars: map<string, CalendarDoc>, log: seq<CheckinRecord>,
                      at: Instant, clock: Clock)
    ensures DecideForUser(user, calendars, log, at, clock) == UnknownCategory
      <==> user.category.None? || user.category.value == ""
    ensures DecideForUser(user, calendars, log, at, clock) == CalendarNotFound
      <==> user.category.Some? && user.category.value != "" && ToLower(user.category.value) !in calendars
    ensures DecideForUser(user, calendars, log, at, clock) == NoActiveSession
      <==> (user.category.Some? && user.category.value != "" && ToLower(user.category.value) in calendars
            && forall s :: s in SessionsOn(ScheduleOf(calendars[ToLower(user.category.value)]), at.wall)
                 ==> !Qualifies(s, NowMinutes(at.wall), user.category.value))
  {
    if user.category.Some? {
      LowerIsEmptyIff(user.category.value);
      var key := ToLower(user.category.value);
      if user.category.value != "" && key in calendars {
        var sessions := SessionsOn(ScheduleOf(calendars[key]), at.wall);
        FirstMatchIsFirst(sessions, NowMinutes(at.wall), user.category.value);
        var m := FirstMatch(sessions, NowMinutes(at.wall), user.category.value);
        if m.Some? {
          SessionGatesReplyOtherwise(user, m.value, log, at, clock);
        }
      }
    }
  }

  /** The session gates: the matched session's discipline must be subscribed,
      the subscription running at the server's time, and no check-in stamped
      in the two hours before the scan's time. */
  lemma SessionGates(user: User, session: Session, log: seq<CheckinRecord>, at: Instant, clock: Clock)
    ensures DecideForSession(user, session, log, at, clock) == DisciplineNotSubscribed
      <==> !Subscribed(user, session.name)
    ensures DecideForSession(user, session, log, at, clock) == SubscriptionExpired
      <==> (Subscribed(user, session.name)
            && SubscriptionValidity(user.paymentPlan, user.paymentDate, clock.now.wall) == Checked(false))
    ensures DecideForSession(user, session, log, at, clock) == AlreadyScanned
      <==> (Subscribed(user, session.name)
            && SubscriptionValidity(user.paymentPlan, user.paymentDate, clock.now.wall) == Checked(true)
            && exists k :: 0 <= k < |log| && log[k].scannedAtMs > at.ms - 2 * 60 * 60 * 1000)
    ensures DecideForSession(user, session, log, at, clock) == Recorded(session.name)
      <==> (Subscribed(user, session.name)
            && SubscriptionValidity(user.paymentPlan, user.paymentDate, clock.now.wall) == Checked(true)
            && forall k :: 0 <= k < |log| ==> log[k].scannedAtMs <= at.ms - 2 * 60 * 60 * 1000)
    ensures DecideForSession(user, session, log, at, clock) == InvalidQr
      <==> (Subscribed(user, session.name)
            && SubscriptionValidity(user.paymentPlan, user.paymentDate, clock.now.wall).ThrowsTypeError?)
    ensures DecideForSession(user, session, log, at, clock).Recorded? ==>
      DecideForSession(user, session, log, at, clock) == Recorded(session.name)
  {
  }

  /** A session name the member's `disciplines` does not hold passes the
      discipline gate exactly when it names an inherited property, such as
      "constructor" or "toString". */
  lemma InheritedNamePassesDiscipline(user: User, session: Session, log: seq<CheckinRecord>,
                                      at: Instant, clock: Clock)
    requires user.disciplines.Some? && session.name !in user.disciplines.value
    ensures DecideForSession(user, session, log, at, clock) != DisciplineNotSubscribed
      <==> session.name in InheritedNames
  {
  }

  /** A discipline flag set to `false` is refused as not subscribed: the
      "Accès discipline non autorisé" branch that follows can never be taken. */
  lemma FalseFlagIsNotSubscribed(user: User, session: Session, log: seq<CheckinRecord>,
                                 at: Instant, clock: Clock)
    requires user.disciplines.Some? && session.name in user.disciplines.value
    requires !user.disciplines.value[session.name]
    ensures DecideForSession(user, session, log, at, clock) == DisciplineNotSubscribed
  {
  }

  /** For a member that was found, a check-in is recorded for `name` exactly
      when the member's category is non-empty and has a calendar, the first
      of the day's sessions (in list order) whose widened window holds the
      scan's minute and whose category admits the member is named `name`,
      that discipline is subscribed, the subscription is running, and no
      check-in of the member is stamped in the two hours before the scan. */
  lemma MemberRecordedIff(user: User, calendars: map<string, CalendarDoc>, log: seq<CheckinRecord>,
                          at: Instant, clock: Clock, name: string)
    ensures DecideForUser(user, calendars, log, at, clock) == Recorded(name)
      <==> (&& user.category.Some? && user.category.value != "" && ToLower(user.category.value) in calendars
            && var sessions := SessionsOn(ScheduleOf(calendars[ToLower(user.category.value)]), at.wall);
            && (exists i :: 0 <= i < |sessions| && sessions[i].name == name
                 && Qualifies(sessions[i], NowMinutes(at.wall), user.category.value)
                 && (forall j :: 0 <= j < i ==> !Qualifies(sessions[j], NowMinutes(at.wall), user.category.value)))
            && Subscribed(user, name)
            && SubscriptionValidity(user.paymentPlan, user.paymentDate, clock.now.wall) == Checked(true)
            && forall k :: 0 <= k < |log| ==> log[k].scannedAtMs <= at.ms - TwoHoursMs)
  {
    if user.category.Some? && user.category.value != "" {
      LowerIsEmptyIff(user.category.value);
      var key := ToLower(user.category.value);
      if key in calendars {
        var sessions := SessionsOn(ScheduleOf(calendars[key]), at.wall);
        var now := NowMinutes(at.wall);
        FirstMatchIsFirst(sessions, now, user.category.value);
        var m := FirstMatch(sessions, now, user.category.value);
        if m.Some? {
          SessionGates(user, m.value, log, at, clock);
          forall i | 0 <= i < |sessions| && Qualifies(sessions[i], now, user.category.value)
              && (forall j :: 0 <= j < i ==> !Qualifies(sessions[j], now, user.category.value))
            ensures sessions[i] == m.value
          {
            FirstQualifyingIsMatched(sessions, now, user.category.value, i);
          }
        }
      }
    } else if user.category.Some? {
      LowerIsEmptyIff(user.category.value);
    }
  }

  /** Everything a recorded check-in implies, and conversely: the token is
      decoded and not expired, the member exists, and the member's gates pass
      as `MemberRecordedIff` states, at the client's time when it sent one. */
  lemma RecordedIff(users: map<string, User>, calendars: map<string, CalendarDoc>,
                    checkins: map<string, seq<CheckinRecord>>,
                    qr: QrCode, currentTime: Option<Instant>, clock: Clock, name: string)
    ensures Decide(users, calendars, checkins, qr, currentTime, clock) == Recorded(name)
      <==> (&& qr.Decoded? && clock.now.ms < qr.exp * 1000 && qr.uid in users
            && var user := users[qr.uid];
            && user.category.Some? && user.category.value != "" && ToLower(user.category.value) in calendars
            && var at := EffectiveTime(currentTime, clock);
            && var sessions := SessionsOn(ScheduleOf(calendars[ToLower(user.category.value)]), at.wall);
            && (exists i :: 0 <= i < |sessions| && sessions[i].name == name
                 && Qualifies(sessions[i], NowMinutes(at.wall), user.category.value)
                 && (forall j :: 0 <= j < i ==> !Qualifies(sessions[j], NowMinutes(at.wall), user.category.value)))
            && Subscribed(user, name)
            && SubscriptionValidity(user.paymentPlan, user.paymentDate, clock.now.wall) == Checked(true)
            && var log := LogOf(checkins, qr.uid);
            && forall k :: 0 <= k < |log| ==> log[k].scannedAtMs <= at.ms - TwoHoursMs)
  {
    if qr.Decoded? && clock.now.ms < qr.exp * 1000 && qr.uid in users {
      MemberRecordedIff(users[qr.uid], calendars, LogOf(checkins, qr.uid),
                        EffectiveTime(currentTime, clock), clock, name);
    }
  }

  /** A recorded scan finds no check-in of the member in the two hours
      before its time. */
  lemma RecordedLogIsQuiet(users: map<string, User>, calendars: map<string, CalendarDoc>,
                           checkins: map<string, seq<CheckinRecord>>,
                           qr: QrCode, currentTime: Option<Instant>, clock: Clock)
    requires Decide(users, calendars, checkins, qr, currentTime, clock).Recorded?
    ensures qr.Decoded?
    ensures var log := LogOf(checkins, qr.uid);
      forall k :: 0 <= k < |log| ==> log[k].scannedAtMs <= EffectiveTime(currentTime, clock).ms - TwoHoursMs
  {
    var user := users[qr.uid];
    var at := EffectiveTime(currentTime, clock);
    var sessions := SessionsOn(ScheduleOf(calendars[ToLower(user.category.value)]), at.wall);
    var m := FirstMatch(sessions, NowMinutes(at.wall), user.category.value);
    SessionGates(user, m.value, LogOf(checkins, qr.uid), at, clock);
  }

  /** A recorded session is open: its window, widened by 20 minutes before
      and 30 after, holds the scan's minute of the day, and its category, if
      any, is the member's up to case. */
  lemma RecordedSessionIsOpen(user: User, calendars: map<string, CalendarDoc>, log: seq<CheckinRecord>,
                              at: Instant, clock: Clock)
    requires DecideForUser(user, calendars, log, at, clock).Recorded?
    ensures user.category.Some? && ToLower(user.category.value) in calendars
    ensures var sessions := SessionsOn(ScheduleOf(calendars[ToLower(user.category.value)]), at.wall);
      exists s :: s in sessions && s.name == DecideForUser(user, calendars, log, at, clock).sessionName
        && ParseTime(s.startTime).Some? && ParseTime(s.endTime).Some?
        && ParseTime(s.startTime).value - 20 <= NowMinutes(at.wall) <= ParseTime(s.endTime).value + 30
        && (s.category.Some? && s.category.value != "" ==> ToUpper(s.category.value) == ToUpper(user.category.value))
  {
    var sessions := SessionsOn(ScheduleOf(calendars[ToLower(user.category.value)]), at.wall);
    var now := NowMinutes(at.wall);
    MatchedSessionIsOpen(sessions, now, user.category.value);
    FirstMatchIsFirst(sessions, now, user.category.value);
  }

  /** The logs after a scan: the scanning member's log gains exactly one
      record at its end, naming the session, when the scan is recorded; every
      other log, and every log after a refusal, is unchanged. */
  lemma SingleAppend(checkins: map<string, seq<CheckinRecord>>, qr: QrCode, outcome: Outcome,
                     clock: Clock, uid: string)
    ensures outcome.Recorded? && qr.Decoded? && uid == qr.uid ==>
      LogOf(AfterScan(checkins, qr, outcome, clock), uid)
        == LogOf(checkins, uid) + [CheckinRecord(clock.isoDate, clock.commitMs, outcome.sessionName)]
    ensures !(outcome.Recorded? && qr.Decoded? && uid == qr.uid) ==>
      LogOf(AfterScan(checkins, qr, outcome, clock), uid) == LogOf(checkins, uid)
    ensures !outcome.Recorded? ==> AfterScan(checkins, qr, outcome, clock) == checkins
  {
  }

  /** Once a check-in is recorded with commit time T, no scan by the same
      member whose time is before T + 2 hours is recorded again. */
  lemma NoSecondCheckinWithinTwoHours(users: map<string, User>, calendars: map<string, CalendarDoc>,
                                      checkins: map<string, seq<CheckinRecord>>,
                                      qr: QrCode, currentTime: Option<Instant>, clock: Clock,
                                      qr2: QrCode, currentTime2: Option<Instant>, clock2: Clock)
    requires Decide(users, calendars, checkins, qr, currentTime, clock).Recorded?
    requires qr2.Decoded? && qr2.uid == qr.uid
    requires EffectiveTime(currentTime2, clock2).ms < clock.commitMs + TwoHoursMs
    ensures var after := AfterScan(checkins, qr, Decide(users, calendars, checkins, qr, currentTime, clock), clock);
      !Decide(users, calendars, after, qr2, currentTime2, clock2).Recorded?
  {
    var outcome := Decide(users, calendars, checkins, qr, currentTime, clock);
    var after := AfterScan(checkins, qr, outcome, clock);
    var log := LogOf(after, qr2.uid);
    SingleAppend(checkins, qr, outcome, clock, qr.uid);
    assert log[|log| - 1].scannedAtMs == clock.commitMs;
    if Decide(users, calendars, after, qr2, currentTime2, clock2).Recorded? {
      RecordedLogIsQuiet(users, calendars, after, qr2, currentTime2, clock2);
      assert false;
    }
  }

  /** The catch block's 400 is sent exactly when `jwt.verify` throws, or when
      every gate up to the discipline passes and `parseDatePaiement` then
      throws on the member's payment date. */
  lemma InvalidQrIff(users: map<string, User>, calendars: map<string, CalendarDoc>,
                     checkins: map<string, seq<CheckinRecord>>,
                     qr: QrCode, currentTime: Option<Instant>, clock: Clock)
    ensures Decide(users, calendars, checkins, qr, currentTime, clock) == InvalidQr
      <==> (|| qr.Unverifiable?
            || (&& qr.Decoded? && clock.now.ms < qr.exp * 1000 && qr.uid in users
                && var user := users[qr.uid];
                && user.category.Some? && user.category.value != "" && ToLower(user.category.value) in calendars
                && var at := EffectiveTime(currentTime, clock);
                && var m := FirstMatch(SessionsOn(ScheduleOf(calendars[ToLower(user.category.value)]), at.wall),
                                       NowMinutes(at.wall), user.category.value);
                && m.Some? && Subscribed(user, m.value.name)
                && SubscriptionValidity(user.paymentPlan, user.paymentDate, clock.now.wall).ThrowsTypeError?))
  {
    TokenAndLookupGates(users, calendars, checkins, qr, currentTime, clock);
    if qr.Decoded? && clock.now.ms < qr.exp * 1000 && qr.uid in users {
      var user := users[qr.uid];
      var at := EffectiveTime(currentTime, clock);
      if user.category.Some? {
        LowerIsEmptyIff(user.category.value);
        var key := ToLower(user.category.value);
        if user.category.value != "" && key in calendars {
          var m := FirstMatch(SessionsOn(ScheduleOf(calendars[key]), at.wall), NowMinutes(at.wall), user.category.value);
          if m.Some? {
            SessionGates(user, m.value, LogOf(checkins, qr.uid), at, clock);
          }
        }
      }
    }
  }

  /** The status codes of `/scan-checkin`: 401 comes from the expiry gate
      alone, 409 from the two-hour window alone and 200 from a recorded
      check-in alone; every reply is one of 200, 400, 401, 403, 404 and 409. */
  lemma ScanStatusCodes(users: map<string, User>, calendars: map<string, CalendarDoc>,
                        checkins: map<string, seq<CheckinRecord>>,
                        qr: QrCode, currentTime: Option<Instant>, clock: Clock)
    ensures HttpStatus(Decide(users, calendars, checkins, qr, currentTime, clock)) in {200, 400, 401, 403, 404, 409}
    ensures HttpStatus(Decide(users, calendars, checkins, qr, currentTime, clock)) == 401
      <==> qr.Decoded? && clock.now.ms >= qr.exp * 1000
    ensures HttpStatus(Decide(users, calendars, checkins, qr, currentTime, clock)) == 409
      <==> Decide(users, calendars, checkins, qr, currentTime, clock) == AlreadyScanned
    ensures HttpStatus(Decide(users, calendars, checkins, qr, currentTime, clock)) == 200
      <==> Decide(users, calendars, checkins, qr, currentTime, clock).Recorded?
  {
    TokenAndLookupGates(users, calendars, checkins, qr, currentTime, clock);
  }

  /** A token issued at `issuedMs` and scanned six minutes later is refused
      with 401, whatever is stored. */
  lemma LateScanIsExpired(users: map<string, User>, calendars: map<string, CalendarDoc>,
                          checkins: map<string, seq<CheckinRecord>>,
                          uid: string, issuedMs: int, currentTime: Option<Instant>, clock: Clock)
    requires clock.now.ms == issuedMs + 6 * 60 * 1000
    ensures Decide(users, calendars, checkins, Decoded(uid, IssueExpiry(issuedMs)), currentTime, clock)
      == ExpiredToken
  {
    SixMinutesLate(issuedMs);
  }
}
