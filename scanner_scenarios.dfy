/** Worked scans against a small store: a MALE member subscribed yearly to
    boxing, and a Monday boxing session from 18h00 to 19h30. */
module ScannerScenarios {
  import opened Wrappers
  import opened Js
  import opened Chrono
  import opened Schema
  import opened Matcher
  import opened Subscription
  import opened QrToken
  import opened Scanner
  import opened ScannerProperties

  /** `session` is the Monday boxing session, 18h00 to 19h30, open to every
      category. */
  predicate IsBoxingSession(session: Session) {
    session.name == "Boxe" && session.startTime == "18h00" && session.endTime == "19h30"
    && session.category.None?
  }

  /** `user` is a member of category MALE who paid the yearly plan at
      midnight on 2024-01-01; `boxing` is the member's boxing flag. */
  predicate IsBoxer(user: User, boxing: bool) {
    user.category == Some("MALE") && user.disciplines == Some(map["Boxe" := boxing])
    && user.paymentPlan == Some(Yearly) && user.paymentDate == Some("01/01/2024 00:00:00")
  }

  /** `calendars` holds one `male` document whose day "1" (Monday) holds
      just `session`. */
  predicate IsBoxingCalendar(calendars: map<string, CalendarDoc>, session: Session) {
    calendars == map["male" := CalendarDoc(Some(map["1" := [session]]))]
  }

  lemma StartsAtSix(time: string)
    requires time == "18h00"
    ensures ParseTime(time) == Some(1080)
  {
    assert DigitsValue("18") == 18 by { assert "18"[..1] == "1"; }
    assert DigitsValue("00") == 0 by { assert "00"[..1] == "0"; }
    assert AllDigits("18") && AllDigits("00");
    ParseTimeOfDigits("18", "00");
    assert "18" + "h" + "00" == time;
  }

  lemma EndsAtHalfPastSeven(time: string)
    requires time == "19h30"
    ensures ParseTime(time) == Some(1170)
  {
    assert DigitsValue("19") == 19 by { assert "19"[..1] == "1"; }
    assert DigitsValue("30") == 30 by { assert "30"[..1] == "3"; }
    assert AllDigits("19") && AllDigits("30");
    ParseTimeOfDigits("19", "30");
    assert "19" + "h" + "30" == time;
  }

  /** The boxing session admits a member from 17:40 to 20:00 inclusive. */
  lemma BoxingWindow(session: Session, minutes: int, userType: string)
    requires IsBoxingSession(session)
    ensures Qualifies(session, minutes, userType) <==> 17 * 60 + 40 <= minutes <= 20 * 60
  {
    StartsAtSix(session.startTime);
    EndsAtHalfPastSeven(session.endTime);
  }

  /** 2024-01-08 (day 19730 counted from 1970-01-01) was a Monday. */
  lemma MondayEvening(wall: int, hour: int, minute: int)
    requires 0 <= hour < 24 && 0 <= minute < 60
    requires wall == MakeDate(DayOf(Civil(2024, 0, 8)), MakeTime(hour, minute, 0))
    ensures IntToString(WeekDay(wall)) == "1"
    ensures NowMinutes(wall) == hour * 60 + minute
  {
    DaysBefore2024();
    assert DayOf(Civil(2024, 0, 8)) == 19730;
    ClockOf(19730, hour, minute);
    assert WeekDay(wall) == 1;
  }

  lemma NewYearMidnightText()
    ensures PaymentDateText("01", "01", "2024", "00", "00", "00") == "01/01/2024 00:00:00"
  {
  }

  lemma NewYearMidnight(date: Option<string>)
    requires date == Some("01/01/2024 00:00:00")
    ensures ParsePaymentDate(date)
      == Local(MakeDate(DayOf(Civil(2024, 0, 1)), MakeTime(0, 0, 0)))
  {
    NewYearFields();
    NewYearMidnightText();
    ParseOfText("01", "01", "2024", "00", "00", "00", 1, 1, 2024, 0, 0, 0);
  }

  /** The yearly plan paid at midnight on 2024-01-01 runs through 2024. */
  lemma BoxerSubscriptionRuns(user: User, boxing: bool, wall: int)
    requires IsBoxer(user, boxing)
    requires DayOf(Civil(2024, 0, 1)) * MsPerDay <= wall < DayOf(Civil(2024, 0, 1)) * MsPerDay + 365 * MsPerDay
    ensures SubscriptionValidity(user.paymentPlan, user.paymentDate, wall) == Checked(true)
  {
    NewYearMidnight(user.paymentDate);
    ExpiryBounds(user.paymentPlan, MakeDate(DayOf(Civil(2024, 0, 1)), MakeTime(0, 0, 0)));
  }

  /** On a Monday, the boxer's day list is the boxing session alone. */
  lemma BoxerCalendarGates(user: User, boxing: bool, calendars: map<string, CalendarDoc>, session: Session,
                           at: Instant, clock: Clock)
    requires IsBoxer(user, boxing) && IsBoxingCalendar(calendars, session)
    requires IntToString(WeekDay(at.wall)) == "1"
    ensures DecideForUser(user, calendars, [], at, clock)
      == if Qualifies(session, NowMinutes(at.wall), "MALE") then DecideForSession(user, session, [], at, clock)
         else NoActiveSession
  {
    assert ToLower("MALE") == "male";
    assert SessionsOn(ScheduleOf(calendars["male"]), at.wall) == [session];
    assert [session][1..] == [];
    assert FirstMatch([session], NowMinutes(at.wall), "MALE")
      == if Qualifies(session, NowMinutes(at.wall), "MALE") then Some(session) else None;
  }

  /** With a running subscription and an empty log, the boxing session is
      recorded exactly when the boxing flag is set. */
  lemma BoxerSessionGates(user: User, boxing: bool, session: Session, at: Instant, clock: Clock)
    requires IsBoxer(user, boxing) && IsBoxingSession(session)
    requires SubscriptionValidity(user.paymentPlan, user.paymentDate, clock.now.wall) == Checked(true)
    ensures DecideForSession(user, session, [], at, clock)
      == if boxing then Recorded("Boxe") else DisciplineNotSubscribed
  {
  }

  lemma MondayIn2024(wall: int, hour: int, minute: int)
    requires 0 <= hour < 24 && 0 <= minute < 60
    requires wall == MakeDate(DayOf(Civil(2024, 0, 8)), MakeTime(hour, minute, 0))
    ensures DayOf(Civil(2024, 0, 1)) * MsPerDay <= wall < DayOf(Civil(2024, 0, 1)) * MsPerDay + 365 * MsPerDay
  {
    DaysBefore2024();
  }

  /** The member gates for a boxer scanning on Monday 2024-01-08 at
      `hour`:`minute`, with an empty log. */
  lemma BoxerOnMonday(user: User, boxing: bool, calendars: map<string, CalendarDoc>, session: Session,
                      at: Instant, clock: Clock, hour: int, minute: int)
    requires IsBoxer(user, boxing) && IsBoxingSession(session) && IsBoxingCalendar(calendars, session)
    requires 0 <= hour < 24 && 0 <= minute < 60
    requires at.wall == MakeDate(DayOf(Civil(2024, 0, 8)), MakeTime(hour, minute, 0))
    requires clock.now.wall == at.wall
    ensures boxing && 17 * 60 + 40 <= hour * 60 + minute <= 20 * 60 ==>
      DecideForUser(user, calendars, [], at, clock) == Recorded("Boxe")
    ensures !boxing && 17 * 60 + 40 <= hour * 60 + minute <= 20 * 60 ==>
      DecideForUser(user, calendars, [], at, clock) == DisciplineNotSubscribed
    ensures !(17 * 60 + 40 <= hour * 60 + minute <= 20 * 60) ==>
      DecideForUser(user, calendars, [], at, clock) == NoActiveSession
  {
    MondayEvening(at.wall, hour, minute);
    BoxingWindow(session, hour * 60 + minute, "MALE");
    BoxerCalendarGates(user, boxing, calendars, session, at, clock);
    MondayIn2024(at.wall, hour, minute);
    BoxerSubscriptionRuns(user, boxing, clock.now.wall);
    BoxerSessionGates(user, boxing, session, at, clock);
  }

  /** A token of member "u1" that expires a minute from now, scanned with no
      client time and an empty log, reaches the member's gates. */
  lemma FreshTokenReachesMember(users: map<string, User>, calendars: map<string, CalendarDoc>,
                                qr: QrCode, clock: Clock)
    requires "u1" in users && qr == Decoded("u1", clock.now.ms / 1000 + 60)
    ensures Decide(users, calendars, map[], qr, None, clock)
      == DecideForUser(users["u1"], calendars, [], clock.now, clock)
  {
    assert !Expired(qr.exp, clock.now.ms);
    assert LogOf(map[], "u1") == [];
  }

  /** The first recorded check-in of "u1" makes a one-record log. */
  lemma RecordedAppendsFirst(qr: QrCode, outcome: Outcome, clock: Clock)
    requires qr.Decoded? && qr.uid == "u1" && outcome == Recorded("Boxe")
    ensures AfterScan(map[], qr, outcome, clock) == map["u1" := [CheckinRecord(clock.isoDate, clock.commitMs, "Boxe")]]
  {
    var record := CheckinRecord(clock.isoDate, clock.commitMs, "Boxe");
    assert LogOf(map[], "u1") + [record] == [record];
    assert RecordScan(map[], "u1", outcome, clock) == map[]["u1" := [record]];
  }

  /** End to end: a boxer with a valid token scanning at 18:05 on Monday
      2024-01-08, with no earlier check-in, is recorded for "Boxe" and the
      log then holds exactly that record; with the boxing flag false the
      scan is refused as not subscribed. */
  lemma MondayBoxingScan(users: map<string, User>, boxing: bool, calendars: map<string, CalendarDoc>,
                         session: Session, qr: QrCode, clock: Clock)
    requires "u1" in users && IsBoxer(users["u1"], boxing)
    requires IsBoxingSession(session) && IsBoxingCalendar(calendars, session)
    requires qr == Decoded("u1", clock.now.ms / 1000 + 60)
    requires clock.now.wall == MakeDate(DayOf(Civil(2024, 0, 8)), MakeTime(18, 5, 0))
    ensures boxing ==> Decide(users, calendars, map[], qr, None, clock) == Recorded("Boxe")
    ensures boxing ==>
      AfterScan(map[], qr, Decide(users, calendars, map[], qr, None, clock), clock)
        == map["u1" := [CheckinRecord(clock.isoDate, clock.commitMs, "Boxe")]]
    ensures !boxing ==> Decide(users, calendars, map[], qr, None, clock) == DisciplineNotSubscribed
  {
    FreshTokenReachesMember(users, calendars, qr, clock);
    BoxerOnMonday(users["u1"], boxing, calendars, session, clock.now, clock, 18, 5);
    if boxing {
      RecordedAppendsFirst(qr, Decide(users, calendars, map[], qr, None, clock), clock);
    }
  }

  /** The same boxer scanning a minute after the widened window closes. */
  lemma LateBoxingScan(users: map<string, User>, calendars: map<string, CalendarDoc>,
                       session: Session, qr: QrCode, clock: Clock)
    requires "u1" in users && IsBoxer(users["u1"], true)
    requires IsBoxingSession(session) && IsBoxingCalendar(calendars, session)
    requires qr == Decoded("u1", clock.now.ms / 1000 + 60)
    requires clock.now.wall == MakeDate(DayOf(Civil(2024, 0, 8)), MakeTime(20, 1, 0))
    ensures Decide(users, calendars, map[], qr, None, clock) == NoActiveSession
  {
    FreshTokenReachesMember(users, calendars, qr, clock);
    BoxerOnMonday(users["u1"], true, calendars, session, clock.now, clock, 20, 1);
  }
}
