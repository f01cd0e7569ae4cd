/** The `/scan-checkin` handler (index.js): a fixed sequence of gates over the
    scanned QR token, the member's record, the category calendar, the day's
    sessions, the member's disciplines and subscription, and the member's
    recent check-ins, ending in one appended check-in record. */
module Scanner {
  import opened Wrappers
  import opened Js
  import opened Chrono
  import opened Schema
  import opened Matcher
  import opened Subscription
  import opened QrToken

  /** A second check-in is refused within two hours of the previous one. */
  const TwoHoursMs := 7200000

  /** A point in time: `ms` since the epoch, and `wall` the same moment as a
      local wall-clock time value of the server's zone (Europe/Paris). */
  datatype Instant = Instant(ms: int, wall: int)

  /** The clock readings of one request: now, the UTC calendar date of now
      (`new Date().toISOString().split("T")[0]`), and the time Firestore
      stamps as `scannedAt` when the record is committed. */
  datatype Clock = Clock(now: Instant, isoDate: string, commitMs: int)

  /** The scanned token as `jwt.verify` leaves it: absent (missing or empty),
      rejected by the library (it throws), or decoded into its claims. */
  datatype QrCode = Absent | Unverifiable | Decoded(uid: string, exp: int)

  /** The fields of a `Users` document the handler reads: `type`,
      `disciplines`, `typePaiement` and `datePaiement`. */
  datatype User = User(
    category: Option<string>,
    disciplines: Option<map<string, bool>>,
    paymentPlan: Option<string>,
    paymentDate: Option<string>)

  /** One document of a member's `checkins` sub-collection. */
  datatype CheckinRecord = CheckinRecord(date: string, scannedAtMs: int, sessionType: string)

  /** The handler's replies, in gate order. */
  datatype Outcome =
    | MissingToken             // 400 "QR token manquant"
    | InvalidQr                // 400 from the catch block: anything thrown inside `try`
    | ExpiredToken             // 401 "QR expiré"
    | UserNotFound             // 404 "Utilisateur non trouvé"
    | UnknownCategory          // 400 "Catégorie utilisateur inconnue"
    | CalendarNotFound         // 404 "Planning introuvable"
    | NoActiveSession          // 403 "nullAucun cours actif ou proche dans votre planning"
    | DisciplineNotSubscribed  // 403 "Discipline non souscrite"
    | SubscriptionExpired      // 403 "Abonnement expiré"
    | AlreadyScanned           // 409 "Déjà scanné il y a moins de 2 heures"
    | Recorded(sessionName: string)  // 200 "Présence enregistrée !"

  /** The HTTP status each reply is sent with. */
  function HttpStatus(outcome: Outcome): int {
    match outcome
    case MissingToken => 400
    case InvalidQr => 400
    case ExpiredToken => 401
    case UserNotFound => 404
    case UnknownCategory => 400
    case CalendarNotFound => 404
    case NoActiveSession => 403
    case DisciplineNotSubscribed => 403
    case SubscriptionExpired => 403
    case AlreadyScanned => 409
    case Recorded(_) => 200
  }

  /** `currentTime || Date.now()`: the client's time unless it is missing or 0. */
  function EffectiveTime(currentTime: Option<Instant>, clock: Clock): Instant {
    if currentTime.Some? && currentTime.value.ms != 0 then currentTime.value else clock.now
  }

  /** `schedule[getDay().toString()] || []`. */
  function SessionsOn(schedule: Schedule, wall: int): seq<Session> {
    var dayIndex := IntToString(WeekDay(wall));
    if dayIndex in schedule then schedule[dayIndex] else []
  }

  /** The properties every plain object inherits from `Object.prototype`.
      Reading one that the object does not hold itself gives a function (for
      `__proto__`, the prototype object), and either is truthy. */
  const InheritedNames: set<string> := {
    "constructor", "hasOwnProperty", "isPrototypeOf", "propertyIsEnumerable",
    "toLocaleString", "toString", "valueOf", "__defineGetter__", "__defineSetter__",
    "__lookupGetter__", "__lookupSetter__", "__proto__"}

  /** `userData.disciplines?.[name]` is truthy: the member's own flag for
      `name` when `disciplines` holds one, else whether `name` is inherited. */
  predicate Subscribed(user: User, name: string) {
    && user.disciplines.Some?
    && if name in user.disciplines.value then user.disciplines.value[name] else name in InheritedNames
  }

  /** A member's check-in log; a member without one has an empty log. */
  function LogOf(checkins: map<string, seq<CheckinRecord>>, uid: string): seq<CheckinRecord> {
    if uid in checkins then checkins[uid] else []
  }

  /** Some check-in of the log was stamped strictly after `since`. */
  predicate HasRecent(log: seq<CheckinRecord>, since: int) {
    exists i :: 0 <= i < |log| && log[i].scannedAtMs > since
  }

  /** The reply to one scan, gate by gate: the token, then the member. */
  function Decide(users: map<string, User>, calendars: map<string, CalendarDoc>,
                  checkins: map<string, seq<CheckinRecord>>,
                  qr: QrCode, currentTime: Option<Instant>, clock: Clock): Outcome
  {
    if qr.Absent? then MissingToken
    else if qr.Unverifiable? then InvalidQr
    else if Expired(qr.exp, clock.now.ms) then ExpiredToken
    else if qr.uid !in users then UserNotFound
    else DecideForUser(users[qr.uid], calendars, LogOf(checkins, qr.uid), EffectiveTime(currentTime, clock), clock)
  }

  /** The gates after the member is found: the category and its calendar,
      then the session open at instant `at`. */
  function DecideForUser(user: User, calendars: map<string, CalendarDoc>, log: seq<CheckinRecord>,
                         at: Instant, clock: Clock): Outcome
  {
    if user.category.None? || ToLower(user.category.value) == "" then UnknownCategory
    else if ToLower(user.category.value) !in calendars then CalendarNotFound
    else
      var schedule := ScheduleOf(calendars[ToLower(user.category.value)]);
      match FirstMatch(SessionsOn(schedule, at.wall), NowMinutes(at.wall), user.category.value)
      case None => NoActiveSession
      case Some(session) => DecideForSession(user, session, log, at, clock)
  }

  /** The gates after a session is matched: its discipline, the subscription
      (at the server's time), and the two-hour window (at instant `at`). */
  function DecideForSession(user: User, session: Session, log: seq<CheckinRecord>,
                            at: Instant, clock: Clock): Outcome
  {
    if !Subscribed(user, session.name) then DisciplineNotSubscribed
    else
      match SubscriptionValidity(user.paymentPlan, user.paymentDate, clock.now.wall)
      case ThrowsTypeError => InvalidQr
      case Checked(valid) =>
        if !valid then SubscriptionExpired
        else if HasRecent(log, at.ms - TwoHoursMs) then AlreadyScanned
        else Recorded(session.name)
  }

  /** The check-in logs after member `uid`'s scan got reply `outcome`: one
      record more at the end of that member's log when it was recorded, the
      same logs otherwise. */
  function RecordScan(checkins: map<string, seq<CheckinRecord>>, uid: string,
                      outcome: Outcome, clock: Clock): map<string, seq<CheckinRecord>>
  {
    if outcome.Recorded? then
      checkins[uid := LogOf(checkins, uid) + [CheckinRecord(clock.isoDate, clock.commitMs, outcome.sessionName)]]
    else checkins
  }

  /** The check-in logs after a scan of `qr`; nothing is written without a
      decoded token. */
  function AfterScan(checkins: map<string, seq<CheckinRecord>>, qr: QrCode,
                     outcome: Outcome, clock: Clock): map<string, seq<CheckinRecord>>
  {
    if qr.Decoded? then RecordScan(checkins, qr.uid, outcome, clock) else checkins
  }

  /** The back end's state: the `Users` and `Calendars` collections, which a
      scan only reads, and every member's `checkins` sub-collection. */
  class Backend {
    var users: map<string, User>
    var calendars: map<string, CalendarDoc>
    var checkins: map<string, seq<CheckinRecord>>

    constructor(users0: map<string, User>, calendars0: map<string, CalendarDoc>,
                checkins0: map<string, seq<CheckinRecord>>)
      ensures users == users0 && calendars == calendars0 && checkins == checkins0
    {
      users := users0;
      calendars := calendars0;
      checkins := checkins0;
    }

    /** `POST /scan-checkin`: replies as `Decide` says and appends a record
        only when the reply is `Recorded`. */
    method ScanCheckin(qr: QrCode, currentTime: Option<Instant>, clock: Clock)
      returns (outcome: Outcome)
      modifies this`checkins
      ensures outcome == Decide(users, calendars, old(checkins), qr, currentTime, clock)
      ensures checkins == AfterScan(old(checkins), qr, outcome, clock)
    {
      if qr.Absent? {
        return MissingToken;
      }
      if qr.Unverifiable? {
        return InvalidQr;
      }
      if clock.now.ms >= qr.exp * 1000 {
        return ExpiredToken;
      }
      if qr.uid !in users {
        return UserNotFound;
      }
      outcome := ScanMember(qr.uid, users[qr.uid], EffectiveTime(currentTime, clock), clock);
    }

    /** The handler from the member's category on, for the member `uid` whose
        record is `userData`, at instant `nowDate`. */
    method ScanMember(uid: string, userData: User, nowDate: Instant, clock: Clock)
      returns (outcome: Outcome)
      modifies this`checkins
      ensures outcome == DecideForUser(userData, calendars, LogOf(old(checkins), uid), nowDate, clock)
      ensures checkins == RecordScan(old(checkins), uid, outcome, clock)
    {
      if userData.category.None? {
        return UnknownCategory;
      }
      var category := ToLower(userData.category.value);
      if category == "" {
        return UnknownCategory;
      }
      if category !in calendars {
        return CalendarNotFound;
      }
      var schedule := ScheduleOf(calendars[category]);
      var dayIndex := IntToString(WeekDay(nowDate.wall));
      var sessionsToday := if dayIndex in schedule then schedule[dayIndex] else [];
      var matchedSession := FindMatchingSession(sessionsToday, nowDate.wall, userData.category.value);
      if matchedSession.None? {
        return NoActiveSession;
      }
      outcome := ScanSession(uid, userData, matchedSession.value, nowDate, clock);
    }

    /** The handler from the discipline check on, once `session` is matched. */
    method ScanSession(uid: string, userData: User, session: Session, nowDate: Instant, clock: Clock)
      returns (outcome: Outcome)
      modifies this`checkins
      ensures outcome == DecideForSession(userData, session, LogOf(old(checkins), uid), nowDate, clock)
      ensures checkins == RecordScan(old(checkins), uid, outcome, clock)
    {
      var discipline := userData.disciplines.Some?
                        && if session.name in userData.disciplines.value
                           then userData.disciplines.value[session.name]
                           else session.name in InheritedNames;
      if !discipline {
        return DisciplineNotSubscribed;
      }
      var validity := IsSubscriptionValid(userData.paymentPlan, userData.paymentDate, clock.now.wall);
      if validity.ThrowsTypeError? {
        return InvalidQr;
      }
      if !validity.valid {
        return SubscriptionExpired;
      }
      var twoHoursAgo := nowDate.ms - TwoHoursMs;
      var log := LogOf(checkins, uid);
      var recent := exists i :: 0 <= i < |log| && log[i].scannedAtMs > twoHoursAgo;
      if recent {
        return AlreadyScanned;
      }
      checkins := checkins[uid := log + [CheckinRecord(clock.isoDate, clock.commitMs, session.name)]];
      return Recorded(session.name);
    }
  }
}
