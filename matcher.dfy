/** `findMatchingSession` and its inner `parseTime` (index.js): the first session
    of the day whose widened time window contains the current time and whose
    reserved category, if any, is the member's. */
module Matcher {
  import opened Wrappers
  import opened Js
  import opened Chrono
  import opened Schema

  /** Minutes before the start at which a session can already be joined. */
  const EarlyGraceMinutes := 20
  /** Minutes after the end at which a session can still be joined. */
  const LateGraceMinutes := 30

  /** `parseTime("HHhMM")`: hours times 60 plus minutes, where missing or
      non-numeric minutes count as 0 (`minutes || 0`); NaN (None) when the
      hours are not a number. */
  function ParseTime(time: string): Option<int> {
    var parts := Split(time, 'h');
    var hours := ToNumber(parts[0]);
    var minutes := if |parts| > 1 then ToNumber(parts[1]).GetOr(0) else 0;
    if hours.None? then None else Some(hours.value * 60 + minutes)
  }

  /** Splitting `HHhMM` on 'h' gives the two digit groups. */
  lemma SplitHoursMinutes(hours: string, minutes: string)
    requires AllDigits(hours) && AllDigits(minutes)
    ensures Split(hours + "h" + minutes, 'h') == [hours, minutes]
  {
    assert 'h' !in hours && 'h' !in minutes;
    assert hours + "h" + minutes == hours + ['h'] + minutes;
    SplitTwo(hours, minutes, 'h');
  }

  /** ParseTime of a string that splits into two digit groups. */
  lemma ParseTimeOfParts(time: string, hours: string, minutes: string)
    requires AllDigits(hours) && AllDigits(minutes)
    requires Split(time, 'h') == [hours, minutes]
    ensures ParseTime(time) == Some(DigitsValue(hours) * 60 + DigitsValue(minutes))
  {
  }

  /** `HHhMM` is HH * 60 + MM. */
  lemma ParseTimeOfDigits(hours: string, minutes: string)
    requires AllDigits(hours) && AllDigits(minutes)
    ensures ParseTime(hours + "h" + minutes) == Some(DigitsValue(hours) * 60 + DigitsValue(minutes))
  {
    SplitHoursMinutes(hours, minutes);
    ParseTimeOfParts(hours + "h" + minutes, hours, minutes);
  }

  /** `HH` alone is HH * 60. */
  lemma ParseHoursOfDigits(hours: string)
    requires AllDigits(hours)
    ensures ParseTime(hours) == Some(DigitsValue(hours) * 60)
  {
    assert 'h' !in hours;
    SplitWithout(hours, 'h');
  }

  /** `nowDate.getHours() * 60 + nowDate.getMinutes()` for a local time value. */
  function NowMinutes(wall: int): int {
    HourFromTime(wall) * 60 + MinFromTime(wall)
  }

  /** The current minute lies in [start - 20, end + 30]. */
  predicate InWindow(s: Session, nowMinutes: int) {
    match (ParseTime(s.startTime), ParseTime(s.endTime))
    case (Some(start), Some(end)) =>
      start - EarlyGraceMinutes <= nowMinutes <= end + LateGraceMinutes
    case _ => false
  }

  /** Case-insensitive equality, as `a.toUpperCase() === b.toUpperCase()`. */
  predicate SameIgnoringCase(a: string, b: string) {
    ToUpper(a) == ToUpper(b)
  }

  /** A session with no (or an empty) `type` admits every category. */
  predicate AdmitsCategory(s: Session, userType: string) {
    match s.category
    case None => true
    case Some(t) => t == "" || SameIgnoringCase(t, userType)
  }

  predicate Qualifies(s: Session, nowMinutes: int, userType: string) {
    InWindow(s, nowMinutes) && AdmitsCategory(s, userType)
  }

  /** The first qualifying session in list order, if any. */
  function FirstMatch(sessions: seq<Session>, nowMinutes: int, userType: string): Option<Session> {
    if sessions == [] then None
    else if Qualifies(sessions[0], nowMinutes, userType) then Some(sessions[0])
    else FirstMatch(sessions[1..], nowMinutes, userType)
  }

  /** FirstMatch returns nothing exactly when no session qualifies. */
  lemma {:induction false} NoMatchIffNoneQualifies(sessions: seq<Session>, nowMinutes: int, userType: string)
    ensures FirstMatch(sessions, nowMinutes, userType).None? <==>
      forall i :: 0 <= i < |sessions| ==> !Qualifies(sessions[i], nowMinutes, userType)
  {
    if sessions != [] && !Qualifies(sessions[0], nowMinutes, userType) {
      NoMatchIffNoneQualifies(sessions[1..], nowMinutes, userType);
      forall i | 0 < i < |sessions|
        ensures sessions[i] == sessions[1..][i - 1]
      {
      }
    }
  }

  /** A session FirstMatch returns sits at an index where it qualifies and
      every earlier session fails. */
  lemma {:induction false} MatchIsFirstQualifier(sessions: seq<Session>, nowMinutes: int, userType: string)
    requires FirstMatch(sessions, nowMinutes, userType).Some?
    ensures exists i ::
      && 0 <= i < |sessions| && sessions[i] == FirstMatch(sessions, nowMinutes, userType).value
      && Qualifies(sessions[i], nowMinutes, userType)
      && forall j :: 0 <= j < i ==> !Qualifies(sessions[j], nowMinutes, userType)
  {
    var m := FirstMatch(sessions, nowMinutes, userType).value;
    if Qualifies(sessions[0], nowMinutes, userType) {
      assert sessions[0] == m;
    } else {
      var rest := sessions[1..];
      assert FirstMatch(rest, nowMinutes, userType) == FirstMatch(sessions, nowMinutes, userType);
      MatchIsFirstQualifier(rest, nowMinutes, userType);
      var i :| 0 <= i < |rest| && rest[i] == m
        && Qualifies(rest[i], nowMinutes, userType)
        && forall j :: 0 <= j < i ==> !Qualifies(rest[j], nowMinutes, userType);
      forall j | 0 < j < i + 1
        ensures sessions[j] == rest[j - 1]
      {
      }
      assert sessions[i + 1] == m;
    }
  }

  /** FirstMatch returns a qualifying session every earlier one of which fails,
      and nothing exactly when no session qualifies. */
  lemma FirstMatchIsFirst(sessions: seq<Session>, nowMinutes: int, userType: string)
    ensures FirstMatch(sessions, nowMinutes, userType).None? <==>
      forall i :: 0 <= i < |sessions| ==> !Qualifies(sessions[i], nowMinutes, userType)
    ensures FirstMatch(sessions, nowMinutes, userType).Some? ==>
      exists i :: 0 <= i < |sessions| && sessions[i] == FirstMatch(sessions, nowMinutes, userType).value
        && Qualifies(sessions[i], nowMinutes, userType)
        && forall j :: 0 <= j < i ==> !Qualifies(sessions[j], nowMinutes, userType)
  {
    NoMatchIffNoneQualifies(sessions, nowMinutes, userType);
    if FirstMatch(sessions, nowMinutes, userType).Some? {
      MatchIsFirstQualifier(sessions, nowMinutes, userType);
    }
  }

  /** Conversely, a qualifying session preceded only by failing ones is the match. */
  lemma {:induction false} FirstQualifyingIsMatched(sessions: seq<Session>, nowMinutes: int, userType: string, i: int)
    requires 0 <= i < |sessions| && Qualifies(sessions[i], nowMinutes, userType)
    requires forall j :: 0 <= j < i ==> !Qualifies(sessions[j], nowMinutes, userType)
    ensures FirstMatch(sessions, nowMinutes, userType) == Some(sessions[i])
  {
    if i > 0 {
      forall j | 0 <= j < i - 1
        ensures !Qualifies(sessions[1..][j], nowMinutes, userType)
      {
        assert sessions[1..][j] == sessions[j + 1];
      }
      FirstQualifyingIsMatched(sessions[1..], nowMinutes, userType, i - 1);
    }
  }

  /** A matched session's window, widened by the grace periods, holds the
      current minute, and its category admits the member. */
  lemma MatchedSessionIsOpen(sessions: seq<Session>, nowMinutes: int, userType: string)
    requires FirstMatch(sessions, nowMinutes, userType).Some?
    ensures var s := FirstMatch(sessions, nowMinutes, userType).value;
      && ParseTime(s.startTime).Some? && ParseTime(s.endTime).Some?
      && ParseTime(s.startTime).value - 20 <= nowMinutes <= ParseTime(s.endTime).value + 30
      && (s.category.Some? && s.category.value != "" ==> ToUpper(s.category.value) == ToUpper(userType))
  {
    FirstMatchIsFirst(sessions, nowMinutes, userType);
  }

  /** Of two overlapping sessions that both qualify, the earlier in the list wins. */
  lemma FirstOfTwoWins(a: Session, b: Session, rest: seq<Session>, nowMinutes: int, userType: string)
    requires Qualifies(a, nowMinutes, userType) && Qualifies(b, nowMinutes, userType)
    ensures FirstMatch([a, b] + rest, nowMinutes, userType) == Some(a)
  {
  }

  /** For an open session (no type) with known bounds, qualifying is being
      inside the widened window. */
  lemma OpenSessionWindow(s: Session, start: int, end: int, nowMinutes: int, userType: string)
    requires ParseTime(s.startTime) == Some(start) && ParseTime(s.endTime) == Some(end)
    requires s.category.None?
    ensures Qualifies(s, nowMinutes, userType) <==> start - 20 <= nowMinutes <= end + 30
  {
  }

  /** The digit groups of "10h00" and "11h00". */
  lemma HourFields()
    ensures AllDigits("10") && DigitsValue("10") == 10
    ensures AllDigits("11") && DigitsValue("11") == 11
    ensures AllDigits("00") && DigitsValue("00") == 0
  {
    assert DigitsValue("10") == 10 by {
      assert "10"[..1] == "1";
    }
    assert DigitsValue("11") == 11 by {
      assert "11"[..1] == "1";
    }
    assert DigitsValue("00") == 0 by {
      assert "00"[..1] == "0";
    }
  }

  lemma HourTexts()
    ensures "10" + "h" + "00" == "10h00" && "11" + "h" + "00" == "11h00"
  {
  }

  /** Session 10h00-11h00 is joinable from 09:40 to 11:30 and not a minute outside. */
  lemma ToleranceBoundaries(s: Session)
    requires s.startTime == "10h00" && s.endTime == "11h00" && s.category.None?
    ensures Qualifies(s, 9 * 60 + 40, "MALE") && Qualifies(s, 11 * 60 + 30, "MALE")
    ensures !Qualifies(s, 9 * 60 + 39, "MALE") && !Qualifies(s, 11 * 60 + 31, "MALE")
  {
    HourFields();
    HourTexts();
    ParseTimeOfDigits("10", "00");
    ParseTimeOfDigits("11", "00");
    OpenSessionWindow(s, 600, 660, 9 * 60 + 40, "MALE");
    OpenSessionWindow(s, 600, 660, 11 * 60 + 30, "MALE");
    OpenSessionWindow(s, 600, 660, 9 * 60 + 39, "MALE");
    OpenSessionWindow(s, 600, 660, 11 * 60 + 31, "MALE");
  }

  /** One step of the scan: the first session is returned when it passes the
      window test and is not reserved for another category, and the search
      goes on with the rest otherwise. */
  lemma ScanStep(rest: seq<Session>, nowMinutes: int, userType: string)
    requires rest != []
    ensures var s := rest[0];
      var start := ParseTime(s.startTime);
      var end := ParseTime(s.endTime);
      FirstMatch(rest, nowMinutes, userType) ==
        if && start.Some? && end.Some?
           && nowMinutes >= start.value - EarlyGraceMinutes && nowMinutes <= end.value + LateGraceMinutes
           && !(s.category.Some? && s.category.value != "" && ToUpper(s.category.value) != ToUpper(userType))
        then Some(s)
        else FirstMatch(rest[1..], nowMinutes, userType)
  {
  }

  /** `findMatchingSession`: scans the day's sessions in order, skipping those
      outside their window or reserved for another category, and returns the
      first remaining one. */
  method FindMatchingSession(sessionsToday: seq<Session>, nowDate: int, userType: string)
    returns (matched: Option<Session>)
    ensures matched == FirstMatch(sessionsToday, NowMinutes(nowDate), userType)
  {
    var nowMinutes := HourFromTime(nowDate) * 60 + MinFromTime(nowDate);
    assert nowMinutes == NowMinutes(nowDate);
    var i := 0;
    while i < |sessionsToday|
      invariant 0 <= i <= |sessionsToday|
      invariant FirstMatch(sessionsToday, nowMinutes, userType) == FirstMatch(sessionsToday[i..], nowMinutes, userType)
    {
      var session := sessionsToday[i];
      assert sessionsToday[i..][1..] == sessionsToday[i + 1..];
      ScanStep(sessionsToday[i..], nowMinutes, userType);
      var start := ParseTime(session.startTime);
      var end := ParseTime(session.endTime);
      if start.Some? && end.Some?
        && nowMinutes >= start.value - EarlyGraceMinutes && nowMinutes <= end.value + LateGraceMinutes
      {
        if session.category.Some? && session.category.value != ""
          && ToUpper(session.category.value) != ToUpper(userType)
        {
          i := i + 1;
          continue;
        }
        return Some(session);
      }
      i := i + 1;
    }
    assert sessionsToday[i..] == [];
    return None;
  }
}
