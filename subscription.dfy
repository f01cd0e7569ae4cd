/** `parseDatePaiement` and `isSubscriptionValid` (index.js): when a member's
    paid period ends, and whether it is still running. All instants here are
    local wall-clock time values of the server's zone. */
module Subscription {
  import opened Wrappers
  import opened Js
  import opened Chrono

  /** The plan that runs for three calendar months. */
  const Quarterly := "Trimestriel"
  /** The plan that runs for one calendar year. */
  const Yearly := "Annuel"

  /** What `parseDatePaiement` yields: it throws a TypeError when there is no
      string or no space in it, gives an Invalid Date when a field is not a
      number, and otherwise a local time value. */
  datatype PaymentDate = Throws | InvalidDate | Local(t: int)

  /** The `i`-th destructured field passed through `Number`; a missing field is
      `undefined`, which is NaN. */
  function Field(parts: seq<string>, i: nat): Option<nat> {
    if i < |parts| then ToNumber(parts[i]) else None
  }

  /** The `Date` constructor maps years 0 to 99 to 1900 to 1999. */
  function FullYear(year: int): (y: int)
    ensures 0 <= year <= 99 ==> y == 1900 + year
    ensures !(0 <= year <= 99) ==> y == year
  {
    if 0 <= year <= 99 then 1900 + year else year
  }

  /** `new Date(year, month - 1, day, hours, minutes, seconds)` from the
      destructured fields: an Invalid Date as soon as one is NaN. */
  function BuildDate(dateFields: seq<string>, timeFields: seq<string>): PaymentDate {
    var day, month, year := Field(dateFields, 0), Field(dateFields, 1), Field(dateFields, 2);
    var hours, minutes, seconds := Field(timeFields, 0), Field(timeFields, 1), Field(timeFields, 2);
    if day.None? || month.None? || year.None? || hours.None? || minutes.None? || seconds.None? then
      InvalidDate
    else
      Local(MakeDate(MakeDay(FullYear(year.value), month.value - 1, day.value),
                     MakeTime(hours.value, minutes.value, seconds.value)))
  }

  /** `parseDatePaiement("DD/MM/YYYY HH:MM:SS")`: split on the space, then the
      first piece on '/' and the second on ':'. */
  function ParsePaymentDate(str: Option<string>): PaymentDate
  {
    if str.None? then Throws
    else
      var halves := Split(str.value, ' ');
      if |halves| < 2 then Throws
      else BuildDate(Split(halves[0], '/'), Split(halves[1], ':'))
  }

  /** `parseDatePaiement` throws exactly when there is no string, or no space
      in it (`timePart` is then `undefined`). */
  lemma ParseThrowsIff(str: Option<string>)
    ensures ParsePaymentDate(str).Throws? <==> str.None? || ' ' !in str.value
  {
    if str.Some? {
      SplitSingle(str.value, ' ');
    }
  }

  /** The stored text of a payment instant, `DD/MM/YYYY HH:MM:SS`. */
  function PaymentDateText(dd: string, mm: string, yyyy: string, hh: string, mi: string, ss: string): string {
    (dd + ['/'] + mm + ['/'] + yyyy) + [' '] + (hh + [':'] + mi + [':'] + ss)
  }

  lemma DigitsHaveNoSeparator(s: string)
    requires AllDigits(s)
    ensures ' ' !in s && '/' !in s && ':' !in s
  {
  }

  /** Six numeric fields make the local instant they name. */
  lemma BuildOfNumbers(dd: string, mm: string, yyyy: string, hh: string, mi: string, ss: string,
                       day: nat, month: nat, year: nat, hours: nat, minutes: nat, seconds: nat)
    requires ToNumber(dd) == Some(day) && ToNumber(mm) == Some(month) && ToNumber(yyyy) == Some(year)
    requires ToNumber(hh) == Some(hours) && ToNumber(mi) == Some(minutes) && ToNumber(ss) == Some(seconds)
    ensures BuildDate([dd, mm, yyyy], [hh, mi, ss])
      == Local(MakeDate(MakeDay(FullYear(year), month - 1, day), MakeTime(hours, minutes, seconds)))
  {
    assert Field([dd, mm, yyyy], 0) == Some(day);
    assert Field([dd, mm, yyyy], 1) == Some(month);
    assert Field([dd, mm, yyyy], 2) == Some(year);
    assert Field([hh, mi, ss], 0) == Some(hours);
    assert Field([hh, mi, ss], 1) == Some(minutes);
    assert Field([hh, mi, ss], 2) == Some(seconds);
  }

  /** Parsing a string whose pieces are already known. */
  lemma ParseOfPieces(str: string, datePart: string, timePart: string, dateFields: seq<string>, timeFields: seq<string>)
    requires Split(str, ' ') == [datePart, timePart]
    requires Split(datePart, '/') == dateFields && Split(timePart, ':') == timeFields
    ensures ParsePaymentDate(Some(str)) == BuildDate(dateFields, timeFields)
  {
  }

  /** The text of six digit fields splits back into them. */
  lemma ParseTextPieces(dd: string, mm: string, yyyy: string, hh: string, mi: string, ss: string)
    requires AllDigits(dd) && AllDigits(mm) && AllDigits(yyyy)
    requires AllDigits(hh) && AllDigits(mi) && AllDigits(ss)
    ensures ParsePaymentDate(Some(PaymentDateText(dd, mm, yyyy, hh, mi, ss)))
      == BuildDate([dd, mm, yyyy], [hh, mi, ss])
  {
    DigitsHaveNoSeparator(dd);
    DigitsHaveNoSeparator(mm);
    DigitsHaveNoSeparator(yyyy);
    DigitsHaveNoSeparator(hh);
    DigitsHaveNoSeparator(mi);
    DigitsHaveNoSeparator(ss);
    var datePart := dd + ['/'] + mm + ['/'] + yyyy;
    var timePart := hh + [':'] + mi + [':'] + ss;
    assert ' ' !in datePart && ' ' !in timePart;
    SplitTwo(datePart, timePart, ' ');
    SplitThree(dd, mm, yyyy, '/');
    SplitThree(hh, mi, ss, ':');
    ParseOfPieces(PaymentDateText(dd, mm, yyyy, hh, mi, ss), datePart, timePart, [dd, mm, yyyy], [hh, mi, ss]);
  }

  /** Parsing the text of six numeric fields yields the local instant they name,
      with the month counted from 1. */
  lemma ParseOfText(dd: string, mm: string, yyyy: string, hh: string, mi: string, ss: string,
                    day: nat, month: nat, year: nat, hours: nat, minutes: nat, seconds: nat)
    requires ToNumber(dd) == Some(day) && ToNumber(mm) == Some(month) && ToNumber(yyyy) == Some(year)
    requires ToNumber(hh) == Some(hours) && ToNumber(mi) == Some(minutes) && ToNumber(ss) == Some(seconds)
    ensures ParsePaymentDate(Some(PaymentDateText(dd, mm, yyyy, hh, mi, ss)))
      == Local(MakeDate(MakeDay(FullYear(year), month - 1, day), MakeTime(hours, minutes, seconds)))
  {
    ParseTextPieces(dd, mm, yyyy, hh, mi, ss);
    BuildOfNumbers(dd, mm, yyyy, hh, mi, ss, day, month, year, hours, minutes, seconds);
  }

  /** A payment instant written without seconds is an Invalid Date. */
  lemma ParseWithoutSeconds(dd: string, mm: string, yyyy: string, hh: string, mi: string)
    requires AllDigits(dd) && AllDigits(mm) && AllDigits(yyyy) && AllDigits(hh) && AllDigits(mi)
    ensures ParsePaymentDate(Some((dd + ['/'] + mm + ['/'] + yyyy) + [' '] + (hh + [':'] + mi)))
      == InvalidDate
  {
    DigitsHaveNoSeparator(dd);
    DigitsHaveNoSeparator(mm);
    DigitsHaveNoSeparator(yyyy);
    DigitsHaveNoSeparator(hh);
    DigitsHaveNoSeparator(mi);
    var datePart := dd + ['/'] + mm + ['/'] + yyyy;
    var timePart := hh + [':'] + mi;
    assert ' ' !in datePart && ' ' !in timePart;
    SplitTwo(datePart, timePart, ' ');
    SplitThree(dd, mm, yyyy, '/');
    SplitTwo(hh, mi, ':');
    ParseOfPieces((dd + ['/'] + mm + ['/'] + yyyy) + [' '] + (hh + [':'] + mi), datePart, timePart, [dd, mm, yyyy], [hh, mi]);
  }

  /** The end of the paid period: `setMonth(getMonth() + 3)` for the
      quarterly plan, `setFullYear(getFullYear() + 1)` for the yearly plan,
      and the payment instant itself for any other (or no) plan. */
  function Expiry(plan: Option<string>, paidAt: int): int {
    if plan == Some(Quarterly) then SetMonth(paidAt, MonthFromTime(paidAt) + 3)
    else if plan == Some(Yearly) then SetFullYear(paidAt, YearFromTime(paidAt) + 1)
    else paidAt
  }

  /** The paid period lasts three calendar months, 89 to 92 days, for the
      quarterly plan and one calendar year, 365 or 366 days, for the yearly
      plan, ending at the time of day it started; any other plan ends at
      once. */
  lemma ExpiryBounds(plan: Option<string>, paidAt: int)
    ensures plan == Some(Quarterly) ==>
      89 * MsPerDay <= Expiry(plan, paidAt) - paidAt <= 92 * MsPerDay
      && TimeWithinDay(Expiry(plan, paidAt)) == TimeWithinDay(paidAt)
    ensures plan == Some(Yearly) ==>
      365 * MsPerDay <= Expiry(plan, paidAt) - paidAt <= 366 * MsPerDay
      && TimeWithinDay(Expiry(plan, paidAt)) == TimeWithinDay(paidAt)
    ensures plan != Some(Quarterly) && plan != Some(Yearly) ==> Expiry(plan, paidAt) == paidAt
  {
    if plan == Some(Quarterly) {
      AddThreeMonths(paidAt);
    } else if plan == Some(Yearly) {
      AddOneYear(paidAt);
    }
  }

  /** What `isSubscriptionValid` does: throw (from `parseDatePaiement`), or
      answer. */
  datatype Validity = ThrowsTypeError | Checked(valid: bool)

  /** The answer of `isSubscriptionValid(plan, paymentDate)` at local time `now`:
      `now < expiry`, which is false for an Invalid Date. */
  function SubscriptionValidity(plan: Option<string>, paymentDate: Option<string>, now: int): Validity {
    match ParsePaymentDate(paymentDate)
    case Throws => ThrowsTypeError
    case InvalidDate => Checked(false)
    case Local(t) => Checked(now < Expiry(plan, t))
  }

  /** `isSubscriptionValid`: parse the payment instant, move it forward in place
      according to the plan, and compare. */
  method IsSubscriptionValid(plan: Option<string>, paymentDate: Option<string>, now: int)
    returns (validity: Validity)
    ensures validity == SubscriptionValidity(plan, paymentDate, now)
  {
    var parsed := ParsePaymentDate(paymentDate);
    if parsed.Throws? {
      return ThrowsTypeError;
    }
    if parsed.InvalidDate? {
      // every setter keeps an Invalid Date invalid, and `now < NaN` is false
      return Checked(false);
    }
    var payedAt := parsed.t;
    if plan == Some(Quarterly) {
      payedAt := SetMonth(payedAt, MonthFromTime(payedAt) + 3);
    } else if plan == Some(Yearly) {
      payedAt := SetFullYear(payedAt, YearFromTime(payedAt) + 1);
    }
    return Checked(now < payedAt);
  }

  /** A subscription valid at some instant was valid at every earlier one,
      and one invalid at some instant stays invalid afterwards. */
  lemma ValidityIsMonotone(plan: Option<string>, paymentDate: Option<string>, earlier: int, later: int)
    requires earlier <= later
    ensures SubscriptionValidity(plan, paymentDate, later) == Checked(true) ==>
      SubscriptionValidity(plan, paymentDate, earlier) == Checked(true)
    ensures SubscriptionValidity(plan, paymentDate, earlier) == Checked(false) ==>
      SubscriptionValidity(plan, paymentDate, later) == Checked(false)
  {
  }

  /** Whatever the plan, a subscription is valid up to the payment instant
      and, for the quarterly and yearly plans, for at least 89 and 365 days
      after it, at most 92 and 366. */
  lemma ValidWindow(plan: Option<string>, paymentDate: Option<string>, t: int, now: int)
    requires ParsePaymentDate(paymentDate) == Local(t)
    ensures now < t ==> SubscriptionValidity(plan, paymentDate, now) == Checked(true)
    ensures plan == Some(Quarterly) && now < t + 89 * MsPerDay ==>
      SubscriptionValidity(plan, paymentDate, now) == Checked(true)
    ensures plan == Some(Quarterly) && now >= t + 92 * MsPerDay ==>
      SubscriptionValidity(plan, paymentDate, now) == Checked(false)
    ensures plan == Some(Yearly) && now < t + 365 * MsPerDay ==>
      SubscriptionValidity(plan, paymentDate, now) == Checked(true)
    ensures plan == Some(Yearly) && now >= t + 366 * MsPerDay ==>
      SubscriptionValidity(plan, paymentDate, now) == Checked(false)
    ensures plan != Some(Quarterly) && plan != Some(Yearly) ==>
      SubscriptionValidity(plan, paymentDate, now) == Checked(now < t)
  {
    ExpiryBounds(plan, t);
  }

  /** The numeric fields that the 2024 examples are written with. */
  lemma NewYearFields()
    ensures ToNumber("00") == Some(0)
    ensures ToNumber("01") == Some(1)
    ensures ToNumber("10") == Some(10)
    ensures ToNumber("2024") == Some(2024)
  {
    assert DigitsValue("0") == 0;
    assert DigitsValue("1") == 1;
    assert DigitsValue("01") == 1 by { assert "01"[..1] == "0"; }
    assert DigitsValue("00") == 0 by { assert "00"[..1] == "0"; }
    assert DigitsValue("10") == 10 by { assert "10"[..1] == "1"; }
    assert DigitsValue("20") == 20 by { assert "20"[..1] == "2"; }
    assert DigitsValue("202") == 202 by { assert "202"[..2] == "20"; }
    assert DigitsValue("2024") == 2024 by { assert "2024"[..3] == "202"; }
  }

  lemma NewYearMorningText()
    ensures PaymentDateText("01", "01", "2024", "10", "00", "00") == "01/01/2024 10:00:00"
  {
  }

  /** "01/01/2024 10:00:00" is 10:00 on 2024-01-01. */
  lemma ParseNewYear2024(date: Option<string>)
    requires date == Some("01/01/2024 10:00:00")
    ensures ParsePaymentDate(date) == Local(MakeDate(DayOf(Civil(2024, 0, 1)), MakeTime(10, 0, 0)))
  {
    NewYearFields();
    NewYearMorningText();
    ParseOfText("01", "01", "2024", "10", "00", "00", 1, 1, 2024, 10, 0, 0);
  }

  /** Day numbers of the dates the quarterly example refers to. */
  lemma DaysOf2024()
    ensures DayOf(Civil(2024, 0, 1)) == 19723
    ensures DayOf(Civil(2024, 2, 31)) == 19813
    ensures DayOf(Civil(2024, 3, 1)) == 19814
    ensures DayOf(Civil(2024, 3, 2)) == 19815
  {
    DaysBefore2024();
    assert DaysBeforeMonth(2024, 2) == 60;
    assert DaysBeforeMonth(2024, 3) == 91;
  }

  lemma OnNewYear2024(t: int)
    requires Day(t) == 19723
    ensures CivilFromDays(Day(t)) == Civil(2024, 0, 1)
  {
    DaysOf2024();
    CivilFromDayIs(Civil(2024, 0, 1), Day(t));
  }

  lemma OnAprilFirst2024(t: int)
    requires CivilFromDays(Day(t)) == Civil(2024, 3, 1)
    ensures Day(t) == 19814
  {
    DaysOf2024();
    assert Day(t) == DayOf(CivilFromDays(Day(t)));
  }

  /** An instant on the first of January moves to the same time of day on the
      first of April of the same year. */
  lemma JanuaryPlusQuarter(t: int, year: int)
    requires CivilFromDays(Day(t)) == Civil(year, 0, 1)
    ensures CivilFromDays(Day(SetMonth(t, MonthFromTime(t) + 3))) == Civil(year, 3, 1)
    ensures TimeWithinDay(SetMonth(t, MonthFromTime(t) + 3)) == TimeWithinDay(t)
  {
    var c := CivilFromDays(Day(t));
    assert DaysInMonth(year, 3) == 30;
    ThreeMonthsTarget(t, c);
    ThreeMonthsShift(t);
  }

  /** Three months after 10:00 on 2024-01-01 is 10:00 on 2024-04-01. */
  lemma QuarterAfterNewYear2024(t: int)
    requires Day(t) == 19723 && TimeWithinDay(t) == 36000000
    ensures Expiry(Some(Quarterly), t) == 19814 * MsPerDay + 36000000
  {
    OnNewYear2024(t);
    JanuaryPlusQuarter(t, 2024);
    var expiry := SetMonth(t, MonthFromTime(t) + 3);
    OnAprilFirst2024(expiry);
    assert expiry == Day(expiry) * MsPerDay + TimeWithinDay(expiry);
  }

  /** The quarterly plan paid at `t`, 10:00 on 2024-01-01, is checked against
      `now` as `now < ` 10:00 on 2024-04-01. */
  lemma QuarterlyAgainst(date: Option<string>, t: int, now: int)
    requires date == Some("01/01/2024 10:00:00")
    requires t == MakeDate(DayOf(Civil(2024, 0, 1)), MakeTime(10, 0, 0))
    ensures SubscriptionValidity(Some(Quarterly), date, now) == Checked(now < 19814 * MsPerDay + 36000000)
  {
    ParseNewYear2024(date);
    DaysOf2024();
    assert t == 19723 * MsPerDay + 36000000;
    QuarterAfterNewYear2024(t);
  }

  /** A quarterly subscription paid at 10:00 on 2024-01-01 runs until 10:00 on
      2024-04-01: it is valid all through 2024-03-31 and invalid all through
      2024-04-02. */
  lemma QuarterlyExample(now: int)
    ensures Day(now) == DayOf(Civil(2024, 2, 31)) ==>
      SubscriptionValidity(Some(Quarterly), Some("01/01/2024 10:00:00"), now) == Checked(true)
    ensures Day(now) == DayOf(Civil(2024, 3, 2)) ==>
      SubscriptionValidity(Some(Quarterly), Some("01/01/2024 10:00:00"), now) == Checked(false)
  {
    QuarterlyAgainst(Some("01/01/2024 10:00:00"), MakeDate(DayOf(Civil(2024, 0, 1)), MakeTime(10, 0, 0)), now);
    DaysOf2024();
  }
}
