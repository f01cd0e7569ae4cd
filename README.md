# Club check-in back end: a Dafny model

This project models the decision logic of a martial-arts club's back end. Members
check in by showing a short-lived QR token. The server decides whether the scan
counts and, if so, appends one record to the member's check-in log. Staff edit the
weekly schedule of each category (`kids`, `female`, `male`) through three routes.

The model covers:

- **Members** (`members.dfy`): `calculerAge`, proved against a definition of age in
  whole years. It also covers the category stored at creation: `KIDS` under 13
  whatever the sex, otherwise `FEMALE` when the sex starts with `f`/`F`, else `MALE`.
- **Session matching** (`matcher.dfy`): `parseTime` on the `HHhMM` form, with
  missing minutes counted as 0. `findMatchingSession` is a loop that returns the
  first session, in list order, whose window widened by 20 minutes before and 30
  after holds the current minute, and whose `type` is absent, empty, or equal
  to the member's category up to case.
- **Subscription** (`subscription.dfy`):
  - `parseDatePaiement` on `DD/MM/YYYY HH:MM:SS`, with `Number` and the local-time
    `Date` constructor (`chrono.dfy` holds the ECMAScript day/month/year arithmetic).
  - `isSubscriptionValid`: the payment instant moved forward in place by
    `setMonth(+3)` for `Trimestriel` or `setFullYear(+1)` for `Annuel`, then
    `now < expiry`.
- **QR token expiry** (`qr_token.dfy`): `exp = floor(now/1000) + 300`, refused from
  `now >= exp*1000` on.
- **`/scan-checkin`** (`scanner.dfy`): the gates in source order, as a function
  `Decide` plus a `Backend` class whose `checkins` field the handler extends. The
  gates are token, expiry, member, category, calendar document, open session,
  discipline, subscription and the two-hour duplicate window, then the single
  append. `scanner_properties.dfy` proves which reply each gate gives (as
  if-and-only-if lemmas), that a refusal writes nothing, and that no second check-in
  is recorded within two hours. `scanner_scenarios.dfy` walks a boxing member
  through a Monday evening.
- **Schedule editing** (`calendar_routes.dfy`, `calendar_properties.dfy`): the
  in-memory rewrites of `/delete`, `/add` and `/update` on a `map<string,
  seq<Session>>`. The `matchFound` flag is raised inside the filter/map loops, and
  nothing is written without a match. `CalendarStore` holds the `Calendars`
  collection and its methods rewrite it.

Behaviour of the code that the model keeps as written:

- `userData.disciplines?.[matchedSession.name]` (index.js:593) is a property read on
  a plain object, so it also finds what the object inherits from `Object.prototype`.
  A session named "constructor", "toString" or another inherited name passes the
  discipline gate for any member whose `disciplines` exists and holds no such key
  (`ScannerProperties.InheritedNamePassesDiscipline`).
- `discipline === false` (index.js:597-599) can never be reached: `!discipline`
  already holds for `false`, so a false flag gets "Discipline non souscrite"
  (`ScannerProperties.FalseFlagIsNotSubscribed`). No reply models the unreachable
  branch.
- Anything thrown inside the `try` of `/scan-checkin` answers 400 "QR invalide ou
  expiré". Two such throws are modelled:
  - a token `jwt.verify` rejects;
  - a payment date that is missing or has no space, which `parseDatePaiement`
    cannot destructure.
- `isSubscriptionValid` reads the server clock. The day, the session window and
  the two-hour window use the client's `currentTime` when it is sent and non-zero.
- The 403 reply for "no session" concatenates `null` in front of its message.
- In `/add`:
  - A found key `""` counts as not found, because it is falsy.
  - A key that does not parse as an integer makes the new key `"NaN"`.
  - `schedule["NaN"] = []` then replaces whatever list was already kept under
    `"NaN"` (`CalendarProperties.AddReplacesNaNList`).
  - With only numeric keys, the new key is always fresh
    (`CalendarProperties.NewDayKeyIsFresh`).

## Model

| member | source | states |
|---|---|---|
| Members.AgeOn | index.js:31-42 | the computed age is reached on `today` and the next anniversary is not: exactly the whole years elapsed |
| Members.AgeIsUnique | index.js:31-42 | at most one number of whole years fits a birth date and a date |
| Members.AgeExamples | index.js:31-42 | on 2024-06-15, born 2010-06-16 is 13 and born 2010-06-15 is 14 |
| Members.UpperStartsWithF | index.js:149 | the upper-cased sex starts with "F" iff it starts with 'f' or 'F' |
| Members.UserCategory | index.js:138-151 | under 13 gives KIDS whatever the sex; otherwise FEMALE iff the sex starts with f/F, else MALE |
| Js.ToNumber | index.js:46 | `Number` yields a number iff the text is all digits ("" gives 0) |
| Js.SplitPieces | index.js:46 | `split` pieces hold no separator, join back into the text, and there is one piece iff the separator is absent |
| Js.ParseIntOfString | routes/calendar.js:82-84 | `parseInt` reads back the integer `String` writes |
| Js.NatToStringDigits | routes/calendar.js:84 | `String(n)` of a natural number is a non-empty run of digits whose value is n |
| Matcher.ParseTime | index.js:44-47 | the model of `parseTime`: hours times 60 plus the minutes, with missing or non-numeric minutes read as 0 and non-numeric hours giving NaN (None); `SplitHoursMinutes`, `ParseTimeOfParts`, `ParseTimeOfDigits` and `ParseHoursOfDigits` state its values. It has no contract of its own |
| Matcher.NowMinutes | index.js:50 | the model of `nowDate.getHours() * 60 + nowDate.getMinutes()` on the local time value; `Chrono.ClockOf` and `ScannerScenarios.MondayEvening` state its value. It has no contract of its own |
| Matcher.SplitHoursMinutes | index.js:46 | "H" + "h" + "M" splits into exactly H and M when both are digits |
| Matcher.ParseTimeOfParts | index.js:45-48 | a time whose split is [H, M] parses to H*60+M |
| Matcher.ParseTimeOfDigits | index.js:45-48 | `parseTime("HHhMM")` is HH*60+MM |
| Matcher.ParseHoursOfDigits | index.js:45-48 | a time without minutes counts them as 0 |
| Matcher.FirstMatchIsFirst | index.js:52-70 | no match iff no session qualifies; a match is a qualifying session every earlier session of which fails the window or type test |
| Matcher.FirstQualifyingIsMatched | index.js:52-70 | the first qualifying session in list order is the one returned |
| Matcher.MatchedSessionIsOpen | index.js:53-66 | a returned session has start-20 <= now <= end+30 and a type that is absent, empty, or the member's up to case |
| Matcher.FirstOfTwoWins | index.js:52-66 | of two qualifying sessions the earlier one wins |
| Matcher.ToleranceBoundaries | index.js:53-57 | 10h00-11h00 admits 09:40 and 11:30, not 09:39 or 11:31 |
| Matcher.OpenSessionWindow | index.js:53-57 | a session without a type qualifies iff start-20 <= now <= end+30 |
| Matcher.ScanStep | index.js:52-67 | one pass of the loop: the first session is returned iff its widened window holds the minute and its type is absent, empty or the member's; otherwise the search goes on with the rest |
| Matcher.FindMatchingSession | index.js:44-71 | the loop returns the first qualifying session for the wall-clock minute of `nowDate`, or none |
| Chrono.SetMonth | index.js:86 | the model of ECMAScript `setMonth`: same year, date of the month and time of day, rolling over when that date does not exist; `Chrono.AddThreeMonths` states what `setMonth(getMonth()+3)` does. It has no contract of its own |
| Chrono.SetFullYear | index.js:88 | the model of ECMAScript `setFullYear`: same month, date of the month and time of day; `Chrono.AddOneYear` states what `setFullYear(getFullYear()+1)` does. It has no contract of its own |
| Chrono.AddThreeMonths | index.js:86 | `setMonth(getMonth()+3)` moves 89 to 92 days ahead, keeps the time of day, and lands on the same date three months on when that date exists |
| Chrono.AddOneYear | index.js:88 | `setFullYear(getFullYear()+1)` moves 365 or 366 days ahead, keeps the time of day, and lands on the same date next year when it exists |
| Chrono.ClockOf | index.js:50 | `getHours()` and `getMinutes()` of hh:mm on a day are hh and mm, on that day |
| Subscription.FullYear | index.js:78 | the `Date` constructor reads years 0 to 99 as 1900 to 1999 |
| Subscription.ParsePaymentDate | index.js:73-79 | the model of `parseDatePaiement`: split on the space, then on "/" and ":", then the local-time `Date` constructor; a missing time part throws, and a non-numeric field gives an Invalid Date. `ParseThrowsIff`, `ParseOfPieces`, `ParseOfText` and `ParseWithoutSeconds` state its results. It has no contract of its own |
| Subscription.ParseThrowsIff | index.js:73-76 | `parseDatePaiement` throws iff the date is missing or holds no space |
| Subscription.BuildOfNumbers | index.js:75-78 | six numeric fields build the local instant they name, the month counted from 1 |
| Subscription.ParseOfPieces | index.js:73-78 | the parse is the `Date` built from the '/' fields of the date part and the ':' fields of the time part |
| Subscription.ParseTextPieces | index.js:74-76 | a `DD/MM/YYYY HH:MM:SS` text of digit fields splits back into its six fields |
| Subscription.ParseOfText | index.js:73-79 | the `DD/MM/YYYY HH:MM:SS` text of six numeric fields parses to the local instant they name |
| Subscription.ParseWithoutSeconds | index.js:76-78 | a payment time without seconds is an Invalid Date |
| Subscription.Expiry | index.js:85-89 | the model of the in-place plan update: `setMonth(+3)` for Trimestriel, `setFullYear(+1)` for Annuel, the payment instant itself otherwise; `ExpiryBounds` states its bounds. It has no contract of its own |
| Subscription.ExpiryBounds | index.js:85-89 | Trimestriel adds 89 to 92 days and Annuel 365 or 366, both keeping the time of day; any other plan adds nothing |
| Subscription.SubscriptionValidity | index.js:81-91 | the model of `isSubscriptionValid`'s answer: a throw from the parse, false for an Invalid Date, else `now < expiry`; `IsSubscriptionValid`, `ValidityIsMonotone`, `ValidWindow` and `QuarterlyExample` state its properties. It has no contract of its own |
| Subscription.IsSubscriptionValid | index.js:81-91 | the in-place update of the payment instant gives the reply `SubscriptionValidity` defines: throw, or `now < expiry` (false for an Invalid Date) |
| Subscription.ValidityIsMonotone | index.js:90 | valid at some time implies valid earlier; invalid implies invalid later |
| Subscription.ValidWindow | index.js:81-91 | valid before the payment; Trimestriel valid for 89 days and invalid from 92; Annuel valid for 365 days and invalid from 366; any other plan valid only before the payment instant |
| Subscription.ParseNewYear2024 | index.js:73-79 | "01/01/2024 10:00:00" is 10:00 on 2024-01-01 |
| Subscription.JanuaryPlusQuarter | index.js:86 | three months after a time on the first of January is the same time on the first of April of that year |
| Subscription.QuarterAfterNewYear2024 | index.js:85-86 | the quarterly expiry of 10:00 on 2024-01-01 is 10:00 on 2024-04-01 |
| Subscription.QuarterlyAgainst | index.js:81-91 | Trimestriel paid "01/01/2024 10:00:00" is checked as `now <` 10:00 on 2024-04-01 |
| Subscription.QuarterlyExample | index.js:81-91 | Trimestriel paid "01/01/2024 10:00:00" is valid on 2024-03-31 and invalid on 2024-04-02 |
| QrToken.IssueExpiry | index.js:460-466 | `exp*1000` lies within the second that ends 300 s after issue |
| QrToken.ExpiryWindow | index.js:553-555 | a scan up to 299 s after issue is accepted and one from 300 s on is refused |
| QrToken.SixMinutesLate | index.js:553-555 | a scan six minutes after issue is refused |
| QrToken.ExpiredStaysExpired | index.js:553 | once refused, a token stays refused |
| Scanner.EffectiveTime | index.js:575-579 | the model of `currentTime`, falling back to `Date.now()`: the client's instant unless it is missing or 0. The scanner properties use it as the instant of the day, minute and two-hour gates. It has no contract of its own |
| Scanner.Decide | index.js:545-624 | the model of the reply of `/scan-checkin`: the token, expiry and member gates, then `DecideForUser`; `ScannerProperties.TokenAndLookupGates` and `RecordedIff` state its replies. It has no contract of its own |
| Scanner.DecideForUser | index.js:564-590 | the model of the category, calendar and open-session gates, then `DecideForSession`; `ScannerProperties.CategoryGates` and `MemberRecordedIff` state its replies. It has no contract of its own |
| Scanner.DecideForSession | index.js:592-624 | the model of the discipline gate (an own flag, else an inherited `Object.prototype` property), the subscription and two-hour gates, and the recorded outcome; `ScannerProperties.SessionGates` states its replies. It has no contract of its own |
| Scanner.Backend.ScanCheckin | index.js:542-629 | the reply is `Decide` of the stored state, and the logs become `AfterScan`: one record appended only when recorded |
| Scanner.Backend.ScanMember | index.js:564-590 | from the category on, the reply is `DecideForUser` and only a recorded reply writes |
| Scanner.Backend.ScanSession | index.js:592-624 | from the discipline on, the reply is `DecideForSession` and only a recorded reply appends |
| ScannerProperties.LaterGatesReplyOtherwise | index.js:557-624 | no gate after the member lookup gives a token or lookup reply |
| ScannerProperties.TokenAndLookupGates | index.js:545-561 | the missing-token 400 iff no token is sent; 401 iff the token decodes and `now >= exp*1000`; 404 iff it decodes, is not expired and names an unknown uid; the catch block's 400 iff `jwt.verify` throws or a found member's later gates throw |
| ScannerProperties.TokenRefusalIgnoresStore | index.js:545-555 | a token refusal does not depend on the members, calendars or logs |
| ScannerProperties.LowerIsEmptyIff | index.js:564-566 | the lower-cased category is empty iff the category is |
| ScannerProperties.SessionGatesReplyOtherwise | index.js:592-615 | no session gate gives a category reply |
| ScannerProperties.CategoryGates | index.js:564-590 | 400 iff there is no or an empty `type`; 404 iff there is no calendar document; 403 iff no session of the day qualifies (an absent day is an empty list) |
| ScannerProperties.SessionGates | index.js:592-615 | 403 iff the discipline is not truthy; the catch block's 400 iff it is and `parseDatePaiement` throws; 403 iff the subscription is invalid; 409 iff some check-in is after now-2h; recorded for the matched session otherwise |
| ScannerProperties.InheritedNamePassesDiscipline | index.js:593-596 | a session name that `disciplines` does not hold passes `!discipline` iff it names a property inherited from `Object.prototype`, such as "constructor" |
| ScannerProperties.FalseFlagIsNotSubscribed | index.js:593-599 | a `false` discipline flag gets "Discipline non souscrite" |
| ScannerProperties.MemberRecordedIff | index.js:564-624 | for a found member, recorded for `name` iff every later gate passes and the first qualifying session is named `name` |
| ScannerProperties.RecordedIff | index.js:545-624 | recorded iff every gate passes in order, at the client's time when it sent one |
| ScannerProperties.RecordedLogIsQuiet | index.js:604-615 | a recorded scan comes from a decoded token, and every earlier check-in of the member is stamped at or before now-2h |
| ScannerProperties.RecordedSessionIsOpen | index.js:578-590 | the recorded session is in the day's list, with its widened window holding the minute and its type admitting the member |
| ScannerProperties.SingleAppend | index.js:617-622 | a recorded scan appends exactly one `{date, scannedAt, sessionType}` at the end of the member's log; every other log, and every log after a refusal, stays |
| ScannerProperties.NoSecondCheckinWithinTwoHours | index.js:604-622 | after a recorded check-in committed at T, no scan of the same member before T+2h is recorded |
| ScannerProperties.InvalidQrIff | index.js:549-628 | the catch block's 400 iff `jwt.verify` throws, or every gate up to the discipline passes and `parseDatePaiement` throws on the payment date |
| ScannerProperties.ScanStatusCodes | index.js:545-628 | every reply is 200, 400, 401, 403, 404 or 409; 401 only from the expiry gate, 409 only from the two-hour window, 200 only for a recorded check-in |
| ScannerProperties.LateScanIsExpired | index.js:553-555 | a token scanned six minutes after issue gets 401 whatever is stored |
| ScannerScenarios.StartsAtSix | index.js:45-48 | "18h00" parses to 1080 |
| ScannerScenarios.EndsAtHalfPastSeven | index.js:45-48 | "19h30" parses to 1170 |
| ScannerScenarios.BoxingWindow | index.js:53-57 | the 18h00-19h30 session admits 17:40 to 20:00 inclusive |
| ScannerScenarios.MondayEvening | index.js:575-579 | 2024-01-08 is day "1" of the week, and its wall-clock minute is hour*60+minute |
| ScannerScenarios.NewYearMidnight | index.js:73-79 | "01/01/2024 00:00:00" is midnight on 2024-01-01 |
| ScannerScenarios.BoxerSubscriptionRuns | index.js:81-91 | the yearly plan paid on 2024-01-01 is valid through 2024 |
| ScannerScenarios.BoxerCalendarGates | index.js:569-590 | on a Monday the boxer reaches the session gates of the boxing session when it qualifies, and gets "no active session" otherwise |
| ScannerScenarios.BoxerSessionGates | index.js:592-624 | with a running subscription and an empty log, the scan is recorded iff the boxing flag is set |
| ScannerScenarios.BoxerOnMonday | index.js:564-624 | Monday 2024-01-08: recorded between 17:40 and 20:00 with the flag set, not subscribed without it, no session outside |
| ScannerScenarios.FreshTokenReachesMember | index.js:549-562 | a token expiring a minute on reaches the member gates |
| ScannerScenarios.RecordedAppendsFirst | index.js:617-622 | the first check-in of a member makes a one-record log |
| ScannerScenarios.MondayBoxingScan | index.js:542-629 | a boxer with a fresh token scanning at 18:05 on a Monday, with no earlier check-in, is recorded for "Boxe" and the log becomes that one record; with the flag false the reply is "not subscribed" |
| ScannerScenarios.LateBoxingScan | index.js:578-590 | the same boxer at 20:01 gets no active session |
| CalendarRoutes.Without | routes/calendar.js:40-47 | filtering never lengthens a list |
| CalendarRoutes.WithoutKeeps | routes/calendar.js:40-47 | the filter keeps exactly the non-matching sessions and shortens a list iff one matches |
| CalendarRoutes.WithoutConcat | routes/calendar.js:40-47 | filtering distributes over concatenation, so kept sessions stay in order |
| CalendarRoutes.WithoutNoMatch | routes/calendar.js:40-47 | a list with no matching session is kept as it is |
| CalendarRoutes.FirstDayIndex | routes/calendar.js:76-78 | `find` stops at the first key whose list is non-empty and opens with the day, or at the end |
| CalendarRoutes.MaxNumber | routes/calendar.js:83 | `Math.max` is NaN iff some argument is, otherwise an argument at least every other |
| CalendarRoutes.FilterSessions | routes/calendar.js:40-47 | the filter loop keeps the filtered list and raises the flag iff a session matched |
| CalendarRoutes.LocateDay | routes/calendar.js:76-86 | the target key is the first key whose list opens with the day when that key is not "", else the next numeric key, whose list is then installed empty |
| CalendarRoutes.MapSessions | routes/calendar.js:126-136 | the map loop merges every matching session, keeps the others, and raises the flag iff a session matched |
| CalendarRoutes.DeleteReply | routes/calendar.js:26-63 | the model of `/delete`'s reply and written collection; `CalendarProperties.DeleteRemovesExactly` and `DeleteTwiceNotFound` state them. It has no contract of its own |
| CalendarRoutes.NewDayKey | routes/calendar.js:82-84 | the model of the key `/add` creates: "0" with no keys, else `Math.max` of the parsed keys plus one as text, "NaN" when a key does not parse; `CalendarProperties.NewDayKeyValue`, `NewDayKeyIsFresh`, `NonNumericKeyGivesNaN` and `NewDayKeyNotEmpty` state its value. It has no contract of its own |
| CalendarRoutes.AddReply | routes/calendar.js:66-111 | the model of `/add`'s reply and written collection; `CalendarProperties.AddAppendsOrRefuses`, `AddTargetsFirstOpening` and `AddToNewKey` state them. It has no contract of its own |
| CalendarRoutes.Merge | routes/calendar.js:133 | the model of `{ ...session, ...updated }`: every field the patch carries overrides; `CalendarProperties.MergeEmptyPatch`, `MergeCombine` and `MergeIdempotent` state its algebra. It has no contract of its own |
| CalendarRoutes.UpdateReply | routes/calendar.js:115-147 | the model of `/update`'s reply and written collection; `CalendarProperties.UpdateMergesMatches` and `UpdateWithoutOriginal` state them. It has no contract of its own |
| CalendarRoutes.CalendarStore.Delete | routes/calendar.js:26-63 | the reply and the new collection are `DeleteReply` of the old collection |
| CalendarRoutes.CalendarStore.Add | routes/calendar.js:66-111 | the reply and the new collection are `AddReply` of the old collection |
| CalendarRoutes.CalendarStore.Update | routes/calendar.js:115-147 | the reply and the new collection are `UpdateReply` of the old collection |
| CalendarProperties.MissingDocumentNoWrite | routes/calendar.js:30-32 | without the category's document, all three routes reply 404 and write nothing |
| CalendarProperties.OnlySuccessWrites | routes/calendar.js:52-56 | a route writes only the category's document, and only on success |
| CalendarProperties.DeleteRemovesExactly | routes/calendar.js:38-56 | success iff some session matches; then each list keeps exactly its non-matching sessions and is shorter iff one matched; otherwise 404 with no write |
| CalendarProperties.DeleteTwiceNotFound | routes/calendar.js:38-54 | repeating a successful delete replies 404 |
| CalendarProperties.AddTargetsFirstOpening | routes/calendar.js:76-81 | the target is the first key, in key order, whose list opens with the day, when that key is not "" |
| CalendarProperties.NewDayKeyIsFresh | routes/calendar.js:81-86 | with only numeric keys, the created key is not a key yet |
| CalendarProperties.NewDayKeyValue | routes/calendar.js:82-84 | the created key is "0" for no keys, else one more than the largest numeric key |
| CalendarProperties.NonNumericKeyGivesNaN | routes/calendar.js:82-84 | one non-numeric key makes the created key "NaN" |
| CalendarProperties.AddToNewKey | routes/calendar.js:76-86 | when no list opens with the day and the keys are numeric, the session goes under a fresh key starting from [] |
| CalendarProperties.EmptyKeyNotTargeted | routes/calendar.js:76-86 | a first opening key "" is passed over and the session goes under "NaN" |
| CalendarProperties.AddReplacesNaNList | routes/calendar.js:81-86 | when the day is not found and a key is non-numeric, the list under "NaN" becomes the new session alone |
| CalendarProperties.AddAppendsOrRefuses | routes/calendar.js:89-105 | 409 with no write iff the target list holds the session's (day, name, startTime); otherwise success, the session appended at the end of the target list and every other list unchanged |
| CalendarProperties.PushKeepsOpenings | routes/calendar.js:76-78 | pushing onto a list that opens with the day changes no key's opening |
| CalendarProperties.AddTwiceRefused | routes/calendar.js:76-100 | repeating an add onto an existing day list replies 409 |
| CalendarProperties.NewDayKeyNotEmpty | routes/calendar.js:84 | the created key is never "" |
| CalendarProperties.OnlyNewListOpens | routes/calendar.js:76-86 | when no list opened with the day, only the created list opens with it afterwards |
| CalendarProperties.AddTwiceRefusedNewDay | routes/calendar.js:76-100 | repeating an add that created a day list replies 409, whatever the new key order |
| CalendarProperties.AddThenDeleteRestores | routes/calendar.js:26-111 | deleting what an add appended to an existing day list, with no earlier match, restores the collection |
| CalendarProperties.RouteStatusCodes | routes/calendar.js:26-147 | `/delete` answers 200 or 404, `/add` 200, 404 or 409, `/update` 200, 404 or 500, with 500 iff `original` is missing and some session exists |
| CalendarProperties.UpdateWithoutOriginal | routes/calendar.js:125-131 | a missing `original` throws (500) iff some session exists and otherwise gives 404; nothing is written |
| CalendarProperties.UpdateMergesMatches | routes/calendar.js:125-141 | success iff some session matches; then every matching session becomes its merge with `updated`, while the others, every list's length and the key set stay; otherwise 404 with no write |
| CalendarProperties.MergeEmptyPatch | routes/calendar.js:133 | merging an empty `updated` changes nothing |
| CalendarProperties.MergeCombine | routes/calendar.js:133 | spreading p then q is spreading their combination |
| CalendarProperties.MergeIdempotent | routes/calendar.js:133 | merging the same `updated` twice is merging it once |
| CalendarProperties.RewrittenTwice | routes/calendar.js:126-136 | a patch that keeps the key fields rewrites a list once for good |
| CalendarProperties.UpdateTwiceIsOnce | routes/calendar.js:115-141 | repeating an update that keeps day, name and start time writes the same collection again |

## Left out

- `new Date(currentTime || Date.now())` (index.js:575, 579): the client's `currentTime`
  is taken as an instant already parsed, so the model has no Invalid Date for it. In
  the code, a non-zero value that does not parse gives an Invalid Date: `getDay()`
  is NaN, so the day key is "NaN", and `nowMinutes` is NaN, so no session window
  holds it. Once the category and calendar gates pass, such a scan is always
  answered 403 "nullAucun cours actif ou proche dans votre planning".
- Time zone: the process runs in Europe/Paris (index.js:2). The model gives each
  instant as epoch milliseconds together with its local wall-clock value. The zone
  conversion and its daylight-saving shifts are not modelled. The UTC date
  `toISOString().split("T")[0]` is an input too.
- Clock reads: the handler reads the clock several times (`Date.now()` at lines 553,
  575, 579, `new Date()` in `isSubscriptionValid` and at line 619). The model takes
  them as one reading per request. Firestore's `serverTimestamp()` is a supplied
  commit time.
- `jsonwebtoken` signing and verification (crypto) become an input: absent,
  rejected, or decoded `{uid, exp}`. The library also checks `exp` itself, with the
  same comparison (`floor(now/1000) >= exp`), and throws. So with its default
  options an expired token is answered 400 by the catch, and the 401 gate at
  index.js:553 is reached only when the library leaves `exp` unchecked.
- Firestore: reads, writes, failures and the `Users`/`Calendars` documents become
  maps. The following are not modelled:
  - field values of unexpected types (a non-string `type`, a schedule entry that is
    not a list), whose TypeErrors would answer 400 or 500;
  - `doc("")` or a missing `category` in a request body;
  - Firestore's refusal to store `undefined` fields.
- The race between the duplicate query and the append (index.js:607-622): it is
  concurrent behaviour outside a sequential model. The `where(...).limit(1)` query is
  modelled as "some record of the log is after now-2h".
- `Number`, `parseInt` and case mapping:
  - `Number` is modelled on ASCII text: a string of ASCII digits gives its decimal
    value ("" gives 0), and any other text gives NaN. Whitespace, signs, decimals,
    exponents and hexadecimal forms are not modelled.
  - `parseInt` is modelled as an optional sign followed by leading digits, with no
    whitespace skipping.
  - `toUpperCase` and `toLowerCase` map ASCII letters only.
  - Numbers are unbounded integers, so floating-point rounding of huge values
    (digit strings, keys, dates beyond the `TimeClip` range) is not modelled.
- `calculerAge`: parsing `new Date(dateStr)` from the birth-date text, and reading
  today's date, are not modelled. Both dates are given as local calendar dates.
- Request bodies of the calendar routes: every field is taken as a string (the
  session `type` may be null). Fields of `updated` beyond day, name, startTime,
  endTime and type are dropped by the model, whereas the code copies them into the
  merged session.
- `Object.keys(schedule)` order for `/add` is the parameter `order`, any order listing
  each key once. JavaScript's integer-keys-first ordering is not modelled.
- The weekday keys: `/add` gives a new day list the next numeric key, while
  `/scan-checkin` looks lists up by weekday index. The model keeps both as written
  and proves nothing connecting them.
- `GET /calendar/:category` (routes/calendar.js:7-24), `uploadCalendar.js` (a file
  read and one Firestore write), and the other handlers (`/createUser` apart from its
  category rule, `/editUser`, `/deleteUser`, notifications, `/scan-status`,
  `/user-stats`, `/secure`, `authenticateToken`). They are storage and I/O with no
  further logic.
- The commented-out earlier scan handler (index.js:471-540).
