/** The expiry of the QR tokens `/generate-qr-token` signs and `/scan-checkin`
    checks (index.js). Times are epoch milliseconds; `exp` is in seconds. */
module QrToken {
  /** Lifetime of a QR token, in seconds. */
  const LifetimeSeconds := 300

  /** `Math.floor(Date.now() / 1000) + 60 * 5` (Dafny's `/` rounds down for a
      positive divisor, as `Math.floor` does). */
  function IssueExpiry(nowMs: int): (exp: int)
    ensures exp * 1000 <= nowMs + LifetimeSeconds * 1000
    ensures nowMs + LifetimeSeconds * 1000 < exp * 1000 + 1000
  {
    nowMs / 1000 + LifetimeSeconds
  }

  /** `Date.now() >= exp * 1000`: the scan comes too late. */
  predicate Expired(exp: int, nowMs: int) {
    nowMs >= exp * 1000
  }

  /** A token issued at `issuedMs` is accepted by a scan up to 299 seconds
      later and refused from 300 seconds later on; in between, it depends on
      where in its second the token was issued. */
  lemma ExpiryWindow(issuedMs: int, scanMs: int)
    ensures scanMs <= issuedMs + 299000 ==> !Expired(IssueExpiry(issuedMs), scanMs)
    ensures scanMs >= issuedMs + 300000 ==> Expired(IssueExpiry(issuedMs), scanMs)
  {
  }

  /** A scan six minutes after issue is refused. */
  lemma SixMinutesLate(issuedMs: int)
    ensures Expired(IssueExpiry(issuedMs), issuedMs + 6 * 60000)
  {
    ExpiryWindow(issuedMs, issuedMs + 6 * 60000);
  }

  /** Once refused, a token stays refused. */
  lemma ExpiredStaysExpired(exp: int, scanMs: int, laterMs: int)
    requires Expired(exp, scanMs) && scanMs <= laterMs
    ensures Expired(exp, laterMs)
  {
  }
}
