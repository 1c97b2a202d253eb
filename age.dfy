/**
 * The age computation behind the voting-age gate: whole years between a
 * date of birth and today, with the sentinel -1 when the stored date of
 * birth does not parse as YYYY-MM-DD.
 */
module Age {
  import opened Wrappers

  /** A calendar date as the date parser returns it. */
  datatype Date = Date(year: int, month: int, day: int)

  /** The age reported for a date of birth that does not parse. */
  const UnparsableAge := -1

  /** The minimum age at which a voter passes the QR check. */
  const VotingAge := 18

  /** Python's tuple comparison `(m1, d1) < (m2, d2)`. */
  predicate MonthDayBefore(m1: int, d1: int, m2: int, d2: int) {
    m1 < m2 || (m1 == m2 && d1 < d2)
  }

  /** `a` comes no later than `b`, comparing year, then month, then day. */
  predicate OnOrBefore(a: Date, b: Date) {
    a.year < b.year || (a.year == b.year && !MonthDayBefore(b.month, b.day, a.month, a.day))
  }

  /** The `n`-th anniversary of `dob` (same month and day, `n` years later) is not after `today`. */
  predicate AnniversaryReached(dob: Date, n: int, today: Date) {
    OnOrBefore(Date(dob.year + n, dob.month, dob.day), today)
  }

  /**
   * The stored date of birth as the parser sees it: a NULL column makes the
   * parser raise, which the age computation treats like any other failure.
   */
  function ParseDob(dob: Option<string>, parse: string -> Option<Date>): Option<Date> {
    match dob
    case None => None
    case Some(s) => parse(s)
  }

  /**
   * `calculate_age`: the year difference, less one when today's (month, day)
   * is before the birthday's. The result is the number of completed years:
   * the n-th anniversary has been reached exactly for n up to the result.
   */
  function CalculateAge(dob: Option<Date>, today: Date): (age: int)
    ensures dob.None? ==> age == UnparsableAge
    ensures dob.Some? ==>
      age == today.year - dob.value.year || age == today.year - dob.value.year - 1
    ensures dob.Some? ==>
      forall n :: AnniversaryReached(dob.value, n, today) <==> n <= age
  {
    match dob
    case None => UnparsableAge
    case Some(d) =>
      today.year - d.year - (if MonthDayBefore(today.month, today.day, d.month, d.day) then 1 else 0)
  }

  /** A voter is old enough exactly when the date of birth parses and the 18th birthday is not after today. */
  lemma OldEnoughIffBirthdayReached(dob: Option<Date>, today: Date)
    ensures CalculateAge(dob, today) >= VotingAge <==>
      dob.Some? && AnniversaryReached(dob.value, VotingAge, today)
  {
  }

  /** Ages never go down as time passes. */
  lemma AgeMonotone(dob: Option<Date>, earlier: Date, later: Date)
    requires OnOrBefore(earlier, later)
    ensures CalculateAge(dob, earlier) <= CalculateAge(dob, later)
  {
  }

  /**
   * A birthday that falls today already counts as a completed year; on any
   * earlier day of that year, the year is not yet completed.
   */
  lemma BirthdayCountsToday(dob: Date, year: int, month: int, day: int)
    ensures CalculateAge(Some(dob), Date(year, dob.month, dob.day)) == year - dob.year
    ensures MonthDayBefore(month, day, dob.month, dob.day) ==>
      CalculateAge(Some(dob), Date(year, month, day)) == year - dob.year - 1
  {
  }
}
