/**
 * The date-range helpers of the leave server (server/utils/dateUtils.js).
 * A date is an integer timestamp in milliseconds since the epoch: the number a
 * JavaScript `Date` is compared and subtracted by.
 */
module DateUtils {

  /** Milliseconds in one day, 1000 * 60 * 60 * 24. */
  const Day: int := 86400000

  function Abs(x: int): nat {
    if x < 0 then -x else x
  }

  /**
   * `isValidDateRange`: the end instant is not before the start instant, so
   * the signed distance from start to end is the unsigned distance that
   * `calculateDays` measures.
   */
  function IsValidDateRange(startDate: int, endDate: int): (valid: bool)
    ensures valid <==> endDate - startDate == Abs(endDate - startDate)
  {
    endDate >= startDate
  }

  /** `Math.ceil(ms / Day)` for a non-negative millisecond count: the fewest whole days that cover `ms`. */
  function CeilDays(ms: nat): (q: nat)
    ensures ms <= q * Day < ms + Day
  {
    (ms + Day - 1) / Day
  }

  /**
   * `calculateDays`: the inclusive day count of a range, one more than the
   * number of whole days (rounded up) between the two instants, whichever
   * comes first.
   */
  function CalculateDays(startDate: int, endDate: int): (days: int)
    ensures days >= 1
    ensures (days - 2) * Day < Abs(endDate - startDate) <= (days - 1) * Day
  {
    CeilDays(Abs(endDate - startDate)) + 1
  }

  /** Validity is a total preorder on instants: a one-instant range is valid, and a range and its reverse are both valid only when they coincide. */
  lemma ValidRangeIsTotalPreorder(startDate: int, endDate: int)
    ensures IsValidDateRange(startDate, startDate)
    ensures IsValidDateRange(startDate, endDate) || IsValidDateRange(endDate, startDate)
    ensures IsValidDateRange(startDate, endDate) && IsValidDateRange(endDate, startDate) <==> startDate == endDate
  {
  }

  /** The day count is determined by its bracketing: the unique `n` with `(n - 2) days < |end - start| <= (n - 1) days`. */
  lemma CalculateDaysUnique(startDate: int, endDate: int, n: int)
    requires (n - 2) * Day < Abs(endDate - startDate) <= (n - 1) * Day
    ensures CalculateDays(startDate, endDate) == n
  {
  }

  /** The day count is the least `n >= 1` whose `n - 1` days cover the distance between the instants. */
  lemma CalculateDaysIsLeastCover(startDate: int, endDate: int, n: int)
    requires n >= 1 && Abs(endDate - startDate) <= (n - 1) * Day
    ensures CalculateDays(startDate, endDate) <= n
  {
  }

  /** A range of a single instant spans one day. */
  lemma CalculateDaysSingleInstant(t: int)
    ensures CalculateDays(t, t) == 1
  {
  }

  /** Swapping the endpoints does not change the count. */
  lemma CalculateDaysSymmetric(startDate: int, endDate: int)
    ensures CalculateDays(startDate, endDate) == CalculateDays(endDate, startDate)
  {
  }

  /** Endpoints exactly `k` days apart span `k + 1` days, both endpoints counted. */
  lemma CalculateDaysAligned(startDate: int, k: nat)
    ensures CalculateDays(startDate, startDate + k * Day) == k + 1
    ensures CalculateDays(startDate + k * Day, startDate) == k + 1
  {
    CalculateDaysUnique(startDate, startDate + k * Day, k + 1);
    CalculateDaysUnique(startDate + k * Day, startDate, k + 1);
  }

  /** A positive distance of at most one day is rounded up to a whole day: two days are counted. */
  lemma CalculateDaysWithinOneDay(startDate: int, endDate: int)
    requires 0 < Abs(endDate - startDate) <= Day
    ensures CalculateDays(startDate, endDate) == 2
  {
    CalculateDaysUnique(startDate, endDate, 2);
  }

  /** A longer distance never yields a smaller count. */
  lemma CalculateDaysMonotone(s1: int, e1: int, s2: int, e2: int)
    requires Abs(e1 - s1) <= Abs(e2 - s2)
    ensures CalculateDays(s1, e1) <= CalculateDays(s2, e2)
  {
  }
}
