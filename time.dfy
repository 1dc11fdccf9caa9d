/** Timestamps as the pipeline sees them once parsed: a civil date and time
    of day (UTC, whole seconds).  Instants are compared, subtracted and
    truncated to weeks and months through their day number since
    1970-01-01, as the query engine does with epoch-based timestamps. */
module Time {

  datatype DateTime = DateTime(year: int, month: int, day: int, second: int)

  /** A calendar date, as in `created_at >= 'YYYY-MM-DD'`. */
  datatype Date = Date(year: nat, month: nat, day: nat)

  predicate IsLeapYear(y: int)
  {
    y % 4 == 0 && (y % 100 != 0 || y % 400 == 0)
  }

  function DaysInMonth(y: int, m: int): int
  {
    if m == 2 then (if IsLeapYear(y) then 29 else 28)
    else if m == 4 || m == 6 || m == 9 || m == 11 then 30
    else 31
  }

  predicate ValidDate(y: int, m: int, d: int)
  {
    1 <= y <= 9999 && 1 <= m <= 12 && 1 <= d <= DaysInMonth(y, m)
  }

  predicate ValidDateTime(t: DateTime)
  {
    ValidDate(t.year, t.month, t.day) && 0 <= t.second < 86400
  }

  /** A parsed timestamp. */
  type Instant = t: DateTime | ValidDateTime(t) witness DateTime(1970, 1, 1, 0)

  /** Days from 1970-01-01 to the given civil date (proleptic Gregorian);
      `/` is floor division here, as in the usual formulation. */
  function DaysFromCivil(y: int, m: int, d: int): int
  {
    var y' := if m <= 2 then y - 1 else y;
    var era := y' / 400;
    var yoe := y' - era * 400;
    var mp := if m > 2 then m - 3 else m + 9;
    var doy := (153 * mp + 2) / 5 + d - 1;
    var doe := yoe * 365 + yoe / 4 - yoe / 100 + doy;
    era * 146097 + doe - 719468
  }

  function DayNumber(t: Instant): int
  {
    DaysFromCivil(t.year, t.month, t.day)
  }

  function EpochSeconds(t: Instant): int
  {
    DayNumber(t) * 86400 + t.second
  }

  /** Timestamp order (earlier-or-equal). */
  predicate NotAfter(a: Instant, b: Instant)
  {
    EpochSeconds(a) <= EpochSeconds(b)
  }

  /** `(b - a).total_seconds() / 3600`, exactly. */
  function HoursBetween(a: Instant, b: Instant): (h: real)
    ensures h >= 0.0 <==> NotAfter(a, b)
  {
    (EpochSeconds(b) - EpochSeconds(a)) as real / 3600.0
  }

  /** `(b - a).days`: whole days, rounded down. */
  function WholeDaysBetween(a: Instant, b: Instant): (d: int)
    ensures NotAfter(a, b) ==> d >= 0
    ensures d * 86400 <= EpochSeconds(b) - EpochSeconds(a) < (d + 1) * 86400
  {
    (EpochSeconds(b) - EpochSeconds(a)) / 86400
  }

  /** `DATE_TRUNC('week', t)` as a day number: the Monday on or before t
      (1970-01-01 was a Thursday). */
  function WeekStart(t: Instant): (w: int)
    ensures 0 <= DayNumber(t) - w < 7
    ensures (w + 3) % 7 == 0
  {
    DayNumber(t) - (DayNumber(t) + 3) % 7
  }

  /** `DATE_TRUNC('month', t)` as a month count; the year and month can be
      read back from it. */
  function MonthIndex(t: Instant): (k: int)
    ensures k / 12 == t.year && k % 12 + 1 == t.month
  {
    t.year * 12 + (t.month - 1)
  }

  /** `t >= 'YYYY-MM-DD'`: not before midnight starting that date. */
  predicate OnOrAfter(t: Instant, d: Date)
  {
    EpochSeconds(t) >= DaysFromCivil(d.year, d.month, d.day) * 86400
  }
}
