/**
 * `DateTime` and `TimeSpan` as integer tick counts (100 ns each), the unit both
 * types use internally. The clock (`DateTime.Now`, `DateTime.Today`) is never read
 * here: callers pass the instant in.
 */
module Time {

  /**
   * `DateTime.Ticks`. A `DateTime` is never negative, where Dafny's `/` and `%`
   * agree with .NET's; the functions below are stated for every integer.
   */
  type Instant = int

  /** `TimeSpan.Ticks`. */
  type Span = int

  const TicksPerMinute: int := 600_000_000
  const TicksPerHour: int := 60 * TicksPerMinute
  const TicksPerDay: int := 24 * TicksPerHour

  function AddHours(t: Instant, hours: int): Instant {
    t + hours * TicksPerHour
  }

  function AddDays(t: Instant, days: int): Instant {
    t + days * TicksPerDay
  }

  /** `t.Date`: midnight of the day of `t`. */
  function Date(t: Instant): (d: Instant)
    ensures d <= t < d + TicksPerDay && d % TicksPerDay == 0
  {
    (t / TicksPerDay) * TicksPerDay
  }

  /** `t.TimeOfDay`: the time elapsed since midnight. */
  function TimeOfDay(t: Instant): (s: Span)
    ensures 0 <= s < TicksPerDay
  {
    t % TicksPerDay
  }

  /**
   * `new DateTime(t.Year, t.Month, t.Day, t.Hour, t.Minute, 0)`: `t` with its
   * seconds and fractions of a second dropped.
   */
  function TruncateToMinute(t: Instant): (m: Instant)
    ensures m <= t < m + TicksPerMinute && m % TicksPerMinute == 0
  {
    t - t % TicksPerMinute
  }

  /** Splitting an instant into date and time of day, then adding them again, gives it back. */
  lemma DatePlusTimeOfDay(t: Instant)
    ensures Date(t) + TimeOfDay(t) == t
  {
  }

  /**
   * A midnight plus a time of day splits back into that midnight and that
   * time of day.
   */
  lemma SplitMidnightPlus(d: Instant, s: Span)
    requires d % TicksPerDay == 0 && 0 <= s < TicksPerDay
    ensures Date(d + s) == d && TimeOfDay(d + s) == s
  {
    var k := d / TicksPerDay;
    assert d == k * TicksPerDay;
    assert (k * TicksPerDay + s) / TicksPerDay == k;
  }

  /** Adding a span that stays within the day keeps the date and adds to the time of day. */
  lemma SameDayAfter(t: Instant, span: Span)
    requires 0 <= span && TimeOfDay(t) + span < TicksPerDay
    ensures Date(t + span) == Date(t) && TimeOfDay(t + span) == TimeOfDay(t) + span
  {
    DatePlusTimeOfDay(t);
    SplitMidnightPlus(Date(t), TimeOfDay(t) + span);
  }
}
