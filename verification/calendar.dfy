/** Instants are integer milliseconds since 1970-01-01T00:00 and calendar
    days are integer ordinals counted from that day; the conversions between
    the two ignore time zones. */
module Calendar {

  const DayMs: int := 86_400_000
  const MinuteMs: int := 60_000

  /** Weekday of day 0 (1970-01-01 was a Thursday), Sunday being 0 as in
      `getDay`. */
  const EpochWeekday: int := 4

  /** `getDay`: 0 = Sunday, ..., 6 = Saturday. */
  function WeekDay(d: int): (w: int)
    ensures 0 <= w < 7
  {
    (d + EpochWeekday) % 7
  }

  /** First millisecond of day `d` (`startOfDay`). */
  function DayStart(d: int): int {
    d * DayMs
  }

  /** Last millisecond of day `d` (`endOfDay`). */
  function DayEnd(d: int): int {
    d * DayMs + DayMs - 1
  }

  /** The day an instant falls on. */
  function DayOf(t: int): int {
    t / DayMs
  }

  /** Day `d` at `minute` minutes past midnight: `new Date("<d>T<hh:mm>:00")`. */
  function At(d: int, minute: int): int {
    d * DayMs + minute * MinuteMs
  }

  /** Instants from the start of day `d` onwards are exactly those on day
      `d` or later; instants up to the end of day `d`, those on day `d` or
      earlier. */
  lemma DayBoundsIff(t: int, d: int)
    ensures DayStart(d) <= t <==> d <= DayOf(t)
    ensures t <= DayEnd(d) <==> DayOf(t) <= d
  {
    var q := t / DayMs;
    assert q * DayMs <= t < q * DayMs + DayMs;
    if q < d {
      assert q * DayMs + DayMs <= d * DayMs;
    } else if q > d {
      assert d * DayMs + DayMs <= q * DayMs;
    }
  }
}
