/**
 * Points in time are integer milliseconds of local date-time (no time zone):
 * a Java LocalDateTime on the backend and the value of a dayjs object on the frontend.
 * A day key is the index of the local calendar day a point falls in.
 */
module Time {
  type Millis = int

  const SecondMs: int := 1000
  const MinuteMs: int := 60 * SecondMs
  const HourMs: int := 60 * MinuteMs
  const DayMs: int := 24 * HourMs
  const WeekMs: int := 7 * DayMs

  /** The local calendar day of t (the YYYY-MM-DD key of the frontend). */
  function DayKey(t: Millis): int {
    t / DayMs
  }

  /** dayjs startOf('day'). */
  function StartOfDay(t: Millis): (r: Millis)
    ensures r <= t < r + DayMs
    ensures DayKey(r) == DayKey(t)
  {
    DayKey(t) * DayMs
  }

  /** dayjs endOf('day'): the last millisecond of the same day. */
  function EndOfDay(t: Millis): (r: Millis)
    ensures t <= r
    ensures DayKey(r) == DayKey(t)
    ensures DayKey(r + 1) == DayKey(t) + 1
  {
    StartOfDay(t) + DayMs - 1
  }

  /** A point lies in [StartOfDay(d), EndOfDay(d)] exactly when it falls on the day of d. */
  lemma SameDayIff(t: Millis, d: Millis)
    ensures StartOfDay(d) <= t <= EndOfDay(d) <==> DayKey(t) == DayKey(d)
  {
  }

  /** LocalDateTime.plusDays: days are exact 24-hour steps in local date-time. */
  function PlusDays(t: Millis, n: int): Millis {
    t + n * DayMs
  }

  /** LocalDateTime.plusWeeks. */
  function PlusWeeks(t: Millis, n: int): Millis {
    t + n * WeekMs
  }

  /** dayjs().add(days, 'day').endOf('day'): the last instant of the quick deadline window of days days. */
  function QuickWindowEnd(now: Millis, days: int): (r: Millis)
    ensures DayKey(r) == DayKey(now) + days
    ensures DayKey(r + 1) == DayKey(now) + days + 1
  {
    EndOfDay(PlusDays(now, days))
  }
}
