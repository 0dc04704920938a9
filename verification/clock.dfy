/** The part of Go's `time` package the CUSIP encoder relies on:
    `time.Unix`, `Time.AddDate(0, 0, days)` and reading a calendar day off
    an instant.  Instants are read in UTC. */
module Clock {
  import opened Calendar

  const NanosPerSecond: int := 1_000_000_000
  const SecondsPerDay: int := 86400

  /** An instant: whole seconds since 1970-01-01T00:00:00Z and the
      nanoseconds past that second. */
  datatype Instant = Instant(sec: int, nsec: int)

  /** Go's integer `/`, which truncates toward zero (Dafny's rounds toward
      negative infinity for a positive divisor). */
  function TruncDiv(a: int, b: int): int
    requires b > 0
  {
    if a >= 0 then a / b else -((-a) / b)
  }

  /** Go's `%`: the remainder takes the sign of the dividend. */
  function TruncRem(a: int, b: int): int
    requires b > 0
  {
    a - b * TruncDiv(a, b)
  }

  /** `time.Unix(sec, nsec)`: nanoseconds outside [0, 1e9) are carried into
      the seconds, so that the result denotes the same instant with its
      nanoseconds normalised. */
  function Unix(sec: int, nsec: int): (t: Instant)
    ensures 0 <= t.nsec < NanosPerSecond
    ensures t.sec * NanosPerSecond + t.nsec == sec * NanosPerSecond + nsec
  {
    if nsec < 0 || nsec >= NanosPerSecond then
      var n := TruncDiv(nsec, NanosPerSecond);
      var s := sec + n;
      var ns := nsec - n * NanosPerSecond;
      if ns < 0 then Instant(s - 1, ns + NanosPerSecond) else Instant(s, ns)
    else
      Instant(sec, nsec)
  }

  /** The number of the UTC day an instant falls on. */
  function DayNumber(t: Instant): int {
    t.sec / SecondsPerDay
  }

  /** The UTC calendar day of an instant: Go's `Month()` and `Day()`. */
  function DateOf(t: Instant): Date {
    CivilFromDays(DayNumber(t))
  }

  /** `t.AddDate(0, 0, days)` in UTC: Go rebuilds the instant with
      `time.Date(year, month, day + days, ...)`, keeping the clock time, and
      lets the day overflow roll into later or earlier months.  The result is
      exactly `days` whole days away. */
  function AddDays(t: Instant, days: int): (r: Instant)
    ensures r.sec == t.sec + days * SecondsPerDay && r.nsec == t.nsec
    ensures DayNumber(r) == DayNumber(t) + days
  {
    var d := DateOf(t);
    CivilRoundTrip(DayNumber(t));
    Instant(DaysFromCivil(d.year, d.month, d.day + days) * SecondsPerDay + t.sec % SecondsPerDay, t.nsec)
  }
}
