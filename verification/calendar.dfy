/** The proleptic Gregorian calendar on day numbers counted from 1970-01-01,
    the arithmetic Go's time package performs when it turns an instant into
    a year, month and day and back. */
module Calendar {

  /** A calendar day; `month` is 1..12 and `day` is 1-based. */
  datatype Date = Date(year: int, month: int, day: int)

  /** Days from 0001-01-01 to 1970-01-01. */
  const EpochOffset: int := 719162

  const DaysPer400Years: int := 146097
  const DaysPer100Years: int := 36524
  const DaysPer4Years: int := 1461

  predicate IsLeapYear(y: int) {
    y % 4 == 0 && (y % 100 != 0 || y % 400 == 0)
  }

  function DaysInYear(y: int): int {
    if IsLeapYear(y) then 366 else 365
  }

  function DaysInMonth(y: int, m: int): int
    requires 1 <= m <= 12
  {
    if m == 2 then (if IsLeapYear(y) then 29 else 28)
    else if m == 4 || m == 6 || m == 9 || m == 11 then 30
    else 31
  }

  predicate ValidDate(d: Date) {
    1 <= d.month <= 12 && 1 <= d.day <= DaysInMonth(d.year, d.month)
  }

  /** Days before the first of each month in a common year; the thirteenth
      entry is the length of the year. */
  const CumulativeDays: seq<int> := [0, 31, 59, 90, 120, 151, 181, 212, 243, 273, 304, 334, 365]

  /** Days of year `y` before the first of month `m`; `m == 13` gives the
      length of the year. */
  function DaysBeforeMonth(y: int, m: int): int
    requires 1 <= m <= 13
  {
    CumulativeDays[m - 1] + (if m > 2 && IsLeapYear(y) then 1 else 0)
  }

  lemma DaysBeforeMonthStep(y: int, m: int)
    requires 1 <= m <= 12
    ensures DaysBeforeMonth(y, m + 1) == DaysBeforeMonth(y, m) + DaysInMonth(y, m)
    ensures DaysBeforeMonth(y, 1) == 0 && DaysBeforeMonth(y, 13) == DaysInYear(y)
  {
  }

  /** Later months start later in the year. */
  lemma {:induction false} DaysBeforeMonthIncreasing(y: int, m: int, n: int)
    requires 1 <= m < n <= 13
    ensures DaysBeforeMonth(y, m + 1) <= DaysBeforeMonth(y, n)
    decreases n - m
  {
    if m + 1 < n {
      DaysBeforeMonthIncreasing(y, m + 1, n);
      DaysBeforeMonthStep(y, m + 1);
    }
  }

  /** Days from 0001-01-01 to January 1 of year `y`. */
  function DaysBeforeYear(y: int): int {
    var k := y - 1;
    365 * k + k / 4 - k / 100 + k / 400
  }

  /** The day number of year `y`, month `m`, day `d`.  Like Go's `time.Date`,
      a day outside the month is not an error: it rolls over into the
      neighbouring months. */
  function DaysFromCivil(y: int, m: int, d: int): int
    requires 1 <= m <= 12
  {
    DaysBeforeYear(y) + DaysBeforeMonth(y, m) + d - 1 - EpochOffset
  }

  /** A day count since 0001-01-01 split into whole 400-, 100-, 4- and 1-year
      blocks and the day of the year that is left over. */
  datatype YearSplit = YearSplit(eras: int, centuries: int, quads: int, years: int, yday: int)

  function SplitYear(s: YearSplit): int {
    400 * s.eras + 100 * s.centuries + 4 * s.quads + s.years + 1
  }

  /** How the leap years fall inside a 400-year block that starts on
      0001-01-01: the last year of every 4-year block is a leap year, except
      the last year of the first three centuries. */
  lemma LeapYearInBlock(a: int, b: int, c: int, e: int)
    requires 0 <= b <= 3 && 0 <= c <= 24 && 0 <= e <= 3
    ensures IsLeapYear(400 * a + 100 * b + 4 * c + e + 1) <==> e == 3 && (c < 24 || b == 3)
  {
    var y := 400 * a + 100 * b + 4 * c + e + 1;
    if e < 3 {
      assert y == 4 * (100 * a + 25 * b + c) + (e + 1);
    } else if c < 24 {
      assert y == 4 * (100 * a + 25 * b + c + 1);
      assert y == 100 * (4 * a + b) + 4 * (c + 1);
    } else {
      assert y == 100 * (4 * a + b + 1);
      assert y == 400 * a + 100 * (b + 1);
      if b < 3 {
        assert y == 400 * a + 100 * (b + 1);
      }
    }
  }

  /** The day-counting formula agrees with counting block by block. */
  lemma DaysBeforeYearInBlocks(a: int, b: int, c: int, e: int)
    requires 0 <= b <= 3 && 0 <= c <= 24 && 0 <= e <= 3
    ensures DaysBeforeYear(400 * a + 100 * b + 4 * c + e + 1)
         == DaysPer400Years * a + DaysPer100Years * b + DaysPer4Years * c + 365 * e
  {
    var k := 400 * a + 100 * b + 4 * c + e;
    assert k / 4 == 100 * a + 25 * b + c;
    assert k / 100 == 4 * a + b;
    assert k / 400 == a;
  }

  /** Go's `absDate` decomposition: 400-year eras, then centuries (at most
      three, since only the last century of an era has an extra day), then
      4-year blocks, then years (at most three, likewise). */
  function Split(z: int): (s: YearSplit)
    ensures 0 <= s.centuries <= 3 && 0 <= s.quads <= 24 && 0 <= s.years <= 3
    ensures 0 <= s.yday < DaysInYear(SplitYear(s))
    ensures z == DaysPer400Years * s.eras + DaysPer100Years * s.centuries
               + DaysPer4Years * s.quads + 365 * s.years + s.yday
  {
    var eras := z / DaysPer400Years;
    var r400 := z % DaysPer400Years;
    var centuries := if r400 / DaysPer100Years == 4 then 3 else r400 / DaysPer100Years;
    var r100 := r400 - DaysPer100Years * centuries;
    var quads := r100 / DaysPer4Years;
    var r4 := r100 - DaysPer4Years * quads;
    var years := if r4 / 365 == 4 then 3 else r4 / 365;
    var yday := r4 - 365 * years;
    LeapYearInBlock(eras, centuries, quads, years);
    YearSplit(eras, centuries, quads, years, yday)
  }

  /** The month that day `yday` (0-based) of year `y` falls in, searching
      from month `m` on. */
  function MonthOf(y: int, yday: int, m: int): (r: int)
    requires 1 <= m <= 12 && DaysBeforeMonth(y, m) <= yday < DaysInYear(y)
    ensures m <= r <= 12 && DaysBeforeMonth(y, r) <= yday < DaysBeforeMonth(y, r + 1)
    decreases 12 - m
  {
    if yday < DaysBeforeMonth(y, m + 1) then m else MonthOf(y, yday, m + 1)
  }

  /** The calendar day with day number `n`. */
  function CivilFromDays(n: int): (date: Date)
    ensures ValidDate(date)
  {
    var s := Split(n + EpochOffset);
    var y := SplitYear(s);
    var m := MonthOf(y, s.yday, 1);
    DaysBeforeMonthStep(y, m);
    Date(y, m, s.yday - DaysBeforeMonth(y, m) + 1)
  }

  /** Naming a day and counting it back gives the day number started from. */
  lemma CivilRoundTrip(n: int)
    ensures var d := CivilFromDays(n); DaysFromCivil(d.year, d.month, d.day) == n
  {
    var s := Split(n + EpochOffset);
    DaysBeforeYearInBlocks(s.eras, s.centuries, s.quads, s.years);
  }

  /** A month is the only one whose days contain a given day of the year. */
  lemma MonthOfUnique(y: int, yday: int, m: int)
    requires 1 <= m <= 12 && DaysBeforeMonth(y, m) <= yday < DaysBeforeMonth(y, m + 1)
    ensures yday < DaysInYear(y) && MonthOf(y, yday, 1) == m
  {
    var r := MonthOf(y, yday, 1);
    DaysBeforeMonthStep(y, 12);
    if m < 12 {
      DaysBeforeMonthIncreasing(y, m, 13);
    }
    if r < m {
      DaysBeforeMonthIncreasing(y, r, m);
    } else if m < r {
      DaysBeforeMonthIncreasing(y, m, r);
    }
  }

  /** Splitting a day count is unique: blocks and day of year that add up to
      `z` within their bounds are the ones `Split` finds. */
  lemma SplitUnique(z: int, t: YearSplit)
    requires 0 <= t.centuries <= 3 && 0 <= t.quads <= 24 && 0 <= t.years <= 3
    requires 0 <= t.yday < DaysInYear(SplitYear(t))
    requires z == DaysPer400Years * t.eras + DaysPer100Years * t.centuries
                + DaysPer4Years * t.quads + 365 * t.years + t.yday
    ensures Split(z) == t
  {
    LeapYearInBlock(t.eras, t.centuries, t.quads, t.years);
    var r400 := DaysPer100Years * t.centuries + DaysPer4Years * t.quads + 365 * t.years + t.yday;
    assert 0 <= r400 < DaysPer400Years;
    assert z / DaysPer400Years == t.eras;
    assert z % DaysPer400Years == r400;
    var r100 := DaysPer4Years * t.quads + 365 * t.years + t.yday;
    assert t.centuries < 3 ==> r100 < DaysPer100Years;
    assert r400 / DaysPer100Years == t.centuries || (t.centuries == 3 && r400 / DaysPer100Years == 4);
    var r4 := 365 * t.years + t.yday;
    assert r100 / DaysPer4Years == t.quads;
    assert t.years < 3 ==> r4 < 365 * (t.years + 1);
    assert r4 / 365 == t.years || (t.years == 3 && r4 / 365 == 4);
  }

  /** Counting a valid date into a day number and naming that day gives the
      date back: with `CivilRoundTrip`, day numbers and valid dates are in
      one-to-one correspondence. */
  lemma DaysRoundTrip(d: Date)
    requires ValidDate(d)
    ensures CivilFromDays(DaysFromCivil(d.year, d.month, d.day)) == d
  {
    var yday := DayOfYear(d);
    DayOfYearInMonth(d);
    SplitOfDaysFromCivil(d);
    CivilOfSplit(DaysFromCivil(d.year, d.month, d.day), d.year, yday);
  }

  /** The 0-based day of the year of a date. */
  function DayOfYear(d: Date): int
    requires ValidDate(d)
  {
    DaysBeforeMonth(d.year, d.month) + d.day - 1
  }

  lemma DayOfYearInMonth(d: Date)
    requires ValidDate(d)
    ensures 0 <= DayOfYear(d) < DaysInYear(d.year) && MonthOf(d.year, DayOfYear(d), 1) == d.month
  {
    DaysBeforeMonthStep(d.year, d.month);
    MonthOfUnique(d.year, DayOfYear(d), d.month);
  }

  lemma SplitOfDaysFromCivil(d: Date)
    requires ValidDate(d)
    ensures 0 <= DayOfYear(d) < DaysInYear(d.year)
    ensures Split(DaysFromCivil(d.year, d.month, d.day) + EpochOffset) == YearBlocks(d.year, DayOfYear(d))
  {
    DayOfYearInMonth(d);
    SplitOfDate(d.year, DayOfYear(d));
  }

  /** `CivilFromDays` read off a known split: the year and day of year, then
      the month and day of month. */
  lemma CivilOfSplit(n: int, y: int, yday: int)
    requires 0 <= yday < DaysInYear(y)
    requires Split(n + EpochOffset) == YearBlocks(y, yday)
    ensures var m := MonthOf(y, yday, 1);
      CivilFromDays(n) == Date(y, m, yday - DaysBeforeMonth(y, m) + 1)
  {
  }

  /** The day count of day `yday` (0-based) of year `y` splits into the
      blocks of `y` and that day. */
  lemma SplitOfDate(y: int, yday: int)
    requires 0 <= yday < DaysInYear(y)
    ensures Split(DaysBeforeYear(y) + yday) == YearBlocks(y, yday)
  {
    var t := YearBlocks(y, yday);
    DaysBeforeYearInBlocks(t.eras, t.centuries, t.quads, t.years);
    SplitUnique(DaysBeforeYear(y) + yday, t);
  }

  /** Year `y` written in whole 400-, 100- and 4-year blocks from year 1. */
  function YearBlocks(y: int, yday: int): (t: YearSplit)
    ensures 0 <= t.centuries <= 3 && 0 <= t.quads <= 24 && 0 <= t.years <= 3
    ensures SplitYear(t) == y && t.yday == yday
  {
    var k := y - 1;
    var inEra := k % 400;
    var inCentury := inEra % 100;
    YearSplit(k / 400, inEra / 100, inCentury / 4, inCentury % 4, yday)
  }
}
