/** The CUSIP maturity suffix of `start/start.go`: the issue date (epoch
    milliseconds as a decimal string) plus a tenor in days gives a maturity
    date, whose month and day of month are encoded as one character each. */
module Cusip {
  import opened Outcomes
  import opened Strconv
  import opened Calendar
  import opened Clock

  const MillisPerSecond: int := 1000
  const NanosPerMillisecond: int := 1_000_000
  const MillisPerDay: int := 86_400_000

  /** `seventhDigit`: months 1..12 map to A..M, skipping I; keys 13..24
      continue the alphabet, skipping O, and no month reaches them. */
  const SeventhDigit: seq<string> := [
    "A", "B", "C", "D", "E", "F", "G", "H", "J", "K", "L", "M",
    "N", "P", "Q", "R", "S", "T", "U", "V", "W", "X", "Y", "Z"]

  /** `eigthDigit`: days 1..9 map to their digit, days 10..31 to A..X,
      skipping I and O. */
  const EighthDigit: seq<string> := [
    "1", "2", "3", "4", "5", "6", "7", "8", "9",
    "A", "B", "C", "D", "E", "F", "G", "H", "J", "K", "L", "M",
    "N", "P", "Q", "R", "S", "T", "U", "V", "W", "X"]

  /** Indexing a Go `map[int]string` whose keys are 1..|table|: a missing key
      yields the empty string. */
  function Lookup(table: seq<string>, key: int): string {
    if 1 <= key <= |table| then table[key - 1] else ""
  }

  /** Every entry is one character and each character comes later in the
      character order than the one before it. */
  predicate StrictlyIncreasingCodes(table: seq<string>) {
    && (forall i :: 0 <= i < |table| ==> |table[i]| == 1)
    && (forall i :: 0 < i < |table| ==> table[i - 1][0] < table[i][0])
  }

  lemma {:induction false} IncreasingCodesApart(table: seq<string>, i: int, j: int)
    requires StrictlyIncreasingCodes(table) && 0 <= i < j < |table|
    ensures table[i][0] < table[j][0]
    decreases j - i
  {
    if i + 1 < j {
      IncreasingCodesApart(table, i + 1, j);
    }
  }

  /** A table of strictly increasing one-character codes never gives two keys
      the same code. */
  lemma IncreasingCodesInjective(table: seq<string>)
    requires StrictlyIncreasingCodes(table)
    ensures forall i, j :: 0 <= i < |table| && 0 <= j < |table| && table[i] == table[j] ==> i == j
  {
    forall i, j | 0 <= i < |table| && 0 <= j < |table| && table[i] == table[j]
      ensures i == j
    {
      if i < j {
        IncreasingCodesApart(table, i, j);
      } else if j < i {
        IncreasingCodesApart(table, j, i);
      }
    }
  }

  /** A code table: strictly increasing one-character codes, none of them
      the easily misread I or O. */
  predicate CodeTable(table: seq<string>) {
    && StrictlyIncreasingCodes(table)
    && (forall i :: 0 <= i < |table| ==> table[i][0] != 'I' && table[i][0] != 'O')
  }

  lemma SeventhDigitIsCodeTable()
    ensures |SeventhDigit| == 24 && CodeTable(SeventhDigit)
  {
  }

  lemma EighthDigitIsCodeTable()
    ensures |EighthDigit| == 31 && CodeTable(EighthDigit)
  {
  }

  /** The two tables: their sizes, distinct one-character codes, no I or O,
      and the entries the encoding is usually checked against. */
  lemma TablesWellFormed()
    ensures |SeventhDigit| == 24 && |EighthDigit| == 31
    ensures forall i, j :: 0 <= i < |SeventhDigit| && 0 <= j < |SeventhDigit| && SeventhDigit[i] == SeventhDigit[j] ==> i == j
    ensures forall i, j :: 0 <= i < |EighthDigit| && 0 <= j < |EighthDigit| && EighthDigit[i] == EighthDigit[j] ==> i == j
    ensures forall i :: 0 <= i < |SeventhDigit| ==> |SeventhDigit[i]| == 1 && 'I' !in SeventhDigit[i] && 'O' !in SeventhDigit[i]
    ensures forall i :: 0 <= i < |EighthDigit| ==> |EighthDigit[i]| == 1 && 'I' !in EighthDigit[i] && 'O' !in EighthDigit[i]
    ensures Lookup(SeventhDigit, 2) == "B" && Lookup(SeventhDigit, 12) == "M"
    ensures Lookup(EighthDigit, 14) == "E" && Lookup(EighthDigit, 31) == "X"
  {
    SeventhDigitIsCodeTable();
    EighthDigitIsCodeTable();
    IncreasingCodesInjective(SeventhDigit);
    IncreasingCodesInjective(EighthDigit);
    assert forall i :: 0 <= i < |SeventhDigit| ==> SeventhDigit[i] == [SeventhDigit[i][0]];
    assert forall i :: 0 <= i < |EighthDigit| ==> EighthDigit[i] == [EighthDigit[i][0]];
  }

  /** The instant `time.Unix(ms / 1000, (ms % 1000) * 1e6)` with Go's
      truncating operators; after normalisation it is the floor second, so
      its day is the floor of `ms` over a day's milliseconds. */
  function FromMillis(ms: int): (t: Instant)
    ensures t.sec == ms / MillisPerSecond && t.nsec == (ms % MillisPerSecond) * NanosPerMillisecond
    ensures DayNumber(t) == ms / MillisPerDay
  {
    var t := Unix(TruncDiv(ms, MillisPerSecond), TruncRem(ms, MillisPerSecond) * NanosPerMillisecond);
    assert t.sec * MillisPerSecond + t.nsec / NanosPerMillisecond == ms;
    t
  }

  /** `msToTime`: parse the milliseconds, then build the instant. */
  function MsToTime(ms: string): (r: Result<Instant, NumError>)
    ensures r.Ok? <==> ParseInt(ms).Ok?
    ensures r.Err? ==> r.error == ParseInt(ms).error
    ensures r.Ok? ==>
      && r.value.sec == ParseInt(ms).value / MillisPerSecond
      && r.value.nsec == (ParseInt(ms).value % MillisPerSecond) * NanosPerMillisecond
    ensures r.Ok? ==> DayNumber(r.value) == ParseInt(ms).value / MillisPerDay
  {
    match ParseInt(ms)
    case Err(e) => Err(e)
    case Ok(msInt) => Ok(FromMillis(msInt))
  }

  /** The two-character code of a date: the table entry of its month, then
      that of its day of month. */
  function DateCode(d: Date): string
    requires ValidDate(d)
  {
    assert d.day <= 31;
    SeventhDigit[d.month - 1] + EighthDigit[d.day - 1]
  }

  /** Every valid date has both codes, so the map lookups of the source never
      miss and the code is always two characters, neither of them I or O. */
  lemma DateCodeWellFormed(d: Date)
    requires ValidDate(d)
    ensures Lookup(SeventhDigit, d.month) + Lookup(EighthDigit, d.day) == DateCode(d)
    ensures |DateCode(d)| == 2 && 'I' !in DateCode(d) && 'O' !in DateCode(d)
  {
    TablesWellFormed();
    var code := DateCode(d);
    assert code[0] == SeventhDigit[d.month - 1][0];
  }

  /** `generateCUSIPSuffix`: the month code then the day code of the maturity
      date, the UTC day `days` after the issue date. */
  function GenerateCUSIPSuffix(issueDate: string, days: int): (r: Result<string, NumError>)
    ensures r.Err? <==> ParseInt(issueDate).Err?
    ensures r.Err? ==> r.error == ParseInt(issueDate).error
    ensures r.Ok? ==>
      var maturity := CivilFromDays(ParseInt(issueDate).value / MillisPerDay + days);
      r.value == DateCode(maturity) && |r.value| == 2 && 'I' !in r.value && 'O' !in r.value
  {
    match MsToTime(issueDate)
    case Err(e) => Err(e)
    case Ok(t) =>
      var maturity := DateOf(AddDays(t, days));
      assert maturity == CivilFromDays(ParseInt(issueDate).value / MillisPerDay + days);
      var suffix := Lookup(SeventhDigit, maturity.month) + Lookup(EighthDigit, maturity.day);
      DateCodeWellFormed(maturity);
      assert suffix == DateCode(maturity) && |suffix| == 2 && 'I' !in suffix && 'O' !in suffix;
      Ok(suffix)
  }

  /** Once the issue date parses, the suffix is the code of the UTC day the
      tenor leads to. */
  lemma SuffixOfParsedDate(issueDate: string, days: int, maturity: Date)
    requires ParseInt(issueDate).Ok?
    requires CivilFromDays(ParseInt(issueDate).value / MillisPerDay + days) == maturity
    ensures ValidDate(maturity)
    ensures GenerateCUSIPSuffix(issueDate, days) == Ok(DateCode(maturity))
  {
  }

  /** The three maturity days the examples below reach. */
  lemma ExampleDates()
    ensures CivilFromDays(19767) == Date(2024, 2, 14)
    ensures CivilFromDays(20088) == Date(2024, 12, 31)
    ensures CivilFromDays(19766) == Date(2024, 2, 13)
  {
    DaysRoundTrip(Date(2024, 2, 14));
    DaysRoundTrip(Date(2024, 12, 31));
    DaysRoundTrip(Date(2024, 2, 13));
  }

  /** The codes of those three days. */
  lemma ExampleCodes()
    ensures DateCode(Date(2024, 2, 14)) == "BE"
    ensures DateCode(Date(2024, 12, 31)) == "MX"
    ensures DateCode(Date(2024, 2, 13)) == "BD"
  {
    assert EighthDigit[13] == "E" && EighthDigit[30] == "X" && EighthDigit[12] == "D";
  }

  /** 2024-01-15T00:00:00Z (day 19737) plus 30 days is 2024-02-14: February
      is B and the 14th is E. */
  lemma MidFebruaryExample()
    ensures GenerateCUSIPSuffix(FormatInt(19737 * MillisPerDay), 30) == Ok("BE")
  {
    ExampleDates();
    ExampleCodes();
    ParseFormatRoundTrip(19737 * MillisPerDay);
    SuffixOfParsedDate(FormatInt(19737 * MillisPerDay), 30, Date(2024, 2, 14));
  }

  /** 2024-12-01T00:00:00Z (day 20058) plus 30 days is 2024-12-31: December
      is M and the 31st is X. */
  lemma LastOfDecemberExample()
    ensures GenerateCUSIPSuffix(FormatInt(20058 * MillisPerDay), 30) == Ok("MX")
  {
    ExampleDates();
    ExampleCodes();
    ParseFormatRoundTrip(20058 * MillisPerDay);
    SuffixOfParsedDate(FormatInt(20058 * MillisPerDay), 30, Date(2024, 12, 31));
  }

  /** The instant is read down to the millisecond: one millisecond before
      2024-01-15 is still 2024-01-14, so thirty days on is 2024-02-13. */
  lemma MillisecondBeforeMidnightExample()
    ensures GenerateCUSIPSuffix(FormatInt(19737 * MillisPerDay - 1), 30) == Ok("BD")
  {
    ExampleDates();
    ExampleCodes();
    ParseFormatRoundTrip(19737 * MillisPerDay - 1);
    assert (19737 * MillisPerDay - 1) / MillisPerDay == 19736;
    SuffixOfParsedDate(FormatInt(19737 * MillisPerDay - 1), 30, Date(2024, 2, 13));
  }

  /** A date that is not a number yields a syntax error and no suffix. */
  lemma NotANumberExample()
    ensures GenerateCUSIPSuffix("not-a-number", 30) == Err(ErrSyntax)
  {
    assert "not-a-number"[0] == 'n';
  }
}
