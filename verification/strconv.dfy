/** Go's `strconv.ParseInt(s, 10, 64)`, the parser that turns an issue date
    given as a decimal string of milliseconds into an integer. */
module Strconv {
  import opened Outcomes

  /** The two failures of Go's strconv: a malformed numeral, or one whose
      value does not fit the requested width. */
  datatype NumError = ErrSyntax | ErrRange

  const MaxUint64: int := 0xFFFF_FFFF_FFFF_FFFF
  const MinInt64: int := -0x8000_0000_0000_0000
  const MaxInt64: int := 0x7FFF_FFFF_FFFF_FFFF

  /** Go's `cutoff` for base 10: any accumulator at or above it overflows
      64 bits once another digit is appended. */
  const Cutoff: int := MaxUint64 / 10 + 1

  predicate IsDigit(c: char) {
    '0' <= c <= '9'
  }

  predicate AllDigits(s: string) {
    forall i :: 0 <= i < |s| ==> IsDigit(s[i])
  }

  function DigitValue(c: char): nat
    requires IsDigit(c)
  {
    (c as int) - ('0' as int)
  }

  /** The number a string of decimal digits denotes, most significant digit first. */
  function DecimalValue(s: string): nat
    requires AllDigits(s)
  {
    if |s| == 0 then 0 else 10 * DecimalValue(s[..|s| - 1]) + DigitValue(s[|s| - 1])
  }

  /** A numeral without its optional leading sign. */
  function Magnitude(s: string): string {
    if |s| > 0 && (s[0] == '+' || s[0] == '-') then s[1..] else s
  }

  /** An optional `+` or `-` followed by at least one decimal digit and nothing else. */
  predicate IsDecimalInteger(s: string) {
    |Magnitude(s)| > 0 && AllDigits(Magnitude(s))
  }

  /** The integer a well-formed numeral denotes. */
  function SignedValue(s: string): int
    requires IsDecimalInteger(s)
  {
    if s[0] == '-' then -(DecimalValue(Magnitude(s)) as int) else DecimalValue(Magnitude(s))
  }

  /** Appending digits never makes a numeral smaller. */
  lemma {:induction false} PrefixValueAtMost(s: string, j: nat)
    requires j <= |s| && AllDigits(s)
    ensures DecimalValue(s[..j]) <= DecimalValue(s)
    decreases |s|
  {
    if j < |s| {
      var t := s[..|s| - 1];
      assert t[..j] == s[..j];
      PrefixValueAtMost(t, j);
    } else {
      assert s[..j] == s;
    }
  }

  /** The digit loop of Go's `ParseUint` for base 10: `acc` holds the value
      of the digits `s[..i]` already consumed; scanning stops at the first
      non-digit (a syntax error) or as soon as the value passes 64 bits (a
      range error). */
  function ScanDigits(s: string, i: nat, acc: nat): (r: Result<nat, NumError>)
    requires i <= |s| && AllDigits(s[..i]) && acc == DecimalValue(s[..i]) && acc <= MaxUint64
    ensures r.Ok? <==> AllDigits(s) && DecimalValue(s) <= MaxUint64
    ensures r.Ok? ==> r.value == DecimalValue(s)
    ensures AllDigits(s) && r.Err? ==> r.error == ErrRange
    decreases |s| - i
  {
    if i == |s| then
      assert s[..i] == s;
      Ok(acc)
    else if !IsDigit(s[i]) then
      Err(ErrSyntax)
    else
      assert s[..i + 1][..i] == s[..i];
      assert AllDigits(s[..i + 1]);
      var next := acc * 10 + DigitValue(s[i]);
      assert next == DecimalValue(s[..i + 1]);
      if acc >= Cutoff || next > MaxUint64 then
        (if AllDigits(s) then PrefixValueAtMost(s, i + 1); Err(ErrRange) else Err(ErrRange))
      else
        ScanDigits(s, i + 1, next)
  }

  /** Go's `ParseUint(s, 10, 64)`: the empty string is a syntax error. */
  function ParseUint(s: string): (r: Result<nat, NumError>)
    ensures r.Ok? <==> |s| > 0 && AllDigits(s) && DecimalValue(s) <= MaxUint64
    ensures r.Ok? ==> r.value == DecimalValue(s)
    ensures |s| > 0 && AllDigits(s) && r.Err? ==> r.error == ErrRange
  {
    if |s| == 0 then Err(ErrSyntax)
    else
      assert s[..0] == [];
      ScanDigits(s, 0, 0)
  }

  /** Go's `ParseInt(s, 10, 64)`: one optional sign, then the digits parsed as
      an unsigned value, then a check that the signed value fits 64 bits. */
  function ParseInt(s: string): (r: Result<int, NumError>)
    ensures r.Ok? <==> IsDecimalInteger(s) && MinInt64 <= SignedValue(s) <= MaxInt64
    ensures r.Ok? ==> r.value == SignedValue(s)
    ensures IsDecimalInteger(s) && r.Err? ==> r.error == ErrRange
  {
    if |s| == 0 then Err(ErrSyntax)
    else
      var negative := s[0] == '-';
      match ParseUint(Magnitude(s))
      case Err(e) => Err(e)
      case Ok(magnitude) =>
        if !negative && magnitude >= 0x8000_0000_0000_0000 then Err(ErrRange)
        else if negative && magnitude > 0x8000_0000_0000_0000 then Err(ErrRange)
        else Ok(if negative then -(magnitude as int) else magnitude)
  }

  /** The decimal digits of a natural number, without leading zeros. */
  function Digits(n: nat): (s: string)
    decreases n
  {
    if n < 10 then ['0' + (n as char)] else Digits(n / 10) + ['0' + ((n % 10) as char)]
  }

  /** Go's `strconv.FormatInt(n, 10)`, the inverse of `ParseInt`. */
  function FormatInt(n: int): string {
    if n < 0 then "-" + Digits(-n) else Digits(n)
  }

  lemma {:induction false} DigitsDenote(n: nat)
    ensures |Digits(n)| > 0 && AllDigits(Digits(n)) && DecimalValue(Digits(n)) == n
    decreases n
  {
    if n >= 10 {
      DigitsDenote(n / 10);
      var s := Digits(n);
      assert s[..|s| - 1] == Digits(n / 10);
    }
  }

  /** Every 64-bit integer written in base 10 parses back to itself. */
  lemma ParseFormatRoundTrip(n: int)
    requires MinInt64 <= n <= MaxInt64
    ensures ParseInt(FormatInt(n)) == Ok(n)
  {
    var m := if n < 0 then -n else n;
    DigitsDenote(m);
    var s := FormatInt(n);
    if n < 0 {
      assert Magnitude(s) == Digits(m);
    } else {
      assert IsDigit(Digits(m)[0]);
      assert Magnitude(s) == Digits(m);
    }
  }
}
