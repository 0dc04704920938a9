# Commercial-paper chaincode core, modelled in Dafny

This project models the core of a Hyperledger Fabric chaincode, `start/start.go`. The core has two parts.

- **Account lifecycle.** `createAccount` is a create-if-absent operation. It stores
  `Account{ID, Prefix: ID + "000A", CashBalance: 1000000, AssetsIds: nil}` under `"acct:" + ID`.
  The store's "no such key" signal is unreliable, so an absent key and a key that holds bytes
  ending before a complete JSON value (empty, blank, or a truncated record) both count as free;
  a truncated existing record is therefore overwritten. `GetCompany` reads an account back.
  `Invoke` and `Query` route requests to these two operations by function name.
- **CUSIP maturity suffix.** `generateCUSIPSuffix` takes an issue date (epoch milliseconds as a
  decimal string) and a tenor in days. It encodes the maturity date's month and day of month as
  two characters, using the `seventhDigit` and `eigthDigit` tables.

Modules, one per component:

| file | module | what it models |
|---|---|---|
| outcomes.dfy | `Outcomes` | `Option` and `Result`: Go's `(value, error)` returns |
| ledger.dfy | `Ledger` | the world state `map<string, seq<bv8>>`, `GetState`/`PutState`, and the record of stub calls |
| accounts.dfy | `Accounts` | `Account`, the record codec, `createAccount`, `GetCompany`, `Invoke`, `Query` |
| strconv.dfy | `Strconv` | `strconv.ParseInt(s, 10, 64)` and its inverse `FormatInt` |
| calendar.dfy | `Calendar` | proleptic Gregorian day numbers ↔ dates |
| clock.dfy | `Clock` | `time.Unix`, `Time.AddDate(0, 0, days)`, `Month()`/`Day()` in UTC |
| cusip.dfy | `Cusip` | the two code tables, `msToTime`, `generateCUSIPSuffix` |

Modelling choices:

- **Pure functions.** Every entry point is a pure function. It returns an `Outcome`, which holds
  three things: the response, the list of stub calls made (`Get(key)` / `Put(key, bytes)`), and
  the world state afterwards. With the call list, "no read or write happens" and "at most one
  write" are exact statements.
- **Record encoding.** JSON marshalling is not modelled. It is a `Codec` value with two functions:
  - `encode: Account -> Option<bytes>`, which may fail;
  - `decode: bytes -> Decoded(Account) | UnexpectedEnd | Malformed`.

  The source tells the "unexpected end" failure apart by matching the error text. The typed
  `UnexpectedEnd` outcome replaces that test. Properties that need the codec to behave require
  `RoundTrips(codec)` (decoding an encoding gives the account back) or `EmptyIsUnexpectedEnd(codec)`.
- **Reads and writes.** A read reports an error when the key is absent or when the host fails it;
  the host's failure is an input, `getFailure`. A write succeeds unless the host refuses it; the
  refusal is an input, `putFailure`. Because `createAccount` sends every read error to its write
  branch, a failed read of a key that holds an account overwrites that account
  (`Accounts.FailedReadOverwrites`).
- **Time.** The issue instant is computed the way Go does it:
  1. truncating `/` and `%` by 1000;
  2. `time.Unix`, which normalises a negative nanosecond part into the previous second;
  3. `AddDate`, which rebuilds the date through `time.Date`'s day overflow.

  `FromMillis` and `Clock.AddDays` prove that the result is the UTC day `floor(ms / 86400000) + days`.
  `Calendar` proves that its day-number ↔ date conversion is a bijection onto valid dates.
- **Determinism.** `GenerateCUSIPSuffix` is a Dafny function, so equal inputs always give equal suffixes.

Behaviour of the source worth noting:

- `createAccount` does not reject an empty id.
- `seventhDigit` has 24 entries; keys 13..24 continue the alphabet, skipping O.
- A missing table key yields the empty string (Go's map zero value).
  `Cusip.DateCodeWellFormed` proves that no valid date reaches a missing key.
- `Query` without arguments indexes `args[0]` and panics. The model requires at least one argument.

## Model

| member | source | states |
|---|---|---|
| Accounts.CreateAccount | start/start.go:50-110 | Wrong argument count or a record that does not encode gives an error with no stub call and an unchanged store. Otherwise the first call is the one read, and any further call is the one write, all on `"acct:" + id`. Success holds exactly when: the record encodes, the read fails or finds no account under the key (absent, or bytes that decode as "unexpected end"), and the host accepts the write. Success leaves the store updated only at that key, to the encoded new account. Failure leaves the store unchanged. |
| Accounts.CreateAccountErrors | start/start.go:69-107 | When the read succeeds, a decodable existing record gives `AlreadyExists` after one read and no write. Any other decode failure gives `UnreadableExisting` and no write. A refused write gives `PutFailed`, never success, and the store is unchanged. |
| Accounts.CreateTwiceFails | start/start.go:69-95 | Creation is not idempotent: creating the same id again after a success fails with `AlreadyExists`, makes one read, and leaves the store unchanged. |
| Accounts.AbsentAndEmptyAgree | start/start.go:69-101 | With JSON-like decoding of empty input, a key holding empty bytes and an absent key give the same response, the same calls and, on success, the same resulting store. |
| Accounts.GetCompany | start/start.go:112-126 | An absent key or a failed read gives `AccountNotFound`. Bytes that do not decode give `UnreadableAccount`. Otherwise the result is exactly the decoded account. |
| Accounts.CreateThenGet | start/start.go:57-63 | After a successful `createAccount([id])`, `GetCompany(id)` with a served read returns the account with that id, prefix `id + "000A"`, balance 1000000 and no assets. |
| Accounts.Invoke | start/start.go:141-149 | `"createAccount"` behaves exactly as `createAccount`. Any other name gives `UnknownFunction` with no stub call and an unchanged store. |
| Accounts.Query | start/start.go:151-179 | A query never writes and reads once. `GetCompany` succeeds exactly when the lookup succeeds and the account re-encodes, returning those bytes; a lookup error is passed through unchanged. Any other name returns the raw bytes at `args[0]`, or an error if the key is absent or the read fails. |
| Accounts.CreateThenQuery | start/start.go:151-166 | After a successful creation, when the host serves the reads, the `GetCompany` query and a raw query of `"acct:" + id` both return exactly the stored bytes. |
| Strconv.ScanDigits | start/start.go:28 | The base-10 digit loop succeeds exactly when the rest is all digits and the value fits 64 unsigned bits. It returns that value. A digit-only string fails only with a range error. |
| Strconv.ParseInt | start/start.go:28-31 | Succeeds exactly on an optional sign followed by at least one digit, whose signed value lies in the int64 range. Returns that value. A well-formed numeral fails only with `ErrRange`. |
| Strconv.ParseFormatRoundTrip | start/start.go:28 | Every int64 written in base 10 parses back to itself, so every such issue date is accepted. |
| Clock.Unix | start/start.go:33 | `time.Unix` normalises the nanoseconds into [0, 1e9) without changing the instant. |
| Cusip.FromMillis | start/start.go:33 | With Go's truncating `/` and `%`, the instant is second `floor(ms/1000)`, nanosecond `(ms mod 1000)·1e6`, on UTC day `floor(ms/86400000)`. |
| Cusip.MsToTime | start/start.go:27-34 | Fails exactly when the parse fails, with the parse error. Otherwise the instant is second `floor(ms/1000)` with nanosecond `(ms mod 1000)·1e6`, on UTC day `floor(ms/86400000)`. |
| Accounts.EmptyKeyUnreadable | start/start.go:112-123 | `GetCompany` has no "unexpected end" branch: a key holding empty bytes gives `UnreadableAccount`, not `AccountNotFound`, both directly and through the `GetCompany` query. |
| Accounts.FailedReadOverwrites | start/start.go:69-101 | A failed read of a key that holds an account leads `createAccount` to succeed and replace it with a fresh account (balance 1000000, no assets); the stored bytes change whenever the old account differed. |
| Clock.AddDays | start/start.go:42 | `AddDate(0, 0, days)` through `time.Date`'s day overflow gives the same clock time exactly `days` days later. |
| Calendar.CivilFromDays | start/start.go:43-44 | The month and day read off any instant form a valid Gregorian date: month 1..12, day within the month. |
| Calendar.CivilRoundTrip | start/start.go:42-44 | Counting the named date back gives the day number it came from. |
| Calendar.DaysRoundTrip | start/start.go:42-44 | Naming the day number of a valid date gives the date back, so day numbers and dates correspond one to one. |
| Cusip.GenerateCUSIPSuffix | start/start.go:36-48 | Fails exactly when the issue date does not parse, with the parse error. Otherwise the suffix is the month code then the day code of the UTC date `floor(ms/86400000) + days`. It has two characters, neither I nor O. |
| Cusip.DateCodeWellFormed | start/start.go:46 | For every valid date both map lookups hit a key. The suffix is the two table entries and has length 2 with no I or O. |
| Cusip.TablesWellFormed | start/start.go:220-279 | The tables have 24 and 31 entries. Each is one character, none is I or O, and both tables are injective. Month 2 → B, month 12 → M, day 14 → E, day 31 → X. |
| Cusip.IncreasingCodesInjective | start/start.go:220-279 | A table of strictly increasing one-character codes gives different keys different codes. |
| Cusip.MidFebruaryExample | start/start.go:36-48 | 2024-01-15 plus 30 days is 2024-02-14, giving suffix "BE". |
| Cusip.LastOfDecemberExample | start/start.go:36-48 | 2024-12-01 plus 30 days is 2024-12-31, giving suffix "MX". |
| Cusip.MillisecondBeforeMidnightExample | start/start.go:33-44 | One millisecond before 2024-01-15 is still 2024-01-14, so the suffix for 30 days is "BD". |
| Cusip.NotANumberExample | start/start.go:37-40 | `"not-a-number"` gives a syntax error and no suffix. |

## Left out

- `main`/`shim.Start` and all `fmt.Println` logging: process bootstrap and console output.
- `Init`, the best-effort write of an empty `PaperKeys` list whose error is ignored: glue outside the account and CUSIP logic.
- The `CP`, `Owner` and `Transaction` types: declared but used by no operation.
- JSON mechanics: encoding and decoding are the abstract `Codec`, and the error-text match on "unexpected end" is the typed `UnexpectedEnd` outcome.
- `CashBalance` as a float: it only ever holds 1000000, modelled as an integer.
- Local time zone: `time.Unix` yields local time in the source. The model reads dates in UTC, which can move the maturity day near midnight in other zones.
- Hosts that serve an absent key as empty bytes (instead of a read error): the model reports absence as a read error. For `createAccount` the two agree, through the `UnexpectedEnd` branch (`Accounts.AbsentAndEmptyAgree`). `GetCompany` and its query have no such branch, so on such a host an id never created is reported as `UnreadableAccount` rather than `AccountNotFound` (`Accounts.EmptyKeyUnreadable`).
- The text of a host's read error: `getFailure` is a flag, because `createAccount` and `GetCompany` discard the error; the generic `Query` reports `ReadFailed(key)` instead of passing the host's error text through.
- Go's 64-bit arithmetic inside `time.Date`: day counts are unbounded, so tenors large enough to overflow Go's internal seconds count (more than about 10^14 days) are not modelled wrapping.
- Strconv.ParseInt: for a string with both a stray character and a 64-bit overflow, the error kind is whichever the left-to-right scan meets first (as in Go). The contract states the kind only for well-formed numerals.
- The generic `Query` branch and the `GetCompany` branch with an empty argument list panic in the source. `Accounts.Query` requires at least one argument instead.
