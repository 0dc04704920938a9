/** Account records of `start/start.go`: create-if-absent (`createAccount`),
    lookup (`GetCompany`) and the `Invoke` and `Query` entry points that
    route to them. */
module Accounts {
  import opened Outcomes
  import opened Ledger

  const AccountPrefix: string := "acct:"
  const PrefixSuffix: string := "000A"
  const InitialCashBalance: int := 1000000

  /** `Account`.  The cash balance is a float in the source; it only ever
      holds the whole number it is created with. */
  datatype Account = Account(id: string, prefix: string, cashBalance: int, assetIds: seq<string>)

  /** What decoding stored bytes as an `Account` can come to: an account, the
      "unexpected end of input" failure that bytes ending before a complete
      value give (empty, blank, or a truncated record), or any other failure. */
  datatype DecodeOutcome = Decoded(account: Account) | UnexpectedEnd | Malformed

  /** The record encoding (JSON in the source), given as its two directions.
      Encoding may fail; the model only assumes what `RoundTrips` and
      `EmptyIsUnexpectedEnd` say about it where a property needs it. */
  datatype Codec = Codec(encode: Account -> Option<Bytes>, decode: Bytes -> DecodeOutcome)

  /** Decoding what was encoded gives the account back. */
  ghost predicate RoundTrips(codec: Codec) {
    forall a :: codec.encode(a).Some? ==> codec.decode(codec.encode(a).value) == Decoded(a)
  }

  /** Empty input fails with the "unexpected end" error, as JSON's does. */
  predicate EmptyIsUnexpectedEnd(codec: Codec) {
    codec.decode([]) == UnexpectedEnd
  }

  /** The errors the operations return, one per `errors.New` of the source. */
  datatype AccountError =
    | WrongArgCount                           // createAccount without exactly one argument
    | MarshalFailed(id: string)               // the account could not be encoded
    | PutFailed(id: string, cause: string)    // the host refused the write
    | UnreadableExisting(id: string)          // stored bytes neither decode nor end before a complete value
    | AlreadyExists(id: string)               // an account is stored under the key already
    | AccountNotFound(id: string)             // GetCompany: the read failed
    | UnreadableAccount(id: string)           // GetCompany: the stored bytes do not decode
    | UnknownFunction(name: string)           // Invoke: no such function
    | ReadFailed(key: string)                 // generic Query: the read failed

  /** What an entry point returns, which stub calls it made, and the world
      state it leaves behind. */
  datatype Outcome = Outcome(response: Result<Bytes, AccountError>, calls: seq<Call>, state: Store)

  /** The store key of account `id`. */
  function AccountKey(id: string): string {
    AccountPrefix + id
  }

  /** The account `createAccount` builds for `id`. */
  function NewAccount(id: string): Account {
    Account(id, id + PrefixSuffix, InitialCashBalance, [])
  }

  /** No account is recorded under `key`: the read fails, or it yields bytes
      that end before a complete record (empty, blank, or a truncated record). */
  predicate NoAccountAt(codec: Codec, state: Store, key: string) {
    key !in state || codec.decode(state[key]) == UnexpectedEnd
  }

  /** Writes the new record: the branch taken both when the read fails and
      when the stored bytes end before a complete value. */
  function Initialize(state: Store, putFailure: Option<string>, id: string, bytes: Bytes): Outcome {
    var key := AccountKey(id);
    match PutState(state, key, bytes, putFailure)
    case Ok(written) => Outcome(Ok([]), [Get(key), Put(key, bytes)], written)
    case Err(cause) => Outcome(Err(PutFailed(id, cause)), [Get(key), Put(key, bytes)], state)
  }

  /** `createAccount`: stores a fresh account for `args[0]` unless one is
      already recorded under its key. */
  function CreateAccount(codec: Codec, state: Store, getFailure: bool, putFailure: Option<string>, args: seq<string>): (o: Outcome)
    // wrong number of arguments: an error, and the stub is not touched
    ensures |args| != 1 ==> o == Outcome(Err(WrongArgCount), [], state)
    // at most one read, then at most one write
    ensures |o.calls| <= 2 && AtMostOneWriteLast(o.calls)
    // a record that fails to encode is reported before the store is touched
    ensures |args| == 1 && codec.encode(NewAccount(args[0])).None? ==> o.calls == []
    // otherwise the first call is the read of the account's key
    ensures |args| == 1 && codec.encode(NewAccount(args[0])).Some? ==>
      |o.calls| >= 1 && o.calls[0] == Get(AccountKey(args[0]))
    // and every later call is a write
    ensures forall i :: 1 <= i < |o.calls| ==> o.calls[i].Put?
    // success exactly when there is one argument, the record encodes, the
    // read fails or finds no account under the key, and the host accepts the write
    ensures o.response.Ok? <==>
      && |args| == 1
      && codec.encode(NewAccount(args[0])).Some?
      && (getFailure || NoAccountAt(codec, state, AccountKey(args[0])))
      && putFailure.None?
    // on success the store changes at the account's key only, to the encoded account
    ensures o.response.Ok? ==>
      o.response.value == [] && o.state == state[AccountKey(args[0]) := codec.encode(NewAccount(args[0])).value]
    // on failure nothing changes
    ensures o.response.Err? ==> o.state == state
    // every call the operation makes is on the account's key
    ensures forall i :: 0 <= i < |o.calls| ==> o.calls[i].key == AccountKey(args[0])
  {
    if |args| != 1 then
      Outcome(Err(WrongArgCount), [], state)
    else
      var id := args[0];
      match codec.encode(NewAccount(id))
      case None => Outcome(Err(MarshalFailed(id)), [], state)
      case Some(bytes) =>
        var key := AccountKey(id);
        match GetState(state, key, getFailure)
        case None => Initialize(state, putFailure, id, bytes)
        case Some(existing) =>
          match codec.decode(existing)
          case UnexpectedEnd => Initialize(state, putFailure, id, bytes)
          case Malformed => Outcome(Err(UnreadableExisting(id)), [Get(key)], state)
          case Decoded(_) => Outcome(Err(AlreadyExists(id)), [Get(key)], state)
  }

  /** `GetCompany`: the account stored under `id`'s key. */
  function GetCompany(codec: Codec, state: Store, getFailure: bool, id: string): (r: Result<Account, AccountError>)
    ensures r.Ok? <==> !getFailure && AccountKey(id) in state && codec.decode(state[AccountKey(id)]).Decoded?
    ensures r.Ok? ==> codec.decode(state[AccountKey(id)]) == Decoded(r.value)
    ensures getFailure || AccountKey(id) !in state ==> r == Err(AccountNotFound(id))
    ensures !getFailure && AccountKey(id) in state && r.Err? ==> r == Err(UnreadableAccount(id))
  {
    match GetState(state, AccountKey(id), getFailure)
    case None => Err(AccountNotFound(id))
    case Some(bytes) =>
      match codec.decode(bytes)
      case Decoded(account) => Ok(account)
      case _ => Err(UnreadableAccount(id))
  }

  /** `Invoke`: only `createAccount` is routed; any other name is an error
      that touches nothing. */
  function Invoke(codec: Codec, state: Store, getFailure: bool, putFailure: Option<string>, name: string, args: seq<string>): (o: Outcome)
    ensures name == "createAccount" ==> o == CreateAccount(codec, state, getFailure, putFailure, args)
    ensures name != "createAccount" ==> o == Outcome(Err(UnknownFunction(name)), [], state)
  {
    if name == "createAccount" then CreateAccount(codec, state, getFailure, putFailure, args)
    else Outcome(Err(UnknownFunction(name)), [], state)
  }

  /** `Query`: `GetCompany` returns the account re-encoded; any other name
      reads `args[0]` as a raw key.  A query reads once and never writes. */
  function Query(codec: Codec, state: Store, getFailure: bool, name: string, args: seq<string>): (o: Outcome)
    requires |args| >= 1
    ensures o.state == state
    ensures o.calls == [Get(if name == "GetCompany" then AccountKey(args[0]) else args[0])]
    ensures name == "GetCompany" ==>
      var company := GetCompany(codec, state, getFailure, args[0]);
      && (o.response.Ok? <==> company.Ok? && codec.encode(company.value).Some?)
      && (o.response.Ok? ==> o.response.value == codec.encode(company.value).value)
      && (company.Err? ==> o.response == Err(company.error))
    ensures name != "GetCompany" ==>
      (o.response.Ok? <==> !getFailure && args[0] in state) && (o.response.Ok? ==> o.response.value == state[args[0]])
  {
    if name == "GetCompany" then
      var calls := [Get(AccountKey(args[0]))];
      match GetCompany(codec, state, getFailure, args[0])
      case Err(e) => Outcome(Err(e), calls, state)
      case Ok(company) =>
        match codec.encode(company)
        case None => Outcome(Err(MarshalFailed(args[0])), calls, state)
        case Some(bytes) => Outcome(Ok(bytes), calls, state)
    else
      match GetState(state, args[0], getFailure)
      case None => Outcome(Err(ReadFailed(args[0])), [Get(args[0])], state)
      case Some(bytes) => Outcome(Ok(bytes), [Get(args[0])], state)
  }

  /** Which error each failing creation reports: when the read succeeds, an
      existing record is not overwritten and neither is an unreadable one;
      a refused write is reported rather than passed off as success. */
  lemma CreateAccountErrors(codec: Codec, state: Store, getFailure: bool, putFailure: Option<string>, id: string)
    requires codec.encode(NewAccount(id)).Some?
    ensures var o := CreateAccount(codec, state, getFailure, putFailure, [id]);
      var key := AccountKey(id);
      && (!getFailure && key in state && codec.decode(state[key]).Decoded? ==> o == Outcome(Err(AlreadyExists(id)), [Get(key)], state))
      && (!getFailure && key in state && codec.decode(state[key]) == Malformed ==> o == Outcome(Err(UnreadableExisting(id)), [Get(key)], state))
      && ((getFailure || NoAccountAt(codec, state, key)) && putFailure.Some? ==>
            o.response == Err(PutFailed(id, putFailure.value)) && o.state == state
            && o.calls == [Get(key), Put(key, codec.encode(NewAccount(id)).value)])
  {
  }

  /** The record a successful creation stores reads back as the account
      built for `id`: its own id, prefix `id + "000A"`, a cash balance of
      1000000 and no assets. */
  lemma CreateThenGet(codec: Codec, state: Store, getFailure: bool, putFailure: Option<string>, id: string)
    requires RoundTrips(codec)
    requires CreateAccount(codec, state, getFailure, putFailure, [id]).response.Ok?
    ensures var company := GetCompany(codec, CreateAccount(codec, state, getFailure, putFailure, [id]).state, false, id);
      && company == Ok(NewAccount(id))
      && company.value.id == id && company.value.prefix == id + "000A"
      && company.value.cashBalance == 1000000 && company.value.assetIds == []
  {
    var bytes := codec.encode(NewAccount(id)).value;
    assert codec.decode(bytes) == Decoded(NewAccount(id));
  }

  /** After a successful creation, the `GetCompany` query answers with the
      very bytes that were stored, and so does a raw query of the key, when
      the host serves those reads. */
  lemma CreateThenQuery(codec: Codec, state: Store, getFailure: bool, putFailure: Option<string>, id: string)
    requires RoundTrips(codec)
    requires CreateAccount(codec, state, getFailure, putFailure, [id]).response.Ok?
    ensures var after := CreateAccount(codec, state, getFailure, putFailure, [id]).state;
      && Query(codec, after, false, "GetCompany", [id]).response == Ok(after[AccountKey(id)])
      && Query(codec, after, false, "GetState", [AccountKey(id)]).response == Ok(after[AccountKey(id)])
  {
    CreateThenGet(codec, state, getFailure, putFailure, id);
  }

  /** Creation is not idempotent: creating the same account again fails with
      `AlreadyExists` and leaves the store as the first creation left it. */
  lemma CreateTwiceFails(codec: Codec, state: Store, getFailure: bool, first: Option<string>, second: Option<string>, id: string)
    requires RoundTrips(codec)
    requires CreateAccount(codec, state, getFailure, first, [id]).response.Ok?
    ensures var after := CreateAccount(codec, state, getFailure, first, [id]).state;
      CreateAccount(codec, after, false, second, [id]) == Outcome(Err(AlreadyExists(id)), [Get(AccountKey(id))], after)
  {
    var bytes := codec.encode(NewAccount(id)).value;
    assert codec.decode(bytes) == Decoded(NewAccount(id));
  }

  /** A key that holds empty bytes and a key that holds nothing are the same
      to `createAccount`: the same response and calls, and on success both
      get the new record. */
  lemma AbsentAndEmptyAgree(codec: Codec, state: Store, getFailure: bool, putFailure: Option<string>, id: string)
    requires EmptyIsUnexpectedEnd(codec)
    ensures var key := AccountKey(id);
      var empty := CreateAccount(codec, state[key := []], getFailure, putFailure, [id]);
      var absent := CreateAccount(codec, state - {key}, getFailure, putFailure, [id]);
      && empty.response == absent.response
      && empty.calls == absent.calls
      && (empty.response.Ok? ==> empty.state == absent.state)
  {
    var key := AccountKey(id);
    if codec.encode(NewAccount(id)).Some? && putFailure.None? {
      var bytes := codec.encode(NewAccount(id)).value;
      assert state[key := []][key := bytes] == (state - {key})[key := bytes];
    }
  }

  /** `GetCompany` has no "unexpected end" branch: on a host that serves an
      absent key as empty bytes, an id never created is reported as an
      unreadable account, not as a missing one, and the query says the same. */
  lemma EmptyKeyUnreadable(codec: Codec, state: Store, id: string)
    requires EmptyIsUnexpectedEnd(codec)
    ensures var stored := state[AccountKey(id) := []];
      && GetCompany(codec, stored, false, id) == Err(UnreadableAccount(id))
      && Query(codec, stored, false, "GetCompany", [id]).response == Err(UnreadableAccount(id))
  {
  }

  /** A failed read sends `createAccount` to the write branch whatever the key
      holds: an account already recorded there is replaced by a fresh one,
      losing its balance and assets. */
  lemma FailedReadOverwrites(codec: Codec, state: Store, id: string, existing: Account)
    requires RoundTrips(codec)
    requires AccountKey(id) in state && codec.decode(state[AccountKey(id)]) == Decoded(existing)
    requires codec.encode(NewAccount(id)).Some?
    ensures var o := CreateAccount(codec, state, true, None, [id]);
      && o.response == Ok([])
      && GetCompany(codec, o.state, false, id) == Ok(NewAccount(id))
      && (existing != NewAccount(id) ==> o.state[AccountKey(id)] != state[AccountKey(id)])
  {
    var bytes := codec.encode(NewAccount(id)).value;
    assert codec.decode(bytes) == Decoded(NewAccount(id));
  }
}
