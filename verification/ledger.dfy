/** The world-state accessor the chaincode sees through its stub: a flat
    key-value store read with `GetState` and written with `PutState`. */
module Ledger {
  import opened Outcomes

  type Bytes = seq<bv8>

  /** The world state: the bytes stored under each key. */
  type Store = map<string, Bytes>

  /** One call the chaincode made on its stub, in order. */
  datatype Call = Get(key: string) | Put(key: string, value: Bytes)

  /** `stub.GetState(key)`: the stored bytes, or `None` when the read reports
      an error.  It reports one for a key that holds nothing, and whenever the
      host fails the read (`failure`), which is not the chaincode's to decide. */
  function GetState(state: Store, key: string, failure: bool): (r: Option<Bytes>)
    ensures r.Some? <==> !failure && key in state
    ensures r.Some? ==> r.value == state[key]
  {
    if !failure && key in state then Some(state[key]) else None
  }

  /** `stub.PutState(key, value)`.  Whether the host accepts the write is not
      the chaincode's to decide: `failure` is the error the host reports, if
      it reports one, and then nothing is written. */
  function PutState(state: Store, key: string, value: Bytes, failure: Option<string>): Result<Store, string> {
    match failure
    case None => Ok(state[key := value])
    case Some(e) => Err(e)
  }

  /** A sequence of stub calls that makes at most one write, and makes it
      last. */
  predicate AtMostOneWriteLast(calls: seq<Call>) {
    forall i :: 0 <= i < |calls| && calls[i].Put? ==> i == |calls| - 1
  }
}
