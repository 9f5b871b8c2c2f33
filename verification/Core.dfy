/** Shared result types and the error codes of crates/nova-core/src/error.rs that the model can reach. */
module Core {

  datatype Option<+T> = None | Some(value: T)

  datatype ErrorCode =
    | DocumentAlreadyExists
    | IndexNotFound
    | InvalidQuery
    | ParseError
    | TypeError
    | StorageError
    | WalCorrupted
    | TornWriteDetected
    | ChecksumMismatch
    | ProtocolViolation
    | FrameTooLarge
    | Panicked  // not an error code: stands for a Rust panic

  /** `nova_core::error::Result`; the message and details of an error are not modelled. */
  datatype Result<+T> = Ok(value: T) | Err(code: ErrorCode) {
    predicate IsFailure() {
      Err?
    }

    function PropagateFailure<U>(): Result<U>
      requires Err?
    {
      Err(code)
    }

    function Extract(): T
      requires Ok?
    {
      value
    }
  }

  /** Where a list has an element. */
  function IndexOf<T(==)>(xs: seq<T>, x: T): (i: nat)
    requires x in xs
    ensures i < |xs| && xs[i] == x
  {
    if xs[0] == x then 0 else 1 + IndexOf(xs[1..], x)
  }
}
