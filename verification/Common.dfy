/** Results, errors and limits shared by every layer. */
module Common {

  datatype Option<+T> = None | Some(value: T)

  datatype Result<+T> = Ok(value: T) | Err(error: Error)

  /** Why a decode failed. */
  datatype DecodeReason = Truncated | BadLength | IndefiniteLength | UnexpectedTag | BadValue | NotAscii

  /** The configured bound that was exceeded. */
  datatype Bound =
    | MaxDepth
    | MaxDatasetMembers
    | MaxPrimitiveLen
    | MaxEntries
    | MaxLen
    | NameListContinuations

  datatype Error =
    | Decode(reason: DecodeReason, offset: nat)
    | LimitExceeded(bound: Bound, value: nat)
    | Encode
    | InvalidReference
    | InvalidValue
    | Io
    | Denied
    | NotFound
    | DataAccess(code: int)
    | ControlRejected(addCause: int)

  /** The limits the `Data` decoder enforces. */
  datatype Limits = Limits(maxDepth: nat, maxDatasetMembers: nat, maxPrimitiveLen: nat)
}
