/** Shared result types. */
module Base {

  datatype Option<+T> = None | Some(value: T)

  datatype Result<+T, +E> = Ok(value: T) | Err(error: E)

  /** The error codes (`errc`) the modelled code returns. */
  datatype Errc =
    | Canceled
    | EndReached
    | OutOfCapacity
    | ResourceUnavailable
    | NotFound
    | Failed
    | OneOrMoreOpsFailed
    | Timeout
    | SizeMismatch
    | InvalidSize
    | InvalidInput
    | TypeMismatch
    | BadNumCast
}
