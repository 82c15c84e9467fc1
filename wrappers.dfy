/** Small result types shared by the other modules. */
module Wrappers {
  datatype Option<T> = None | Some(value: T)

  /** The exceptions the source throws, as values. */
  datatype Error =
    | IllegalArgument(code: int)   // IllegalArgumentException carrying the offending value
    | NullPointer                  // NullPointerException

  datatype Result<T> = Ok(value: T) | Err(error: Error)
}
