/** Results of operations that may be absent or may throw. */
module Wrappers {
  datatype Option<+T> = None | Some(value: T)

  /** What the program throws, by exception type. */
  datatype Error = InvalidArgument | OutOfRange | RuntimeError

  datatype Result<+T> = Ok(value: T) | Err(error: Error)
}
