/** Option/Result types standing in for the C++ sentinels and exceptions of the selection engine. */
module Wrappers {

  datatype Option<T> = None | Some(value: T)

  /** The two `std::` exception classes the headers throw. */
  datatype Error = InvalidArgument | OutOfRange

  /** A value-returning operation that may throw. */
  datatype Result<T> = Ok(value: T) | Err(error: Error)

  /** A `void` operation that may throw. */
  datatype Status = Done | Failed(error: Error)
}
