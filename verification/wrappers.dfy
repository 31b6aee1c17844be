/** The two answer shapes of the repository: an optional value (Java `Optional`, or a field
    that may be `null`) and a value-or-exception result. */
module Wrappers {

  /** `None` stands for Java `null` / an empty `Optional`. */
  datatype Option<+T> = None | Some(value: T)

  /** `Err` stands for an exception thrown out of an operation. */
  datatype Result<+T, +E> = Ok(value: T) | Err(error: E)
}
