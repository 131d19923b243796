/** Result shapes shared by every module. */
module Wrappers {

  datatype Option<+T> = None | Some(value: T)

  /** A computation that the program may abort with an exception. */
  datatype Try<+T> = Ok(value: T) | Raised
}
