/** Failure-carrying results shared by the other modules. */
module Wrappers {

  datatype Option<+T> = None | Some(value: T)

  /** `Err` carries the Go `error` text (or a description of a runtime panic). */
  datatype Result<+T> = Ok(value: T) | Err(msg: string)
}
