/** Failure-compatible helper datatypes: None stands for a null reference,
    Err for an exception raised by a collaborator. */
module Wrappers {
  datatype Option<+T> = None | Some(value: T)

  datatype Result<+T, +E> = Ok(value: T) | Err(error: E)
}
