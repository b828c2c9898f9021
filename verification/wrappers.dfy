/** Failure-carrying wrappers shared by the model: `Option` stands for a
    nullable TypeScript value and `Result` for a call that either returns a
    value or throws an error carrying a message. */
module Wrappers {

  datatype Option<+T> = None | Some(value: T)

  datatype Result<+R, +E> = Ok(value: R) | Err(error: E)
}
