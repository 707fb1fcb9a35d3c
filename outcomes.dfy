/** Value wrappers shared by the whole model. */
module Outcomes {

  /** A value that may be absent (`null`/`undefined` in the extension). */
  datatype Option<+T> = None | Some(value: T)

  /** How one asynchronous operation settles: its promise resolves with a
      value or rejects with an error. */
  datatype Outcome<+T, +E> = Ok(value: T) | Err(error: E)
}
