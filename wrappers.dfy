/** Result types shared by the route and gallery models. */
module Wrappers {

  datatype Option<+T> = None | Some(value: T)

  /** The value of a route handler: a payload or the error it answers with. */
  datatype Result<+T, +E> = Ok(value: T) | Err(error: E)

  /** The value of a route handler that answers only with a message. */
  datatype Outcome<+E> = Pass | Fail(error: E)
}
