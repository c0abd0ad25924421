/** Failure-carrying values shared by every module of the model. */
module Wrappers {

  /** A value that may be absent (`undefined` / `None` / a missing key in the source). */
  datatype Option<+T> = None | Some(value: T)

  /** The `Result<T, E>` of the canisters, and the `{Ok: ...} | {Err: ...}` of their JavaScript callers. */
  datatype Result<+T, +E> = Ok(value: T) | Err(error: E)
}
