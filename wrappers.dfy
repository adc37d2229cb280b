/** Optional values, results and outcomes: the model's stand-ins for Java's
    null references and for the exceptions the source throws. */
module Wrappers {

  datatype Option<+T> = None | Some(value: T)

  datatype Result<+R, +E> = Success(value: R) | Failure(error: E)

  /** The result of a `void` Java method: it returns normally or throws `error`. */
  datatype Outcome<+E> = Pass | Fail(error: E)
}
