/** Option, Result and Outcome: the model's stand-ins for Java's null references and
    for the IllegalArgumentException / RuntimeException paths of the source. */
module Wrappers {

  datatype Option<+T> = None | Some(value: T)

  datatype Result<+R, +E> = Success(value: R) | Failure(error: E)

  datatype Outcome<+E> = Pass | Fail(error: E)
}
