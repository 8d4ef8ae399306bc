/** Failure-carrying datatypes shared by the model.
    - Option<T>: a value that may be absent (an unreadable file, a key not in the cache)
    - Result<T, E>: the value of a call that may raise E instead of returning
    - Outcome<E>: the effect of a call that returns nothing but may raise E
 */
module Wrappers {

  datatype Option<+T> = None | Some(value: T)

  datatype Result<+T, +E> = Success(value: T) | Failure(error: E)

  datatype Outcome<+E> = Pass | Fail(error: E)
}
