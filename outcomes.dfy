/** Optional values and results shared by every module of the model. */
module Outcomes {

  datatype Option<T> = None | Some(value: T)

  /** The outcome of a handler: a value, or the error the handler responds with. */
  datatype Result<T, E> = Success(value: T) | Failure(error: E)
}
