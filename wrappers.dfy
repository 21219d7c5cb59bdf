/** Python's `None`-or-value and a value-or-exception outcome, shared by
    every module of the model. */
module Wrappers {
  datatype Option<+T> = None | Some(value: T)

  /** The outcome of a call that either returns or raises; `Failure` carries
      the text of the exception (`str(e)`). */
  datatype Result<+T> = Success(value: T) | Failure(error: string)
}
