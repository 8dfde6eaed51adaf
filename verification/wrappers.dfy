/** Failure-carrying results: the model's stand-in for Python's `None`
    arguments and for the exceptions the paging code can raise. */
module Wrappers {

  /** An optional value; `None` plays the part of Python's `None`. */
  datatype Option<+T> = None | Some(value: T)

  /** Either the value an operation returns or the error it raises. */
  datatype Result<+R, +E> = Success(value: R) | Failure(error: E)
}
