/** Option and Result: the model's rendering of java.util.Optional and of
    methods that either return a value or throw. */
module Wrappers {

  /** `None` stands for an empty Optional (and, for a name argument, for null). */
  datatype Option<+T> = None | Some(value: T)

  /** `Failure` stands for an exception thrown by a finder operation. */
  datatype Result<+R, +E> = Success(value: R) | Failure(error: E)
}
