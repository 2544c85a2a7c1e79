/** Failure-carrying wrappers used across the model: a JavaScript `[]` or
    `undefined` becomes `None`, a thrown error becomes `Failure`. */
module Outcomes {

  datatype Option<+T> = None | Some(value: T)

  datatype Result<+R, +E> = Success(value: R) | Failure(error: E)
}
