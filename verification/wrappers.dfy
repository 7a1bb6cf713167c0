/** Small wrappers used by the tester model: an optional value and a result
    that is either a value or an error. */
module Wrappers {

  /** An optional value. It stands for a Java reference that may be `null`
      (`None`) when it models an argument, and for "no failure" (`None`) when
      it is the outcome of a check. */
  datatype Option<+T> = None | Some(value: T)

  /** `Failure(e)` stands for the exception or assertion failure `e`. */
  datatype Result<+R, +E> = Success(value: R) | Failure(error: E)
}
