/** Failure-carrying wrappers shared by every module of the model. */
module Common {

  /** A value that may be absent: JavaScript's `undefined` from `Array.find`,
      `NaN` from `parseInt`, or an unchecked radio button. */
  datatype Option<+T> = None | Some(value: T)

  /** Either a new value or the reason an operation refused its input. */
  datatype Result<+T, +E> = Success(value: T) | Failure(error: E)
}
