/** Small failure-carrying datatypes shared by the whole model. */
module Wrappers {

  /** A value that may be absent (JavaScript `null` / `undefined`). */
  datatype Option<+T> = None | Some(value: T)

  /** The `Either` of the monet library: `Left` carries an error message,
      `Right` a successful value. */
  datatype Either<+L, +R> = Left(error: L) | Right(value: R)
}
