/** Failure-carrying result types shared by the scanner and the macro library. */
module Results {

  /** A value that may be absent; the scanner's "-1" and JavaScript's `NaN` become `None`. */
  datatype Option<+T> = None | Some(value: T)

  /** Either a value or an error; thrown `ParseError`s become `Failure`. */
  datatype Result<+T, +E> = Success(value: T) | Failure(error: E)
}
