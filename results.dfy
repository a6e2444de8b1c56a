/** Option and Result types for the analyzer's fallible operations, and the
    errors the analyzer reports (anyhow messages in the Rust code). */
module Results {

  datatype Option<+T> = None | Some(value: T)

  /** The ways an analysis can fail. */
  datatype Error =
    | InvalidDate(text: string)            // a date that does not parse as YYYY-MM-DD
    | FieldCount(line: string, got: nat)   // a `<count> <date>` line without exactly two fields
    | InvalidCount(text: string)           // a count that does not parse as an unsigned integer
    | InvalidYear(text: string)            // a year string that does not parse back to a number
    | NoMaximum                            // quartiles of an empty list
    | NoQuartile                           // the quantile sketch could not answer a query
    | NoDays(year: nat)                    // min/max day of a year without days

  /** A failure-compatible result, usable with `:-`. */
  datatype Result<+T> = Success(value: T) | Failure(error: Error) {
    predicate IsFailure() {
      Failure?
    }

    function PropagateFailure<U>(): Result<U>
      requires Failure?
    {
      Failure(error)
    }

    function Extract(): T
      requires Success?
    {
      value
    }
  }
}
