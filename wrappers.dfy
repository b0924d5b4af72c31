/** Failure-carrying results and the kinds of error the record model reports.
    The source attaches human-readable context to each error as it travels up;
    only the kind of the error is kept here. */
module Wrappers {

  datatype Option<+T> = None | Some(value: T)

  /** Every way an operation of the core can fail. */
  datatype Error =
    | NotAString                  // a column of type String was given another variant
    | NotAnUnsigned64             // a column of type Unsigned64 was given another variant
    | NotABoolean                 // a column of type Boolean was given another variant
    | NotAFloat64                 // a column of type Float64 was given another variant
    | LengthMismatch              // an entry does not have one value per column
    | KeyOutOfBounds(index: nat)  // a numeric column index past the end of the entry
    | UnknownKey(name: string)    // no column carries this name
    | UnknownTable(name: string)  // the table is not in the table data map

  /** `Result<T>` of the source: a value or an error. */
  datatype Result<+T> = Ok(value: T) | Err(error: Error)

  /** `Result<()>` of the source: success carries nothing. */
  datatype Outcome = Pass | Fail(error: Error)
}
