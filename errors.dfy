/**
 * The calculator's error type and the two wrappers the rest of the model
 * returns instead of throwing: `Option` for the failable initialisers
 * (`init?(string:)`) and `Result` for the throwing functions.
 */
module Errors {

  datatype Option<+T> = None | Some(value: T)

  /** The type named in a conversion failure (`type: Any.Type` in the source). */
  datatype ValueType = IntValue | RecordedTimeValue

  /** Why reading the scoring standards failed. */
  datatype CSVReadingFailureReason =
    | FileNotFound(fileName: string)
    | ColumnOutOfBounds(index: int)
    | InvalidData
    | DataConversionFailed(valueType: ValueType, value: string)

  datatype ACFTCalculatorError = CsvReadingFailure(reason: CSVReadingFailureReason)

  /** The outcome of a throwing operation; usable with `:-`. */
  datatype Result<+T> = Success(value: T) | Failure(error: ACFTCalculatorError) {

    predicate IsFailure() {
      Failure?
    }

    function PropagateFailure<U>(): Result<U>
      requires Failure?
    {
      Failure(error)
    }

    function Extract(): T
      requires Success?
    {
      value
    }
  }
}
