/** Option and Result, and the exceptions the modelled functions raise. */
module Wrappers {

  /** `None` stands for a missing value (a NaN in the series). */
  datatype Option<+T> = None | Some(value: T)

  /** One constructor per exception the modelled code can raise. */
  datatype Error =
    | NotDatetimeIndex       // TypeError: the series index is not a DatetimeIndex
    | UnknownVariable        // ValueError: no unit is defined for the variable name
    | InvalidStudySign       // ValueError: the comparison sign is neither ">" nor "<"
    | EmptyTarget            // IndexError: the first date of an empty target index
    | DropOutOfBounds        // IndexError: deleting position 59 of fewer than 60 values
    | LengthMismatch         // ValueError: values and the 1..365 index differ in length
    | MissingDay(day: int)   // KeyError: a day-of-year absent from the climatology
    | NotIdenticallyLabeled  // ValueError: comparing series with different indexes
    | UnboundClimatology     // UnboundLocalError: no branch assigned the result

  datatype Result<+T> = Ok(value: T) | Err(error: Error) {
    predicate IsFailure() {
      Err?
    }

    function PropagateFailure<U>(): Result<U>
      requires Err?
    {
      Err(error)
    }

    function Extract(): T
      requires Ok?
    {
      value
    }
  }
}
