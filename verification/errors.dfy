/** The exceptions the dataset code raises, and a failure-compatible result
    type that stands for "returns a value or raises". */
module Errors {

  /** One constructor per exception kind the modelled code can raise. */
  datatype Error =
    | FileNotFoundError(path: string)  // a missing directory, category or image file
    | ValueError(message: string)      // `list.index` of a missing item, `str.split("")`
    | IndexError                       // a negative list index past the front
    | KeyError(key: string)            // a dictionary lookup of a missing key
    | MaskNotFound(path: string)       // the generic `Exception` raised for a missing mask

  datatype Result<+T> = Ok(value: T) | Err(error: Error) {

    predicate IsFailure() {
      Err?
    }

    function PropagateFailure<U>(): Result<U>
      requires Err?
    {
      Err(error)
    }

    function Extract(): T
      requires Ok?
    {
      value
    }
  }

  datatype Option<+T> = None | Some(value: T)
}
