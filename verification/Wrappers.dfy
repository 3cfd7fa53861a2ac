/** The failure-compatible results shared by every component. */
module Wrappers {

  datatype Option<+T> = None | Some(value: T)

  /** Either a value or an error; error texts are not modelled. */
  datatype Result<+T> = Ok(value: T) | Err {

    predicate IsFailure() {
      Err?
    }

    function PropagateFailure<U>(): Result<U>
      requires Err?
    {
      Err
    }

    function Extract(): T
      requires Ok?
    {
      value
    }
  }
}
