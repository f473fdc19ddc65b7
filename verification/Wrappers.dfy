/** The two failure-compatible types the rest of the model uses. */
module Wrappers {
  /** A value that may be missing. */
  datatype Option<+T> = None | Some(value: T)

  /** What a fallible step gives back. Why it failed is text in the source and is not modelled. */
  datatype Result<+T> = Err | Ok(value: T) {
    predicate IsFailure() {
      Err?
    }

    function PropagateFailure<U>(): Result<U>
      requires Err?
    {
      Err
    }

    function Extract(): T
      requires Ok?
    {
      value
    }
  }
}
