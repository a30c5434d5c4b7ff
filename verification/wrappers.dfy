/** The result type of the parsers, usable with `:-` to stop at the first malformed part. */
module Wrappers {

  /** A decoded value, or nothing when the input is malformed. */
  datatype Option<+T> = None | Some(value: T) {

    predicate IsFailure() {
      None?
    }

    function PropagateFailure<U>(): Option<U>
      requires None?
    {
      None
    }

    function Extract(): T
      requires Some?
    {
      value
    }
  }
}
