/** The optional-value wrapper the other modules share. */
module Wrappers {

  /** A value that may be absent (JavaScript's `undefined`, or a value of the wrong type). */
  datatype Option<+T> = None | Some(value: T)
}
