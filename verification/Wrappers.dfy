/** What the other modules share. */
module Wrappers {

  /** A value that may be absent: an undefined, a null, or the outcome of a call that threw. */
  datatype Option<+T> = None | Some(value: T)
}
