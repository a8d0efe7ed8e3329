/** Small value wrappers shared by the other modules. */
module Wrappers {

  /** A value that may be absent: a missing body field, an unset reference. */
  datatype Option<+T> = None | Some(value: T)
}
