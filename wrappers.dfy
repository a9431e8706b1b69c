/** The nullable values of the application, as an explicit Option. */
module Wrappers {
  datatype Option<+T> = None | Some(value: T)
}
