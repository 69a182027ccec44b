/** The optional value of the source: `T | undefined`. */
module Wrappers {

  datatype Option<+T> = None | Some(value: T)
}
