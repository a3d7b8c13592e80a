/** The result of something that can fail to give a value. */
module Wrappers {
  datatype Option<+T> = None | Some(value: T)
}
