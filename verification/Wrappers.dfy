/** The usual failure-compatible option type. */
module Wrappers {
  datatype Option<+T> = None | Some(value: T)
}
