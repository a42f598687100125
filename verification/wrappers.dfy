/** Failure-compatible option type used by the badge reading. */
module Wrappers {

  datatype Option<+T> = None | Some(value: T)
}
