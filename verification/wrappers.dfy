/** The Option datatype used for values the platform may return as null. */
module Wrappers {

  datatype Option<+T> = None | Some(value: T)
}
