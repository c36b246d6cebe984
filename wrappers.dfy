/** The absent-or-present value used where the Java code passes or returns null. */
module Wrappers {

  datatype Option<+T> = None | Some(value: T)
}
