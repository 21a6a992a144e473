/** The absent-or-present value used where the program tests whether a file exists. */
module Wrappers {

  datatype Option<+T> = None | Some(value: T)
}
