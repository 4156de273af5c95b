/** The absent-or-present value used where the page yields `undefined`. */
module Wrappers {
  datatype Option<+T> = None | Some(value: T)
}
