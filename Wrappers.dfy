/** The absent-or-present value used wherever the action gets `null` back. */
module Wrappers {

  datatype Option<+T> = None | Some(value: T)
}
