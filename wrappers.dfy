/** The absent-or-present value used wherever the source returns null,
    undefined or a non-finite number. */
module Wrappers {
  datatype Option<T> = None | Some(value: T)
}
