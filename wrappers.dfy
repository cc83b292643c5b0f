/** The optional value used wherever the source has `null` or a failure that is caught. */
module Wrappers {
  datatype Option<+T> = None | Some(value: T)
}
