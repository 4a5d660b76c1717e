/** A value that may be absent: the optional `detail` of a failed request. */
module Wrappers {
  datatype Option<+T> = None | Some(value: T)
}
