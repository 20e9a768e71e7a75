/** Results of operations that may come back without a value. */
module Wrappers {
  datatype Option<+T> = None | Some(value: T)
}
