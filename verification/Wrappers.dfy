/** What a function returns where there may be nothing to return. */
module Wrappers {
  datatype Option<+T> = None | Some(value: T)
}
