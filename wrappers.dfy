/** An optional value: an absent argument or a "not found" result. */
module Wrappers {
  datatype Option<+T> = None | Some(value: T)
}
