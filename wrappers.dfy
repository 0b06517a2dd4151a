/** The optional-value type used where the Go code returns a value or nothing. */
module Wrappers {
  datatype Option<T> = None | Some(value: T)
}
