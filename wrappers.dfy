/** The optional value used wherever the tracer returns `Option<...>`. */
module Wrappers {
  datatype Option<T> = None | Some(value: T)
}
