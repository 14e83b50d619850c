/** The optional value used throughout the model: Go's nil pointers, "comma ok"
    results and error returns. */
module Wrappers {
  datatype Option<+T> = None | Some(value: T)
}
