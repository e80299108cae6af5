/** The two outcome shapes the model uses: an optional value (a Go pointer
    that may be nil) and a value-or-error pair (Go's `(T, error)` return). */
module Wrappers {

  datatype Option<+T> = None | Some(value: T)

  datatype Result<+T, +E> = Success(value: T) | Failure(error: E)
}
