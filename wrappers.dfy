/** Option and Result, used for absent values (JavaScript `undefined`/`null`)
    and for operations that can fail. */
module Wrappers {

  datatype Option<+T> = None | Some(value: T)

  datatype Result<+R, +E> = Success(value: R) | Failure(error: E)
}
