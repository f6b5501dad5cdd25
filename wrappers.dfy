/** A nullable result and a call that may throw: `Option` stands for a C# nullable
    reference (`Product?`, `ProductDto?`), `Result` for an operation that either
    returns or throws. */
module Wrappers {

  datatype Option<+T> = None | Some(value: T)

  datatype Result<+R, +E> = Success(value: R) | Failure(error: E)
}
