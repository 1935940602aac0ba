/** Optional values and fallible results: Swift's `T?` and a throwing call. */
module Wrappers {

  /** Swift's `Optional`: `nil` is `None`. */
  datatype Option<+T> = None | Some(value: T) {

    /** The `??` operator: the wrapped value, or `default` for `nil`. */
    function GetOr(default: T): T {
      match this
      case Some(v) => v
      case None => default
    }
  }

  /** The outcome of a throwing call: the returned value, or the error thrown. */
  datatype Result<+R, +E> = Success(value: R) | Failure(error: E)
}
