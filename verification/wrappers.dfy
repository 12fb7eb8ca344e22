/** Optional values: the model's rendering of Swift's `T?`. */
module Wrappers {

  /** `None` is Swift's `nil`; `Some(v)` is a present value. */
  datatype Option<+T> = None | Some(value: T) {

    /** Swift's nil-coalescing `x ?? default`. */
    function GetOr(default: T): T {
      match this
      case Some(v) => v
      case None => default
    }
  }
}
