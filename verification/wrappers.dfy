/** The optional value used wherever the application stores or returns Python's `None`. */
module Wrappers {

  /** `None` stands for Python's `None`; `Some(v)` for a present value. */
  datatype Option<+T> = None | Some(value: T) {

    /** The value when present, otherwise `default`. */
    function GetOr(default: T): T {
      match this
      case Some(v) => v
      case None => default
    }
  }
}
