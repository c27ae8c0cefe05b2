/** Option type shared by every module of the model: `None` stands for the
    source's `null`, `undefined` and Python's `None`. */
module Wrappers {

  datatype Option<+T> = None | Some(value: T) {

    /** Returns the value held in Some, or `default` if None */
    function GetOr(default: T): T {
      match this
      case Some(v) => v
      case None => default
    }
  }
}
