/** The optional value used wherever the service yields `undefined`, or a
    JavaScript number with no mathematical value (NaN, +/-Infinity). */
module Wrappers {

  datatype Option<+T> = None | Some(value: T) {

    /** The value, or `default` when absent: JavaScript's destructuring default. */
    function GetOr(default: T): T {
      match this
      case Some(v) => v
      case None => default
    }
  }
}
