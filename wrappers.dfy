/** Small value wrappers shared by the models. */
module Wrappers {

  /** A value that may be absent: a missing attribute, a missing store key, a null lookup. */
  datatype Option<+T> = None | Some(value: T) {

    /** The wrapped value, or `default` when absent. */
    function GetOr(default: T): T {
      match this
      case Some(v) => v
      case None => default
    }
  }
}
