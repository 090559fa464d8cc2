/** The optional value used wherever the system has "present or absent":
    a JSON field that may be missing, a session that may not exist, a lookup
    that may miss. */
module Wrappers {

  datatype Option<+T> = None | Some(value: T) {

    /** The wrapped value, or `default` when absent. */
    function GetOr(default: T): T {
      match this
      case Some(v) => v
      case None => default
    }
  }
}
