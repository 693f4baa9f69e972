/** The optional-value datatype the model uses wherever the program
    relies on `undefined` (a missing object key, a failed `find`, an
    unparseable date). */
module Wrappers {

  datatype Option<+T> = None | Some(value: T) {

    /** The value, or `default` when there is none. */
    function GetOr(default: T): T {
      match this
      case Some(v) => v
      case None => default
    }
  }
}
