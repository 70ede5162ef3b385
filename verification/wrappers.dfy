/** The optional-value datatype used throughout the model: a missing room,
    a lookup that finds nothing, a gesture that is rejected. */
module Wrappers {

  datatype Option<+T> = None | Some(value: T) {

    /** The encapsulated value, or `default` when there is none. */
    function GetOr(default: T): T {
      match this
      case Some(v) => v
      case None => default
    }
  }
}
