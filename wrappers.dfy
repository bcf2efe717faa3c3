/** Optional values: a C++ pointer that may be null, a lookup that may fail. */
module Wrappers {

  datatype Option<+T> = None | Some(value: T) {

    /** The value, or `default` when there is none. */
    function GetOr(default: T): T {
      match this
      case Some(v) => v
      case None => default
    }
  }

  /** The value as a one-element set, or the empty set. */
  function ToSet<T(==)>(o: Option<T>): set<T> {
    match o
    case Some(v) => {v}
    case None => {}
  }
}
