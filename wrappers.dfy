/** Optional values: a field absent from the input record, a formatting
    attribute left unset in the document. */
module Wrappers {

  datatype Option<T> = None | Some(value: T) {

    /** Python's `d.get(key, default)` on a field that may be absent. */
    function GetOr(default: T): T {
      match this
      case Some(v) => v
      case None => default
    }
  }
}
