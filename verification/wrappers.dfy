/** The optional-value type used wherever the Python code reads a key that
    may be absent (`dict.get`) or calls an engine that may raise. */
module Wrappers {

  datatype Option<+T> = None | Some(value: T) {

    /** The value, or `default` when there is none (`d.get(k, default)`). */
    function GetOr(default: T): T {
      match this
      case Some(v) => v
      case None => default
    }
  }
}
