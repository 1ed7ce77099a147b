/** Option values, and the truthiness test the scraper applies to optional strings. */
module Wrappers {

  /** The conventional Some/None datatype, standing for Python's `Optional[...]`. */
  datatype Option<+T> = None | Some(value: T) {

    /** The value, or `default` when absent. */
    function GetOr(default: T): T {
      match this
      case Some(v) => v
      case None => default
    }
  }

  /** Python truthiness of an `Optional[str]`: neither None nor the empty string. */
  predicate NonEmpty(o: Option<string>) {
    o.Some? && o.value != ""
  }
}
