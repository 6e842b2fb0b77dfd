/** Optional values, used wherever the modelled code can come back empty-handed:
    a header that is absent, a body that cannot be read, a reply that does not parse. */
module Wrappers {

  datatype Option<+T> = None | Some(value: T) {

    /** The wrapped value, or `default` when there is none. */
    function GetOr(default: T): T {
      match this
      case Some(v) => v
      case None() => default
    }
  }
}
