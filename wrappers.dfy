/** The optional value used for Java's nullable references and `Optional`, and for
    TypeScript's optional (`?:`) fields. */
module Wrappers {

  datatype Option<+T> = None | Some(value: T) {

    /** The value, or `default` when there is none (TypeScript's `x || default`
        for a field that is never the empty string, Java's `orElse`). */
    function GetOr(default: T): T {
      match this
      case Some(v) => v
      case None => default
    }
  }
}
