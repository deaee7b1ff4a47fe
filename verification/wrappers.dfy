/** The nullable values of the application (`T | null`, optional chaining,
    `??` defaults) as an explicit option type. */
module Wrappers {

  datatype Option<+T> = None | Some(value: T) {

    /** The value, or `default` when absent: JavaScript's `x ?? default`. */
    function GetOr(default: T): (r: T)
      ensures Some? ==> r == value
      ensures None? ==> r == default
    {
      match this
      case Some(v) => v
      case None => default
    }
  }

  /** JavaScript truthiness of a nullable boolean: `!!x` is true only for `true`;
      `null`, `undefined` and `false` are all falsy. */
  predicate IsTrue(b: Option<bool>)
  {
    b == Some(true)
  }
}
