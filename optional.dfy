/** Optional values and JavaScript's two kinds of "missing". */
module Optional {

  /** A value that may be absent (Python `None`, a missing dictionary key). */
  datatype Option<+T> = None | Some(value: T) {

    /** The value, or `default` when absent (`d.get(k, default)`). */
    function GetOr(default: T): T {
      match this
      case Some(v) => v
      case None => default
    }
  }

  /**
   * A JavaScript value that is either `undefined`, `null` or present.
   * The two missing forms are kept apart because `x === null` tells them apart.
   */
  datatype Nullish<+T> = Undefined | Null | Present(value: T) {

    /** Optional chaining `x?.f`: `undefined` unless present. */
    function Map<U>(f: T -> Nullish<U>): Nullish<U> {
      match this
      case Present(v) => f(v)
      case _ => Undefined
    }
  }
}
