/** An optional value: what a dictionary lookup or a parse yields. */
module Options {

  datatype Option<T> = None | Some(value: T) {

    /** The value if there is one, otherwise `default` (JavaScript's `x || default`
        for a lookup whose stored values are never falsy). */
    function GetOr(default: T): T {
      match this
      case Some(v) => v
      case None => default
    }
  }
}
