/** The optional value used wherever the analyser stores a Java reference
    that may be null (a nullable Boolean, a missing containing class, a
    null statement handed to `add`). */
module Options {

  datatype Option<+T> = None | Some(value: T) {

    /** Returns the wrapped value, or `default` when there is none. */
    function GetOr(default: T): (r: T)
      ensures Some? ==> r == value
      ensures None? ==> r == default
    {
      match this
      case Some(v) => v
      case None => default
    }
  }
}
