/** The Some/None datatype used for values that may be absent: an option the
    caller did not supply, or a line of configuration text that yields no entry. */
module Optional {

  datatype Option<+T> = None | Some(value: T) {

    /** The carried value, or `default` when there is none. */
    function GetOr(default: T): T {
      match this
      case Some(v) => v
      case None => default
    }
  }
}
