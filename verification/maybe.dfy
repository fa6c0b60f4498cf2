/** The optional value the model uses wherever the source returns `false`,
    `null`, `NaN` or an unset array slot instead of a value. */
module Maybe {

  datatype Option<+T> = None | Some(value: T) {

    /** The value held in Some, or `default` for None. */
    function GetOr(default: T): T {
      match this
      case Some(v) => v
      case None => default
    }
  }
}
