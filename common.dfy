/** Values shared by the three stores: nullable columns and calendar days. */
module Common {

  /** A nullable column or an absent result (SQL NULL, JavaScript null/undefined). */
  datatype Option<+T> = None | Some(value: T) {

    /** The `?? default` of JavaScript: the value when present, else `default`. */
    function GetOr(default: T): T
    {
      match this
      case Some(v) => v
      case None => default
    }
  }

  /**
   * A calendar day. The stores keep days as fixed-width, zero-padded
   * `YYYY-MM-DD` text, whose string order is the chronological order; the
   * model keeps the number YYYYMMDD, which orders the same way.
   */
  type Date = int
}
