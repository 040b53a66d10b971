/** Failure-compatible optional values, used for every read, listing and parse
    result that the monitored system may fail to produce. */
module Wrappers {

  /** `None` stands for a failed read, a missing file or an unparsable text. */
  datatype Option<+T> = None | Some(value: T) {

    /** Returns the encapsulated value, or `default` when there is none. */
    function GetOr(default: T): T {
      match this
      case Some(v) => v
      case None => default
    }
  }
}
