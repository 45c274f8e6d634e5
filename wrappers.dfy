/** Small helper datatypes shared by the other modules. */
module Wrappers {

  /** An optional value: `None` stands for JavaScript's `undefined`/`null` where a field may be absent. */
  datatype Option<+T> = None | Some(value: T) {
    function GetOr(default: T): T {
      match this
      case Some(v) => v
      case None => default
    }
  }

  /** The completion of a JavaScript expression that may throw (a `TypeError`, say). */
  datatype Completion<+T> = Normal(value: T) | Throws
}
