/** The optional value used throughout the model: a JavaScript `undefined`,
    `null` or missing key is `None`, and a thrown TypeError is `None` where a
    computation can throw. */
module Wrappers {

  datatype Option<+T> = None | Some(value: T) {

    /** Returns the value in Some, or the default for None. */
    function GetOr(default: T): T {
      match this
      case Some(v) => v
      case None => default
    }
  }
}
