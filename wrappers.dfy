/** Optional values: JavaScript's `null`/`undefined` where the source uses them as "absent". */
module Wrappers {

  datatype Option<+T> = None | Some(value: T) {

    function GetOr(default: T): T {
      match this
      case Some(v) => v
      case None => default
    }
  }
}
