/** Option, for the source's `undefined` and `null` results. */
module Wrappers {
  datatype Option<+T> = None | Some(value: T)
  {
    /** `x ?? default` */
    function GetOr(default: T): T {
      if Some? then value else default
    }
  }
}
