/** Optional values for results JavaScript leaves `undefined`. */
module Wrappers {

  /** `None` stands for a JavaScript `undefined` result, `Some(v)` for a defined one. */
  datatype Option<+T> = None | Some(value: T)
}
