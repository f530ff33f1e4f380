/** Optional values: a JavaScript field that may be absent (`undefined`). */
module Wrappers {

  datatype Option<+T> = None | Some(value: T)

}
