/** Optional values: the model's counterpart of a JavaScript `null`/`undefined`. */
module Wrappers {

  datatype Option<+T> = None | Some(value: T)
}
