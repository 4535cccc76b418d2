/** Optional values: `None` stands for Go's nil (a nil error, a nil pointer). */
module Wrappers {

  datatype Option<+T> = None | Some(value: T)
}
