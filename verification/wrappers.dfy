/** Optional values, used wherever the source either produces a value or
    signals absence (a failed call, a missing dot). */
module Wrappers {

  datatype Option<+T> = None | Some(value: T)
}
