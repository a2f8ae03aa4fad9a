/** Optional values: the model's stand-in for JavaScript's `undefined` and for
    operations that throw. */
module Wrappers {

  datatype Option<+T> = None | Some(value: T)
}
