/** Optional values: a `null`-able field or prop of the game is an `Option`. */
module Wrappers {

  datatype Option<+T> = None | Some(value: T)
}
