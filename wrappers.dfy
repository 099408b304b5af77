/** Optional values, used for absent results and absent output slots. */
module Wrappers {

  datatype Option<+T> = None | Some(value: T)
}
