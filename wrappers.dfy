/** Optional values: a null pointer argument or an absent capability is `None`. */
module Wrappers {

  datatype Option<+T> = None | Some(value: T)
}
