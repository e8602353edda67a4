/** Optional values, as the source's `None` / `Optional[...]`. */
module Wrappers {

  datatype Option<+T> = None | Some(value: T)

}
