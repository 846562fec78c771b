/** Optional values: the plugin's `None` returns and early exits. */
module Wrappers {

  datatype Option<+T> = None | Some(value: T)
}
