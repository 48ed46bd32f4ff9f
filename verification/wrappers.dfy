/** Optional values: `None` stands for a JavaScript `undefined` read. */
module Wrappers {

  datatype Option<+T> = None | Some(value: T)
}
