/** Optional values: PHP's `null` results (a missing revision, an unresolved user). */
module Wrappers {

  datatype Option<+T> = None | Some(value: T)
}
