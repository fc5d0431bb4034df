/** Optional values, for the variables the script may leave unassigned. */
module Wrappers {

  datatype Option<+T> = None | Some(value: T)
}
