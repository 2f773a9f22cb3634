/** An optional value: a lookup that may find nothing, a notification that may not fire. */
module Wrappers {

  datatype Option<+T> = None | Some(value: T)
}
