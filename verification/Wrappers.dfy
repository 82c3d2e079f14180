/** What a lookup that may find nothing answers. */
module Wrappers {
  datatype Option<+T> = None | Some(value: T)
}
