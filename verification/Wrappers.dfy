/** What a lookup may give. */
module Wrappers {

  datatype Option<+T> = None | Some(value: T)
}
