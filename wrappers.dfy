/** An optional value: an omitted keyword argument, an entry that is absent. */
module Wrappers {

  datatype Option<+T> = None | Some(value: T)
}
