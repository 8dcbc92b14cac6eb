/** The optional value used for storage contents and for table lookups. */
module Wrappers {

  datatype Option<+T> = None | Some(value: T)
}
