/** The optional value the catalog's lookups return where the source returns None. */
module Wrappers {
  datatype Option<+T> = None | Some(value: T)
}
