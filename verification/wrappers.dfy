/** The optional value used for a query that may find nothing. */
module Wrappers {

  datatype Option<+T> = None | Some(value: T)
}
