/** Option, the absent-or-present value used for nullable columns and for
    queries that may find nothing. */
module Wrappers {

  datatype Option<+T> = None | Some(value: T)
}
