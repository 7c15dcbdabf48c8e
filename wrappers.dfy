/** Option and Result, used for lookups that may find nothing and for the
    HTTP errors the routes raise. */
module Wrappers {

  datatype Option<+T> = None | Some(value: T)

  datatype Result<+R, +E> = Ok(value: R) | Err(error: E)
}
