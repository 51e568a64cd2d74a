/** Optional values and outcomes of calls that may fail. */
module Wrappers {

  datatype Option<T> = None | Some(value: T)

  datatype Outcome<T> = Ok(value: T) | Err
}
