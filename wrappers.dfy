/** Option and Result: the absent value and the error path, used instead of
    preconditions wherever Python would return None or raise. */
module Wrappers {

  datatype Option<+T> = None | Some(value: T)

  datatype Result<+R, +E> = Ok(value: R) | Err(error: E)
}
