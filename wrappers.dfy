/** Optional values and error results, used where the pages cope with a
    missing value (`?.`, `??`) or would fail at run time. */
module Wrappers {

  datatype Option<+T> = None | Some(value: T)

  datatype Result<+R, +E> = Success(value: R) | Failure(error: E)
}
