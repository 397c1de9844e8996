/** Optional values and results, used where the reducer reads a key that may
    be missing or performs a step that may throw. */
module Wrappers {

  datatype Option<T> = None | Some(value: T)

  datatype Result<T, E> = Ok(value: T) | Err(error: E)
}
