/** Optional values and fallible results, standing for TypeScript's `T | null` / `T | undefined`
    and for functions that throw. */
module Wrappers {

  datatype Option<+T> = None | Some(value: T)

  datatype Result<+T, +E> = Ok(value: T) | Err(error: E)
}
