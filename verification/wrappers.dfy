/** Optional values (a JavaScript value that may be `undefined` or `null`)
    and results with an error message (a thrown `Error`). */
module Wrappers {

  datatype Option<+T> = None | Some(value: T)

  datatype Result<+T> = Success(value: T) | Failure(error: string)
}
