/** Optional values and failures, standing in for Java's null returns and thrown exceptions. */
module Wrappers {
  datatype Option<T> = None | Some(value: T)

  datatype Result<T> = Ok(value: T) | Failure(message: string)
}
