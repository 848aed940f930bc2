/** Optional values and the outcome of an awaited network call. */
module Results {

  /** A value that may be `null` or absent in the source. */
  datatype Option<T> = None | Some(value: T)

  /** What an awaited call settles to: the value it resolves with, or a
      rejection carrying the server's error text (`""` when it has none). */
  datatype Reply<T> = Ok(value: T) | Failed(message: string)
}
