/** Optional values, and results that carry either a value or the error returned. */
module Results {
  datatype Option<+T> = None | Some(value: T)

  datatype Result<+T, +E> = Ok(value: T) | Err(error: E)

  /**
   What became of the last attempt at a command sent to Redis: a lost reply comes from an
   attempt that ran. The client retries, so earlier attempts may have run unanswered as well.
   */
  datatype Reply = Delivered | NotRun | Lost

  function Min(a: int, b: int): int {
    if a <= b then a else b
  }

  function Max(a: int, b: int): int {
    if a <= b then b else a
  }
}
