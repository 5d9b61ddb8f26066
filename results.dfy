/** Failure-carrying values: the comparator's exceptions and the filesystem
    queries that may throw are modelled as `Err` values instead. */
module Results {

  datatype Option<+T> = None | Some(value: T)

  datatype Result<+T, +E> = Ok(value: T) | Err(error: E)
}
