/** Optional values and success-or-error results, used for pandas' missing
    values (NaN) and for the exceptions the scripts raise. */
module Results {

  datatype Option<+T> = None | Some(value: T)

  datatype Result<+T, +E> = Success(value: T) | Failure(error: E)
}
