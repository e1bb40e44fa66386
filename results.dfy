/** Optional values and error-or-value results, used for Python's `None` and raised exceptions. */
module Results {

  datatype Option<T> = None | Some(value: T)

  datatype Result<T, E> = Ok(value: T) | Err(error: E)

  /** `Some(v)` yields `v`, `None` yields the fallback (Python's `dict.get(key, default)`). */
  function GetOr<T>(o: Option<T>, default: T): T
  {
    match o
    case Some(v) => v
    case None => default
  }
}
