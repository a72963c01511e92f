/** Optional values and success-or-error results shared by every module of the model.
    The Java source signals the absent case with `null` and the error case with an
    exception; here both are ordinary values the caller has to inspect. */
module Results {

  datatype Option<+T> = None | Some(value: T)

  datatype Result<+T, +E> = Ok(value: T) | Err(error: E)
}
