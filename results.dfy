/** Wrappers shared by the whole model: Option stands for a PHP value that may
    be null or false, Result for a call that may throw. */
module Results {

  datatype Option<+T> = None | Some(value: T)

  datatype Result<+T, +E> = Ok(value: T) | Err(error: E)
}
