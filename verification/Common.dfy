/** Datatypes and small facts shared by the models. */
module Common {

  datatype Option<+T> = None | Some(value: T)

  /** A JavaScript or Swift call that either returns or throws. */
  datatype Result<+T, +E> = Ok(value: T) | Err(error: E)
}
