/** Failure-carrying results shared by the model's modules. */
module Results {

  datatype Option<+T> = None | Some(value: T)

  /** A value, or a failure carrying the message the source would throw or return. */
  datatype Result<+T> = Ok(value: T) | Err(message: string)
}
