/** Failure-carrying values shared by every module of the model: a nullable
    reference of the source becomes an `Option`, a thrown exception an `Err`. */
module Results {

  datatype Option<+T> = None | Some(value: T)

  datatype Result<+T, +E> = Ok(value: T) | Err(error: E)
}
