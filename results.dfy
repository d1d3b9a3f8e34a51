/** Failure-carrying values shared by every module: `Option` for Python's
    "value or None", `Result` for "value or an exception that escaped". */
module Results {

  datatype Option<+T> = None | Some(value: T)

  /** `Err` carries the text of the exception that ended the operation. */
  datatype Result<+T> = Ok(value: T) | Err(error: string)
}
