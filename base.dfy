/** Failure-carrying values shared by every stage of the ETL run. */
module Base {

  datatype Option<+T> = None | Some(value: T)

  /** The failures of the run that the model covers. None of them is caught:
      any one ends the whole job. */
  datatype Error =
    | UnrecognizedGender(code: string)   // ParseGender's raise
    | InvalidInt(text: string)           // int(...) of a malformed field
    | DateIndex(timestamp: string)       // sale_date[1] or sale_date[2] is out of range

  datatype Result<+T> = Ok(value: T) | Err(error: Error)
}
