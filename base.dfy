/** Values shared by the whole model: optional values, results, and the two
    Python exceptions of the update script that the model covers. */
module Base {

  datatype Option<+T> = None | Some(value: T)

  /** An uncaught Python exception the model covers: it ends the run with a
      traceback and exit status 1. */
  datatype Exception =
    | KeyError(key: string)      // a missing INI section or option
    | IndexError(index: nat)     // a release position the catalog does not have

  datatype Result<+T> = Ok(value: T) | Err(error: Exception)
}
