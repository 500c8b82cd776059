/** Option and Result, the failure-carrying wrappers used across the model. */
module Wrappers {

  datatype Option<+T> = None | Some(value: T) {
    function GetOr(default: T): T {
      match this
      case Some(v) => v
      case None => default
    }
  }

  /** The error kinds the modelled code raises (Python exceptions). */
  datatype Error =
    | FileNotFound(path: string)
    | ValueError(message: string)
    | FileExists(path: string)
    | IntegrityError(message: string)     // a UNIQUE constraint refused a write
    | OperationalError(message: string)   // malformed SQL or a missing table
    | AttributeError(message: string)     // a JSON document of the wrong shape
    | DatabaseError(message: string)      // a file that is not an SQLite database
    | KeyError(message: string)           // a dict indexed with a missing key

  datatype Result<+R> = Ok(value: R) | Err(error: Error)
}
