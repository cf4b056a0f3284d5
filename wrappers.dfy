/** Small result types shared by the ledger modules. */
module Wrappers {

  /**
   * A value that may be absent: an optional query parameter, a failed `stat`,
   * a NULL column, the count of a background run that raised.
   */
  datatype Option<+T> = None | Some(value: T)

  /** The outcome of an HTTP endpoint: a value, or an error status such as 404. */
  datatype Response<+T> = Ok(value: T) | Err(status: nat)

  /** HTTP status of a missing record or directory. */
  const NotFound: nat := 404

  /** HTTP status of an exception the endpoint does not catch. */
  const ServerError: nat := 500
}
