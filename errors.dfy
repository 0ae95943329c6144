/**
 * The error values that the wire-command parser and the configuration
 * conversion can return (the crate's `Error` and `Result<T>` aliases).
 * Only the variants these two operations produce are modelled.
 */
module Errors {

  datatype Error =
    /** An unrecognised or malformed command, carrying the offending text. */
    | InvalidCommand(text: string)
    /** The bytes read from a client are not well-formed UTF-8. */
    | InvalidUtf8
    /** The configured log level is not a level name. */
    | ParseLogLevelError

  /** `crate::error::Result<T>`. */
  datatype Result<+T> = Ok(value: T) | Err(error: Error)
}
