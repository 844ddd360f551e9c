/**
 * The errors that reach the server's error handler: plain `Error`s, service
 * errors with their four classification flags, and the errors the store
 * reports, as the MySQL driver describes them.
 */
module Errors {
  import opened Wrappers
  import Store

  /** A plain `Error`, or a `ServiceError` with its classification flags. */
  datatype ErrorKind =
    | PlainError
    | ServiceError(isNotFound: bool, isValidationFailed: bool, isUnauthorized: bool, isForbidden: bool)

  /**
   * A thrown error with the properties the handler reads; an absent
   * property (`undefined`) is `None`. `stack` is the text of the stack
   * trace: its first line, `<name>: <message>`, without the frames.
   */
  datatype ThrownError = ThrownError(
    kind: ErrorKind,
    message: string,
    status: Option<int>,
    code: Option<string>,
    details: Option<map<string, string>>,
    stack: string)

  /** `new Error(message)`: no status, code or details of its own. */
  function NewError(message: string): (e: ThrownError)
    ensures e.kind.PlainError? && e.message == message
    ensures e.status.None? && e.code.None? && e.details.None?
  {
    ThrownError(PlainError, message, None, None, None, "Error: " + message)
  }

  /** The driver's `code` for each failure of the store; knex's refusal of an empty update has none. */
  function DriverCode(e: Store.StoreError): Option<string> {
    match e
    case NoDefaultValue(_) => Some("ER_NO_DEFAULT_FOR_FIELD")
    case DataTooLong(_) => Some("ER_DATA_TOO_LONG")
    case OutOfRange(_) => Some("ER_WARN_DATA_OUT_OF_RANGE")
    case DuplicateEntry(_) => Some("ER_DUP_ENTRY")
    case NoReferencedRow(_) => Some("ER_NO_REFERENCED_ROW_2")
    case EmptyUpdate => None
  }

  /** The driver's message for each failure of the store, naming the column, index or constraint. */
  function DriverMessage(e: Store.StoreError): string {
    match e
    case NoDefaultValue(c) => "Field '" + c + "' doesn't have a default value"
    case DataTooLong(c) => "Data too long for column '" + c + "'"
    case OutOfRange(c) => "Out of range value for column '" + c + "'"
    case DuplicateEntry(i) => "Duplicate entry for key '" + i + "'"
    case NoReferencedRow(c) => "Cannot add or update a child row: a foreign key constraint fails (" + c + ")"
    case EmptyUpdate => "Empty .update() call detected!"
  }

  /**
   * The error a failed statement throws, which the repositories rethrow
   * unchanged: a plain error with the driver's code and no status.
   */
  function StoreFailure(e: Store.StoreError): (r: ThrownError)
    ensures r.kind.PlainError? && r.status.None? && r.details.None?
    ensures r.code == DriverCode(e)
  {
    ThrownError(PlainError, DriverMessage(e), None, DriverCode(e), None, "Error: " + DriverMessage(e))
  }
}
